/**
 The asmap instruction set: variable-length fields over a bit program, the
 four instructions, and what a program answers for an address.

 A program is a sequence of bits.  An address is the sequence of lookup bits
 that remain to be consumed, most significant first.
 */
module AsmapCode {
  import opened Basics
  import opened Words

  type Program = seq<bool>

  const INVALID: nat := U32_MAX

  const TYPE_BIT_SIZES: seq<nat> := [0, 0, 1]
  /** Consecutive bit sizes `lo`, `lo + 1`, ... as every operand ladder uses them. */
  function Ladder(lo: nat, steps: nat): (sizes: seq<nat>)
    ensures |sizes| == steps && forall i | 0 <= i < steps :: sizes[i] == lo + i
  {
    seq(steps, i requires 0 <= i => lo + i)
  }

  const ASN_BIT_SIZES: seq<nat> := Ladder(15, 10)
  const MATCH_BIT_SIZES: seq<nat> := Ladder(1, 8)
  const JUMP_BIT_SIZES: seq<nat> := Ladder(5, 26)

  /** The value of a literal, most significant bit first. */
  function Literal(bits: seq<bool>): nat {
    if bits == [] then 0
    else (if bits[0] then Pow2(|bits| - 1) else 0) + Literal(bits[1..])
  }

  /** A decoded field: its value and the position after it. */
  datatype Field = Field(value: nat, next: nat)

  function LiteralField(p: Program, pos: nat, base: nat, size: nat): Option<Field> {
    if pos + size > |p| then None
    else Some(Field(base + Literal(p[pos..pos + size]), pos + size))
  }

  /** One ladder field; `None` when it runs past the end of the program. */
  function DecodeField(p: Program, pos: nat, base: nat, sizes: seq<nat>): (f: Option<Field>)
    decreases |sizes|, |p|
  {
    if sizes == [] then None
    else if |sizes| == 1 then LiteralField(p, pos, base, sizes[0])
    else if pos >= |p| then None
    else if p[pos] then DecodeField(p, pos + 1, base + Pow2(sizes[0]), sizes[1..])
    else LiteralField(p, pos + 1, base, sizes[0])
  }

  /** How many values a ladder can express. */
  function Capacity(sizes: seq<nat>): nat {
    if sizes == [] then 0 else Pow2(sizes[0]) + Capacity(sizes[1..])
  }

  lemma {:induction false} LiteralBound(bits: seq<bool>)
    ensures Literal(bits) < Pow2(|bits|)
  {
    if bits != [] { LiteralBound(bits[1..]); }
  }

  /** A decoded field lies in the ladder's range and never moves backwards. */
  lemma {:induction false} FieldRange(p: Program, pos: nat, base: nat, sizes: seq<nat>)
    ensures var f := DecodeField(p, pos, base, sizes);
            f.Some? ==> base <= f.value.value < base + Capacity(sizes) && pos <= f.value.next <= |p|
    ensures |sizes| > 1 && DecodeField(p, pos, base, sizes).Some? ==>
              pos < DecodeField(p, pos, base, sizes).value.next
    decreases |sizes|
  {
    if |sizes| == 1 {
      if pos + sizes[0] <= |p| { LiteralBound(p[pos..pos + sizes[0]]); }
    } else if |sizes| > 1 && pos < |p| {
      if p[pos] {
        FieldRange(p, pos + 1, base + Pow2(sizes[0]), sizes[1..]);
      } else if pos + 1 + sizes[0] <= |p| {
        LiteralBound(p[pos + 1..pos + 1 + sizes[0]]);
      }
    }
  }

  /**
   What a field stands for: `k` set selector bits skip the first `k` sizes, a
   clear one ends the selection unless the last size is reached, and the
   literal that follows counts from there.
   */
  lemma {:induction false} FieldReads(p: Program, pos: nat, base: nat, sizes: seq<nat>, k: nat)
    requires k < |sizes| && pos + k <= |p| && (forall j | pos <= j < pos + k :: p[j])
    requires k < |sizes| - 1 ==> pos + k < |p| && !p[pos + k]
    ensures var start := if k < |sizes| - 1 then pos + k + 1 else pos + k;
            DecodeField(p, pos, base, sizes) ==
            if start + sizes[k] > |p| then None
            else Some(Field(base + Capacity(sizes[..k]) + Literal(p[start..start + sizes[k]]), start + sizes[k]))
    decreases k
  {
    if k == 0 {
      assert sizes[..0] == [];
    } else {
      FieldReads(p, pos + 1, base + Pow2(sizes[0]), sizes[1..], k - 1);
      assert sizes[..k][1..] == sizes[1..][..k - 1];
    }
  }

  /** Consecutive ladders from `lo` to `hi` express exactly `2^(hi+1) - 2^lo` values. */
  lemma {:induction false} LadderCapacity(sizes: seq<nat>, lo: nat)
    requires forall i | 0 <= i < |sizes| :: sizes[i] == lo + i
    ensures Capacity(sizes) == Pow2(lo + |sizes|) - Pow2(lo)
  {
    if sizes != [] {
      LadderCapacity(sizes[1..], lo + 1);
    }
  }

  /** The largest value of each operand; all of them stay below the `INVALID` sentinel. */
  const MAX_ASN: nat := 0x1ff_8000
  const MAX_MATCH: nat := 511
  const MAX_JUMP: nat := 0x7fff_fff0

  lemma Pow2Values()
    ensures Pow2(1) == 2 && Pow2(5) == 32 && Pow2(9) == 512
    ensures Pow2(15) == 0x8000 && Pow2(25) == 0x200_0000 && Pow2(31) == 0x8000_0000
  {
    Pow2Sum(5, 5); Pow2Sum(10, 5); Pow2Sum(10, 15); Pow2Sum(25, 6);
    assert Pow2(6) == 64;
  }

  lemma OperandCapacities()
    ensures 1 + Capacity(ASN_BIT_SIZES) == MAX_ASN + 1
    ensures 2 + Capacity(MATCH_BIT_SIZES) == MAX_MATCH + 1
    ensures 17 + Capacity(JUMP_BIT_SIZES) == MAX_JUMP + 1
  {
    Pow2Values();
    hide Capacity, Pow2;
    LadderCapacity(ASN_BIT_SIZES, 15);
    LadderCapacity(MATCH_BIT_SIZES, 1);
    LadderCapacity(JUMP_BIT_SIZES, 5);
  }

  lemma OpcodeCapacity()
    ensures Capacity(TYPE_BIT_SIZES) == 4
  {
    assert TYPE_BIT_SIZES[1..] == [0, 1];
    assert [0, 1][1..] == [1];
    assert [1][1..] == [];
    assert Capacity([1]) == 2;
  }

  lemma OperandRange(p: Program, pos: nat, opcode: nat)
    requires opcode < 4
    ensures var f := Operand(p, pos, opcode);
            f.Some? ==> pos < f.value.next <= |p| && OpInRange(MakeOp(opcode, f.value.value))
  {
    OperandCapacities();
    if opcode == 0 || opcode == 3 {
      FieldRange(p, pos, 1, ASN_BIT_SIZES);
    } else if opcode == 1 {
      FieldRange(p, pos, 17, JUMP_BIT_SIZES);
    } else {
      FieldRange(p, pos, 2, MATCH_BIT_SIZES);
    }
  }

  datatype Op = Return(asn: nat) | Jump(offset: nat) | Match(pattern: nat) | Default(asn: nat)

  datatype Instruction = Instruction(op: Op, next: nat)

  /** The opcode selects the operand ladder. */
  function Operand(p: Program, pos: nat, opcode: nat): Option<Field>
    requires opcode < 4
  {
    if opcode == 0 || opcode == 3 then DecodeField(p, pos, 1, ASN_BIT_SIZES)
    else if opcode == 1 then DecodeField(p, pos, 17, JUMP_BIT_SIZES)
    else DecodeField(p, pos, 2, MATCH_BIT_SIZES)
  }

  function MakeOp(opcode: nat, operand: nat): Op
    requires opcode < 4
  {
    if opcode == 0 then Return(operand)
    else if opcode == 1 then Jump(operand)
    else if opcode == 2 then Match(operand)
    else Default(operand)
  }

  predicate OpInRange(op: Op) {
    match op
    case Return(asn) => 1 <= asn <= MAX_ASN
    case Default(asn) => 1 <= asn <= MAX_ASN
    case Jump(offset) => 17 <= offset <= MAX_JUMP
    case Match(pattern) => 2 <= pattern <= MAX_MATCH
  }

  /** The opcode field at `pos`. */
  function Opcode(p: Program, pos: nat): (f: Option<Field>)
    ensures f.Some? ==> f.value.value < 4 && pos < f.value.next <= |p|
  {
    OpcodeCapacity();
    FieldRange(p, pos, 0, TYPE_BIT_SIZES);
    DecodeField(p, pos, 0, TYPE_BIT_SIZES)
  }

  /** The instruction at `pos`; `None` when either of its fields runs past the end. */
  function Fetch(p: Program, pos: nat): (i: Option<Instruction>)
    ensures i.Some? ==> pos < i.value.next <= |p| && OpInRange(i.value.op)
  {
    var opcode := Opcode(p, pos);
    if opcode.None? then None
    else
      OperandRange(p, opcode.value.next, opcode.value.value);
      var operand := Operand(p, opcode.value.next, opcode.value.value);
      if operand.None? then None
      else Some(Instruction(MakeOp(opcode.value.value, operand.value.value), operand.value.next))
  }

  lemma OpcodeReads(p: Program, pos: nat, ones: nat)
    requires ones <= 2 && pos + ones < |p| && (forall j | pos <= j < pos + ones :: p[j])
             && (ones < 2 ==> !p[pos + ones])
    ensures Opcode(p, pos) ==
            if ones < 2 then Some(Field(ones, pos + ones + 1)) else Some(Field(if p[pos + 2] then 3 else 2, pos + 3))
  {
    FieldReads(p, pos, 0, TYPE_BIT_SIZES, ones);
    assert TYPE_BIT_SIZES[..ones] == if ones == 0 then [] else if ones == 1 then [0] else [0, 0];
    assert [0, 0][1..] == [0] && [0][1..] == [];
    assert Capacity([0]) == 1 && Capacity([0, 0]) == 2;
    if ones == 2 {
      assert p[pos + 2..pos + 3] == [p[pos + 2]];
      assert Literal([true]) == 1 && Literal([false]) == 0;
    } else {
      assert p[pos + ones + 1..pos + ones + 1] == [];
    }
  }

  /**
   How instructions are told apart: a clear bit is a RETURN, then 10 a JUMP,
   110 a MATCH and 111 a DEFAULT, each with its operand in its own ladder.
   */
  lemma FetchReads(p: Program, pos: nat)
    ensures pos < |p| && !p[pos] ==>
              match DecodeField(p, pos + 1, 1, Ladder(15, 10))
              case None => Fetch(p, pos) == None
              case Some(f) => Fetch(p, pos) == Some(Instruction(Return(f.value), f.next))
    ensures pos + 1 < |p| && p[pos] && !p[pos + 1] ==>
              match DecodeField(p, pos + 2, 17, Ladder(5, 26))
              case None => Fetch(p, pos) == None
              case Some(f) => Fetch(p, pos) == Some(Instruction(Jump(f.value), f.next))
    ensures pos + 2 < |p| && p[pos] && p[pos + 1] && !p[pos + 2] ==>
              match DecodeField(p, pos + 3, 2, Ladder(1, 8))
              case None => Fetch(p, pos) == None
              case Some(f) => Fetch(p, pos) == Some(Instruction(Match(f.value), f.next))
    ensures pos + 2 < |p| && p[pos] && p[pos + 1] && p[pos + 2] ==>
              match DecodeField(p, pos + 3, 1, Ladder(15, 10))
              case None => Fetch(p, pos) == None
              case Some(f) => Fetch(p, pos) == Some(Instruction(Default(f.value), f.next))
  {
    hide DecodeField, Opcode, Ladder;
    if pos < |p| && !p[pos] { OpcodeReads(p, pos, 0); }
    if pos + 1 < |p| && p[pos] && !p[pos + 1] { OpcodeReads(p, pos, 1); }
    if pos + 2 < |p| && p[pos] && p[pos + 1] { OpcodeReads(p, pos, 2); }
  }

  /** `31 - matched.leading_zeros()`: the operand's leading one only marks its length. */
  function MatchLen(pattern: nat): (n: nat)
    ensures pattern >= 1 ==> Pow2(n) <= pattern < 2 * Pow2(n)
  {
    if pattern < 2 then 0 else 1 + MatchLen(pattern / 2)
  }

  /** The low `size` bits of `value`, most significant first. */
  function LowBits(value: nat, size: nat): (bits: seq<bool>)
    ensures |bits| == size
  {
    if size == 0 then [] else [TestBit(value, size - 1)] + LowBits(value, size - 1)
  }

  /** How a lookup ends. */
  datatype Outcome =
    | Returned(asn: nat)   // reached a RETURN
    | Diverged(asn: nat)   // a MATCH disagreed with the address: the current default answers
    | Malformed            // the program could not be executed any further
  {
    function Asn(): nat {
      if Malformed? then 0 else asn
    }
  }

  /** What one instruction does: end the lookup, or continue elsewhere. */
  datatype Effect = Stop(outcome: Outcome) | Goto(pos: nat, address: seq<bool>, default: nat)

  function Execute(op: Op, next: nat, size: nat, address: seq<bool>, default: nat): (e: Effect)
    requires next <= size
    ensures e.Goto? ==> next <= e.pos <= size
  {
    match op
    case Return(asn) => Stop(Returned(asn))
    case Jump(offset) =>
      if address == [] || offset >= size - next then Stop(Malformed)
      else Goto(if address[0] then next + offset else next, address[1..], default)
    case Match(pattern) =>
      var n := MatchLen(pattern);
      if |address| < n then Stop(Malformed)
      else if address[..n] != LowBits(pattern, n) then Stop(Diverged(default))
      else Goto(next, address[n..], default)
    case Default(asn) => Goto(next, address, asn)
  }

  /** Executes the program from `pos` over the address bits that remain. */
  function Run(p: Program, pos: nat, address: seq<bool>, default: nat): Outcome
    decreases |p| - pos
  {
    if pos >= |p| then Malformed
    else
      var i := Fetch(p, pos);
      if i.None? then Malformed
      else
        match Execute(i.value.op, i.value.next, |p|, address, default)
        case Stop(outcome) => outcome
        case Goto(target, rest, fallback) => Run(p, target, rest, fallback)
  }

  /** The program held by a byte buffer: bit `i` is bit `i % 8` of byte `i / 8`. */
  function BitsOf(data: seq<Byte>): (p: Program)
    ensures |p| == 8 * |data|
  {
    seq(8 * |data|, i requires 0 <= i < 8 * |data| => TestBit(data[i / 8], i % 8))
  }

  /** The number some bits stand for, least significant first. */
  function FromBits(bits: seq<bool>): nat {
    if bits == [] then 0 else (if bits[0] then 1 else 0) + 2 * FromBits(bits[1..])
  }

  lemma {:induction false} DigitsOf(w: nat, bits: seq<bool>)
    requires w < Pow2(|bits|) && forall k | 0 <= k < |bits| :: bits[k] == TestBit(w, k)
    ensures FromBits(bits) == w
    decreases |bits|
  {
    if bits != [] {
      forall k | 0 <= k < |bits| - 1 ensures bits[1..][k] == TestBit(w / 2, k) {
        assert bits[k + 1] == TestBit(w, k + 1);
      }
      DigitsOf(w / 2, bits[1..]);
    }
  }

  /** Each byte holds eight bits of the program, least significant first. */
  lemma ByteHoldsBits(data: seq<Byte>, j: nat)
    requires j < |data|
    ensures FromBits(BitsOf(data)[8 * j..8 * j + 8]) == data[j]
  {
    var bits := BitsOf(data)[8 * j..8 * j + 8];
    assert Pow2(8) == 256 by { assert Pow2(4) == 16; }
    forall k | 0 <= k < 8 ensures bits[k] == TestBit(data[j], k) {
      assert bits[k] == BitsOf(data)[8 * j + k];
      assert (8 * j + k) / 8 == j && (8 * j + k) % 8 == k;
    }
    DigitsOf(data[j], bits);
  }
}
