/**
 The trie-to-bytecode compiler: ladder fields, instructions, and the code of a
 subtree, with the proof that decoding, running and validating the emitted
 code give back what the trie says.  Code is placed at any position of any
 program, so the results apply inside jumps.
 */
module AsmapEmit {
  import opened Basics
  import opened Words
  import opened AsmapCode
  import opened AsmapCheck
  import opened AsmapTrie

  /** `code` occupies the program from `pos` on. */
  predicate At(p: Program, pos: nat, code: seq<bool>) {
    pos + |code| <= |p| && p[pos..pos + |code|] == code
  }

  lemma AtInside(p: Program, pos: nat, code: seq<bool>)
    requires At(p, pos, code)
    ensures pos + |code| <= |p|
  {
  }

  lemma AtParts(p: Program, pos: nat, a: seq<bool>, b: seq<bool>)
    requires At(p, pos, a + b)
    ensures At(p, pos, a) && At(p, pos + |a|, b)
  {
    assert a == (a + b)[..|a|] && b == (a + b)[|a|..];
    assert p[pos..pos + |a|] == p[pos..pos + |a + b|][..|a|];
    assert p[pos + |a|..pos + |a| + |b|] == p[pos..pos + |a + b|][|a|..];
  }

  // ----- Literals -----

  /** `value % 2^size`, by binary digits. */
  function LowValue(value: nat, size: nat): (r: nat)
    ensures r < Pow2(size)
  {
    if size == 0 then 0 else 2 * LowValue(value / 2, size - 1) + value % 2
  }

  lemma {:induction false} LowValueSmall(value: nat, size: nat)
    requires value < Pow2(size)
    ensures LowValue(value, size) == value
  {
    if size > 0 { LowValueSmall(value / 2, size - 1); }
  }

  lemma {:induction false} LowValueDropsTop(value: nat, low: nat, size: nat)
    requires value == Pow2(size) + low && low < Pow2(size)
    ensures LowValue(value, size) == low
  {
    if size > 0 { LowValueDropsTop(value / 2, low / 2, size - 1); }
  }

  lemma {:induction false} LowValueTop(value: nat, size: nat)
    requires size > 0
    ensures LowValue(value, size) ==
            (if TestBit(value, size - 1) then Pow2(size - 1) else 0) + LowValue(value, size - 1)
  {
    if size > 1 { LowValueTop(value / 2, size - 1); }
  }

  lemma {:induction false} LiteralOfLowBits(value: nat, size: nat)
    ensures Literal(LowBits(value, size)) == LowValue(value, size)
  {
    if size > 0 {
      LiteralOfLowBits(value, size - 1);
      LowValueTop(value, size);
      assert LowBits(value, size)[1..] == LowBits(value, size - 1);
    }
  }

  lemma {:induction false} LiteralInjective(a: seq<bool>, b: seq<bool>)
    requires |a| == |b| && Literal(a) == Literal(b)
    ensures a == b
  {
    if a != [] {
      LiteralBound(a[1..]);
      LiteralBound(b[1..]);
      LiteralInjective(a[1..], b[1..]);
      assert a == [a[0]] + a[1..] && b == [b[0]] + b[1..];
    }
  }

  /** Bits are determined by the value they spell. */
  lemma SameLiteral(value: nat, bits: seq<bool>)
    requires LowValue(value, |bits|) == Literal(bits)
    ensures LowBits(value, |bits|) == bits
  {
    LiteralOfLowBits(value, |bits|);
    LiteralInjective(LowBits(value, |bits|), bits);
  }

  lemma {:induction false} LiteralAppend(s: seq<bool>, bit: bool)
    ensures Literal(s + [bit]) == 2 * Literal(s) + (if bit then 1 else 0)
  {
    if s == [] {
      assert s + [bit] == [bit];
    } else {
      LiteralAppend(s[1..], bit);
      assert (s + [bit])[1..] == s[1..] + [bit];
    }
  }

  // ----- Fields -----

  /** One ladder field for `remaining`, the value above the ladder's minimum. */
  function EncodeField(remaining: nat, sizes: seq<nat>): seq<bool>
    requires sizes != []
    decreases |sizes|, remaining
  {
    if |sizes| == 1 then LowBits(remaining, sizes[0])
    else if remaining < Pow2(sizes[0]) then [false] + LowBits(remaining, sizes[0])
    else [true] + EncodeField(remaining - Pow2(sizes[0]), sizes[1..])
  }

  /** What survives the last rung, whose literal keeps only its low bits. */
  function Wrapped(remaining: nat, sizes: seq<nat>): nat
    requires sizes != []
    decreases |sizes|, remaining
  {
    if |sizes| == 1 then LowValue(remaining, sizes[0])
    else if remaining < Pow2(sizes[0]) then remaining
    else Pow2(sizes[0]) + Wrapped(remaining - Pow2(sizes[0]), sizes[1..])
  }

  lemma LiteralAt(p: Program, pos: nat, base: nat, value: nat, size: nat)
    requires At(p, pos, LowBits(value, size))
    ensures LiteralField(p, pos, base, size) == Some(Field(base + LowValue(value, size), pos + size))
  {
    LiteralOfLowBits(value, size);
  }

  lemma {:induction false} DecodeEncoded(p: Program, pos: nat, base: nat, remaining: nat, sizes: seq<nat>)
    requires sizes != [] && At(p, pos, EncodeField(remaining, sizes))
    ensures DecodeField(p, pos, base, sizes) ==
            Some(Field(base + Wrapped(remaining, sizes), pos + |EncodeField(remaining, sizes)|))
    decreases |sizes|
  {
    if |sizes| == 1 {
      LiteralAt(p, pos, base, remaining, sizes[0]);
    } else if remaining < Pow2(sizes[0]) {
      AtParts(p, pos, [false], LowBits(remaining, sizes[0]));
      LiteralAt(p, pos + 1, base, remaining, sizes[0]);
      LowValueSmall(remaining, sizes[0]);
      assert p[pos] == p[pos..pos + 1][0];
    } else {
      var rest := EncodeField(remaining - Pow2(sizes[0]), sizes[1..]);
      AtParts(p, pos, [true], rest);
      DecodeEncoded(p, pos + 1, base + Pow2(sizes[0]), remaining - Pow2(sizes[0]), sizes[1..]);
      assert p[pos] == p[pos..pos + 1][0];
    }
  }

  /** A field survives encoding exactly when the ladder can express it. */
  lemma {:induction false} WrappedExact(remaining: nat, sizes: seq<nat>)
    requires sizes != []
    ensures Wrapped(remaining, sizes) < Capacity(sizes)
    ensures Wrapped(remaining, sizes) == remaining <==> remaining < Capacity(sizes)
    decreases |sizes|
  {
    if |sizes| == 1 {
      assert Capacity(sizes) == Pow2(sizes[0]) + Capacity(sizes[1..]) == Pow2(sizes[0]);
      if remaining < Pow2(sizes[0]) { LowValueSmall(remaining, sizes[0]); }
    } else if remaining >= Pow2(sizes[0]) {
      WrappedExact(remaining - Pow2(sizes[0]), sizes[1..]);
    }
  }

  lemma {:induction false} FieldLength(remaining: nat, lo: nat, sizes: seq<nat>)
    requires sizes != [] && forall i | 0 <= i < |sizes| :: sizes[i] == lo + i
    ensures |EncodeField(remaining, sizes)| >= lo + if |sizes| > 1 then 1 else 0
    decreases |sizes|
  {
    if |sizes| > 1 && remaining >= Pow2(lo) {
      FieldLength(remaining - Pow2(lo), lo + 1, sizes[1..]);
    }
  }

  // ----- Instructions -----

  function Sizes(opcode: nat): (sizes: seq<nat>)
    requires opcode < 4
    ensures |sizes| > 1
  {
    if opcode == 1 then JUMP_BIT_SIZES else if opcode == 2 then MATCH_BIT_SIZES else ASN_BIT_SIZES
  }

  function Base(opcode: nat): nat {
    if opcode == 1 then 17 else if opcode == 2 then 2 else 1
  }

  function Instr(opcode: nat, remaining: nat): seq<bool>
    requires opcode < 4
  {
    EncodeField(opcode, TYPE_BIT_SIZES) + EncodeField(remaining, Sizes(opcode))
  }

  /** An operand in its instruction's range is encoded exactly. */
  lemma OperandExact(opcode: nat, remaining: nat)
    requires opcode < 4
    requires remaining <= if opcode == 1 then MAX_JUMP - 17 else if opcode == 2 then MAX_MATCH - 2 else MAX_ASN - 1
    ensures Wrapped(remaining, Sizes(opcode)) == remaining
  {
    OperandCapacities();
    WrappedExact(remaining, Sizes(opcode));
  }

  lemma OpcodeExact(opcode: nat)
    requires opcode < 4
    ensures Wrapped(opcode, TYPE_BIT_SIZES) == opcode
    ensures |EncodeField(opcode, TYPE_BIT_SIZES)| >= 1
  {
    OpcodeCapacity();
    WrappedExact(opcode, TYPE_BIT_SIZES);
    assert TYPE_BIT_SIZES[0] == 0;
  }

  /** Fetching an emitted instruction gives back its opcode and its (wrapped) operand. */
  lemma FetchEmitted(p: Program, pos: nat, opcode: nat, remaining: nat)
    requires opcode < 4 && At(p, pos, Instr(opcode, remaining))
    ensures pos < |p|
    ensures Fetch(p, pos) == Some(Instruction(MakeOp(opcode, Base(opcode) + Wrapped(remaining, Sizes(opcode))),
                                              pos + |Instr(opcode, remaining)|))
  {
    hide Wrapped, EncodeField, DecodeField;
    var head := EncodeField(opcode, TYPE_BIT_SIZES);
    OpcodeExact(opcode);
    AtParts(p, pos, head, EncodeField(remaining, Sizes(opcode)));
    DecodeEncoded(p, pos, 0, opcode, TYPE_BIT_SIZES);
    DecodeEncoded(p, pos + |head|, Base(opcode), remaining, Sizes(opcode));
  }

  function ReturnCode(asn: nat): (code: seq<bool>)
    requires asn >= 1
    ensures |code| >= 17
  {
    OpcodeExact(0);
    FieldLength(asn - 1, 15, ASN_BIT_SIZES);
    Instr(0, asn - 1)
  }

  function JumpCode(offset: nat): (code: seq<bool>)
    requires offset >= 17
    ensures |code| >= 1
  {
    OpcodeExact(1);
    Instr(1, offset - 17)
  }

  /** `1` followed by the chunk's bits. */
  function MatchOperand(chunk: seq<bool>): (v: nat)
    ensures v >= 1
  {
    Pow2(|chunk|) + Literal(chunk)
  }

  lemma MatchOperandRange(chunk: seq<bool>)
    requires 1 <= |chunk| <= 8
    ensures 2 <= MatchOperand(chunk) <= MAX_MATCH
    ensures Pow2(|chunk|) <= MatchOperand(chunk) < 2 * Pow2(|chunk|)
  {
    LiteralBound(chunk);
    Pow2Monotone(1, |chunk|);
    Pow2Monotone(|chunk|, 8);
    Pow2Values();
  }

  lemma MatchOperandBits(chunk: seq<bool>)
    ensures LowBits(MatchOperand(chunk), |chunk|) == chunk
  {
    LiteralBound(chunk);
    LowValueDropsTop(MatchOperand(chunk), Literal(chunk), |chunk|);
    SameLiteral(MatchOperand(chunk), chunk);
  }

  lemma MatchOperandExact(chunk: seq<bool>)
    requires 1 <= |chunk| <= 8
    ensures 2 <= MatchOperand(chunk) <= MAX_MATCH
    ensures MatchLen(MatchOperand(chunk)) == |chunk|
    ensures LowBits(MatchOperand(chunk), |chunk|) == chunk
  {
    MatchOperandRange(chunk);
    MatchLenUnique(MatchOperand(chunk), |chunk|);
    MatchOperandBits(chunk);
  }

  lemma {:induction false} MatchLenUnique(v: nat, n: nat)
    requires Pow2(n) <= v < 2 * Pow2(n)
    ensures MatchLen(v) == n
  {
    if n > 0 { MatchLenUnique(v / 2, n - 1); }
  }

  function MatchCode(chunk: seq<bool>): (code: seq<bool>)
    requires 1 <= |chunk| <= 8
    ensures |code| >= 1
  {
    MatchOperandRange(chunk);
    OpcodeExact(2);
    Instr(2, MatchOperand(chunk) - 2)
  }

  lemma FetchMatch(p: Program, pos: nat, chunk: seq<bool>)
    requires 1 <= |chunk| <= 8 && At(p, pos, MatchCode(chunk))
    ensures pos < |p|
    ensures Fetch(p, pos) == Some(Instruction(Match(MatchOperand(chunk)), pos + |MatchCode(chunk)|))
  {
    hide Fetch, MatchOperand, Wrapped;
    MatchOperandRange(chunk);
    OperandExact(2, MatchOperand(chunk) - 2);
    FetchEmitted(p, pos, 2, MatchOperand(chunk) - 2);
  }

  /** A run of MATCH instructions, eight pattern bits each except possibly the last. */
  function MatchesCode(pattern: seq<bool>): seq<bool>
    decreases |pattern|
  {
    if pattern == [] then []
    else if |pattern| <= 8 then MatchCode(pattern)
    else MatchCode(pattern[..8]) + MatchesCode(pattern[8..])
  }

  // ----- Subtrees -----

  /** The single-known-child path below a node, and the node where it ends. */
  function Pattern(n: Node): seq<bool> {
    if n.Leaf? then []
    else if Unknown(n.zero) && !Unknown(n.one) then [true] + Pattern(n.one)
    else if Unknown(n.one) && !Unknown(n.zero) then [false] + Pattern(n.zero)
    else []
  }

  function PatternEnd(n: Node): (r: Node)
    ensures r == n || r < n
  {
    if n.Leaf? then n
    else if Unknown(n.zero) && !Unknown(n.one) then PatternEnd(n.one)
    else if Unknown(n.one) && !Unknown(n.zero) then PatternEnd(n.zero)
    else n
  }

  /** No all-unknown subtree would have to be emitted. */
  predicate Emittable(n: Node) {
    match n
    case Leaf(asn) => asn != 0
    case Branch(zero, one) =>
      if Unknown(zero) then Emittable(one)
      else if Unknown(one) then Emittable(zero)
      else Emittable(zero) && Emittable(one)
  }

  lemma {:induction false} SimplifiedIsEmittable(n: Node)
    requires Simplified(n) && !Unknown(n)
    ensures Emittable(n)
  {
    if n.Branch? {
      if !Unknown(n.zero) { SimplifiedIsEmittable(n.zero); }
      if !Unknown(n.one) { SimplifiedIsEmittable(n.one); }
    }
  }

  lemma {:induction false} PatternFacts(n: Node)
    requires Emittable(n)
    ensures Emittable(PatternEnd(n)) && Pattern(PatternEnd(n)) == [] && PatternEnd(PatternEnd(n)) == PatternEnd(n)
    ensures PatternEnd(n).Branch? ==> Emittable(PatternEnd(n).zero) && Emittable(PatternEnd(n).one)
    ensures |Pattern(n)| + Depth(PatternEnd(n)) <= Depth(n)
  {
    if n.Branch? {
      if Unknown(n.zero) && !Unknown(n.one) { PatternFacts(n.one); }
      else if Unknown(n.one) && !Unknown(n.zero) { PatternFacts(n.zero); }
    }
  }

  lemma {:induction false} PatternLookup(n: Node, address: seq<bool>)
    requires Emittable(n) && Depth(n) <= |address|
    ensures |Pattern(n)| + Depth(PatternEnd(n)) <= |address|
    ensures Lookup(n, address) ==
            if Pattern(n) <= address then Lookup(PatternEnd(n), address[|Pattern(n)|..]) else 0
  {
    PatternFacts(n);
    if n.Branch? && Pattern(n) != [] {
      var child := if Unknown(n.zero) then n.one else n.zero;
      PatternLookup(child, address[1..]);
      assert Pattern(n)[1..] == Pattern(child);
      assert Pattern(n) <= address <==> Pattern(n)[0] == address[0] && Pattern(child) <= address[1..] by {
        if Pattern(n)[0] == address[0] && Pattern(child) <= address[1..] {
          assert address == [address[0]] + address[1..];
        }
      }
      assert address[1..][|Pattern(child)|..] == address[|Pattern(n)|..];
    } else {
      assert address[0..] == address;
    }
  }

  /** The code of a subtree. */
  function Emit(n: Node): (code: seq<bool>)
    requires Emittable(n)
    ensures |code| >= 17
    decreases n, 1
  {
    PatternFacts(n);
    MatchesCode(Pattern(n)) + EmitEnd(PatternEnd(n), n)
  }

  function EmitEnd(end: Node, ghost within: Node): (code: seq<bool>)
    requires Emittable(end) && (end == within || end < within)
    requires end.Branch? ==> Emittable(end.zero) && Emittable(end.one)
    ensures |code| >= 17
    decreases within, 0
  {
    match end
    case Leaf(asn) => ReturnCode(asn)
    case Branch(zero, one) => JumpCode(|Emit(zero)|) + Emit(zero) + Emit(one)
  }

  /** Every branch's left code is short enough for its jump operand. */
  predicate JumpsFit(n: Node)
    requires Emittable(n)
    decreases n, 1
  {
    PatternFacts(n);
    EndJumpsFit(PatternEnd(n), n)
  }

  predicate EndJumpsFit(end: Node, ghost within: Node)
    requires Emittable(end) && (end == within || end < within)
    requires end.Branch? ==> Emittable(end.zero) && Emittable(end.one)
    decreases within, 0
  {
    end.Branch? ==> |Emit(end.zero)| <= MAX_JUMP && JumpsFit(end.zero) && JumpsFit(end.one)
  }

  /** Code no longer than the largest jump has only jumps that fit. */
  lemma {:induction false} ShortCodeFits(n: Node)
    requires Emittable(n) && |Emit(n)| <= MAX_JUMP
    ensures JumpsFit(n)
    decreases n
  {
    hide Pattern, PatternEnd, MatchesCode, JumpCode, ReturnCode;
    PatternFacts(n);
    var end := PatternEnd(n);
    if end.Branch? {
      assert |EmitEnd(end, n)| >= |Emit(end.zero)| + |Emit(end.one)|;
      ShortCodeFits(end.zero);
      ShortCodeFits(end.one);
    }
  }

  // ----- Running emitted code -----

  lemma RunMatch(p: Program, pos: nat, chunk: seq<bool>, address: seq<bool>, default: nat)
    requires 1 <= |chunk| <= 8 && At(p, pos, MatchCode(chunk)) && |chunk| <= |address|
    ensures Run(p, pos, address, default) ==
            if chunk <= address
            then Run(p, pos + |MatchCode(chunk)|, address[|chunk|..], default)
            else Diverged(default)
  {
    FetchMatch(p, pos, chunk);
    MatchOperandExact(chunk);
    hide Fetch, MatchCode, MatchOperand, LowBits, MatchLen, At;
    assert chunk <= address <==> address[..|chunk|] == chunk;
  }

  lemma {:induction false} RunMatches(p: Program, pos: nat, pattern: seq<bool>, address: seq<bool>, default: nat)
    requires At(p, pos, MatchesCode(pattern)) && |pattern| <= |address|
    ensures Run(p, pos, address, default) ==
            if pattern <= address
            then Run(p, pos + |MatchesCode(pattern)|, address[|pattern|..], default)
            else Diverged(default)
    decreases |pattern|
  {
    hide MatchCode, At, Run;
    if pattern == [] {
      assert address[0..] == address;
    } else if |pattern| <= 8 {
      RunMatch(p, pos, pattern, address, default);
    } else {
      var chunk, rest := pattern[..8], pattern[8..];
      AtParts(p, pos, MatchCode(chunk), MatchesCode(rest));
      RunMatch(p, pos, chunk, address, default);
      RunMatches(p, pos + |MatchCode(chunk)|, rest, address[8..], default);
      assert pattern <= address <==> chunk <= address && rest <= address[8..];
      assert address[8..][|rest|..] == address[|pattern|..];
    }
  }

  /** What the emitted code of a subtree answers for `asn`. */
  function Encoded(asn: nat, default: nat): Outcome {
    if asn == 0 then Diverged(default) else Returned(1 + Wrapped(asn - 1, Sizes(0)))
  }

  lemma JumpExact(p: Program, pos: nat, offset: nat)
    requires 17 <= offset <= MAX_JUMP && At(p, pos, JumpCode(offset))
    ensures pos < |p| && Fetch(p, pos) == Some(Instruction(Jump(offset), pos + |JumpCode(offset)|))
  {
    hide Fetch, Wrapped;
    OperandExact(1, offset - 17);
    FetchEmitted(p, pos, 1, offset - 17);
  }

  lemma BranchParts(p: Program, pos: nat, end: Node, within: Node)
    requires end.Branch? && Emittable(end) && Emittable(end.zero) && Emittable(end.one)
    requires end == within || end < within
    requires At(p, pos, EmitEnd(end, within)) && |Emit(end.zero)| <= MAX_JUMP
    ensures var zero, one := Emit(end.zero), Emit(end.one);
            var jump := JumpCode(|zero|);
            && |EmitEnd(end, within)| == |jump| + |zero| + |one|
            && pos < |p| && Fetch(p, pos) == Some(Instruction(Jump(|zero|), pos + |jump|))
            && At(p, pos + |jump|, zero) && At(p, pos + |jump| + |zero|, one)
  {
    hide Fetch, JumpCode, Emit, At, Emittable;
    var zero, one := Emit(end.zero), Emit(end.one);
    var jump := JumpCode(|zero|);
    assert EmitEnd(end, within) == (jump + zero) + one;
    AtParts(p, pos, jump + zero, one);
    AtParts(p, pos, jump, zero);
    JumpExact(p, pos, |zero|);
  }

  lemma RunReturn(p: Program, pos: nat, asn: nat, address: seq<bool>, default: nat)
    requires asn >= 1 && At(p, pos, ReturnCode(asn))
    ensures Run(p, pos, address, default) == Encoded(asn, default)
  {
    hide Fetch, Wrapped;
    FetchEmitted(p, pos, 0, asn - 1);
  }

  lemma RunJump(p: Program, pos: nat, offset: nat, next: nat, address: seq<bool>, default: nat)
    requires pos < |p| && Fetch(p, pos) == Some(Instruction(Jump(offset), next))
    requires address != [] && next + offset < |p|
    ensures Run(p, pos, address, default) ==
            Run(p, if address[0] then next + offset else next, address[1..], default)
  {
    hide Fetch;
  }

  /** Running the code of a subtree looks the address up in it. */
  lemma {:induction false} RunEmitted(p: Program, pos: nat, n: Node, address: seq<bool>, default: nat)
    requires Emittable(n) && At(p, pos, Emit(n)) && Depth(n) <= |address| && JumpsFit(n)
    ensures Run(p, pos, address, default) == Encoded(Lookup(n, address), default)
    decreases n, 1
  {
    hide Run, Wrapped, Pattern, PatternEnd, Emittable, Depth, Lookup, MatchesCode, EmitEnd, At;
    PatternFacts(n);
    PatternLookup(n, address);
    var pattern, end := Pattern(n), PatternEnd(n);
    AtParts(p, pos, MatchesCode(pattern), EmitEnd(end, n));
    RunMatches(p, pos, pattern, address, default);
    if pattern <= address {
      RunEmittedEnd(p, pos + |MatchesCode(pattern)|, end, n, address[|pattern|..], default);
    }
  }

  lemma {:induction false} RunEmittedEnd(p: Program, pos: nat, end: Node, within: Node, address: seq<bool>,
                                         default: nat)
    requires Emittable(end) && (end == within || end < within)
    requires end.Branch? ==> Emittable(end.zero) && Emittable(end.one)
    requires At(p, pos, EmitEnd(end, within)) && Depth(end) <= |address| && EndJumpsFit(end, within)
    ensures Run(p, pos, address, default) == Encoded(Lookup(end, address), default)
    decreases within, 0
  {
    hide Run, Encoded, Emit, ReturnCode, JumpCode, Fetch, At;
    match end {
      case Leaf(asn) =>
        RunReturn(p, pos, asn, address, default);
      case Branch(zero, one) =>
        BranchParts(p, pos, end, within);
        var offset := |Emit(zero)|;
        var next := pos + |JumpCode(offset)|;
        AtInside(p, next + offset, Emit(one));
        RunJump(p, pos, offset, next, address, default);
        if address[0] {
          RunEmitted(p, next + offset, one, address[1..], default);
        } else {
          RunEmitted(p, next, zero, address[1..], default);
        }
    }
  }

  // ----- Validating emitted code -----

  /** The validator's answer once the RETURN ending at `pos` has been read. */
  predicate Resume(p: Program, pos: nat, jumps: seq<Pending>, incomplete: bool)
    requires pos <= |p|
  {
    match AfterReturn(p, pos, jumps, incomplete)
    case Accept => true
    case Reject => false
    case Continue(next) => Check(p, next)
  }

  /** The validator is inside the innermost pending jump range, which extends past `end`. */
  predicate Inside(c: Checker, end: nat) {
    c.jumps != [] ==> end <= Last(c.jumps).target
  }

  lemma CheckContinue(p: Program, c: Checker, d: Checker)
    requires CheckStep(p, c) == Continue(d)
    ensures Check(p, c) == Check(p, d)
  {
    hide CheckStep;
  }

  lemma CheckMatch(p: Program, c: Checker, chunk: seq<bool>) returns (d: Checker)
    requires 1 <= |chunk| <= 8 && At(p, c.pos, MatchCode(chunk)) && |chunk| <= c.bits
    requires Inside(c, c.pos + |MatchCode(chunk)|)
    requires c.previous == AfterJump || (c.previous == AfterMatch && !c.incomplete)
    ensures d == Checker(c.pos + |MatchCode(chunk)|, c.bits - |chunk|, c.jumps, AfterMatch, |chunk| < 8)
    ensures Check(p, c) == Check(p, d)
  {
    d := Checker(c.pos + |MatchCode(chunk)|, c.bits - |chunk|, c.jumps, AfterMatch, |chunk| < 8);
    FetchMatch(p, c.pos, chunk);
    MatchOperandExact(chunk);
    assert CheckStep(p, c) == Continue(d) by { hide Fetch, MatchCode, MatchOperand, LowBits, MatchLen, At; }
    CheckContinue(p, c, d);
  }

  lemma {:induction false} CheckMatches(p: Program, c: Checker, pattern: seq<bool>) returns (d: Checker)
    requires At(p, c.pos, MatchesCode(pattern)) && |pattern| <= c.bits
    requires Inside(c, c.pos + |MatchesCode(pattern)|)
    requires c.previous == AfterJump || (c.previous == AfterMatch && !c.incomplete)
    ensures Check(p, c) == Check(p, d)
    ensures d.pos == c.pos + |MatchesCode(pattern)| && d.bits == c.bits - |pattern| && d.jumps == c.jumps
    ensures d.previous != AfterDefault
    decreases |pattern|
  {
    hide MatchCode, At, Check;
    if pattern == [] {
      d := c;
    } else if |pattern| <= 8 {
      d := CheckMatch(p, c, pattern);
    } else {
      AtParts(p, c.pos, MatchCode(pattern[..8]), MatchesCode(pattern[8..]));
      d := CheckMatch(p, c, pattern[..8]);
      d := CheckMatches(p, d, pattern[8..]);
    }
  }

  lemma CheckDecides(p: Program, d: Checker)
    ensures Check(p, d) == match CheckStep(p, d)
                           case Accept => true
                           case Reject => false
                           case Continue(next) => Check(p, next)
  {
    hide CheckStep;
  }

  lemma CheckReturn(p: Program, d: Checker, asn: nat)
    requires asn >= 1 && At(p, d.pos, ReturnCode(asn)) && d.previous != AfterDefault
    requires Inside(d, d.pos + |ReturnCode(asn)|)
    ensures Check(p, d) == Resume(p, d.pos + |ReturnCode(asn)|, d.jumps, d.incomplete)
  {
    FetchEmitted(p, d.pos, 0, asn - 1);
    hide Fetch, Wrapped, Check, ReturnCode, CleanPadding;
    assert CheckStep(p, d) == AfterReturn(p, d.pos + |ReturnCode(asn)|, d.jumps, d.incomplete);
    CheckDecides(p, d);
  }

  lemma CheckJump(p: Program, d: Checker, offset: nat, next: nat)
    requires d.pos < |p| && Fetch(p, d.pos) == Some(Instruction(Jump(offset), next))
    requires d.bits > 0 && d.pos < next + offset <= |p|
    requires d.jumps != [] ==> next + offset < Last(d.jumps).target
    ensures Check(p, d) == Check(p, Checker(next, d.bits - 1, d.jumps + [Pending(next + offset, d.bits - 1)],
                                            AfterJump, d.incomplete))
  {
    var e := Checker(next, d.bits - 1, d.jumps + [Pending(next + offset, d.bits - 1)], AfterJump, d.incomplete);
    assert CheckStep(p, d) == Continue(e) by { hide Fetch, Check; }
    CheckContinue(p, d, e);
  }

  lemma ResumeBranch(p: Program, pos: nat, jumps: seq<Pending>, bits: nat, incomplete: bool)
    requires pos <= |p|
    ensures Resume(p, pos, jumps + [Pending(pos, bits)], incomplete) ==
            Check(p, Checker(pos, bits, jumps, AfterJump, incomplete))
  {
    hide Check;
    assert (jumps + [Pending(pos, bits)])[..|jumps|] == jumps;
  }

  /** The validator walks the code of a subtree to its last RETURN. */
  lemma {:induction false} CheckEmitted(p: Program, c: Checker, n: Node) returns (incomplete: bool)
    requires Emittable(n) && At(p, c.pos, Emit(n)) && Depth(n) <= c.bits && JumpsFit(n)
    requires c.previous == AfterJump
    requires c.jumps != [] ==> Last(c.jumps).target == c.pos + |Emit(n)|
    ensures Check(p, c) == Resume(p, c.pos + |Emit(n)|, c.jumps, incomplete)
    decreases n, 1
  {
    hide Fetch, At, Emittable, Pattern, PatternEnd, MatchesCode, EmitEnd, Check, Resume, Depth;
    PatternFacts(n);
    var pattern, end := Pattern(n), PatternEnd(n);
    AtParts(p, c.pos, MatchesCode(pattern), EmitEnd(end, n));
    var d := CheckMatches(p, c, pattern);
    incomplete := CheckEmittedEnd(p, d, end, n);
  }

  lemma {:induction false} CheckEmittedEnd(p: Program, d: Checker, end: Node, within: Node) returns (incomplete: bool)
    requires Emittable(end) && (end == within || end < within)
    requires end.Branch? ==> Emittable(end.zero) && Emittable(end.one)
    requires At(p, d.pos, EmitEnd(end, within)) && Depth(end) <= d.bits && EndJumpsFit(end, within)
    requires d.previous != AfterDefault
    requires d.jumps != [] ==> Last(d.jumps).target == d.pos + |EmitEnd(end, within)|
    ensures Check(p, d) == Resume(p, d.pos + |EmitEnd(end, within)|, d.jumps, incomplete)
    decreases within, 0
  {
    hide Fetch, At, Emit, ReturnCode, JumpCode, Check, Resume;
    match end {
      case Leaf(asn) =>
        AtInside(p, d.pos, ReturnCode(asn));
        CheckReturn(p, d, asn);
        incomplete := d.incomplete;
      case Branch(zero, one) =>
        BranchParts(p, d.pos, end, within);
        var offset := |Emit(zero)|;
        var next := d.pos + |JumpCode(offset)|;
        AtInside(p, next, Emit(zero));
        CheckJump(p, d, offset, next);
        var left := Checker(next, d.bits - 1, d.jumps + [Pending(next + offset, d.bits - 1)], AfterJump, d.incomplete);
        var inLeft := CheckEmitted(p, left, zero);
        ResumeBranch(p, next + offset, d.jumps, d.bits - 1, inLeft);
        incomplete := CheckEmitted(p, Checker(next + offset, d.bits - 1, d.jumps, AfterJump, inLeft), one);
    }
  }
}
