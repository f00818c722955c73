/**
 Loading, looking up and encoding asmap files: the reader and the loops of the
 interpreter, the validator and the table encoder, and the main results about
 them.
 */
module Asmap {
  import opened Basics
  import opened Words
  import opened AsmapCode
  import opened AsmapCheck
  import opened AsmapTrie
  import opened AsmapEmit

  const MAX_ASMAP_BYTES: nat := 16 * 1024 * 1024

  /** A cursor over the bits of a loaded map. */
  class BitReader {
    const data: seq<Byte>
    var position: nat

    constructor (data: seq<Byte>)
      ensures this.data == data && position == 0
    {
      this.data := data;
      position := 0;
    }

    function Remaining(): nat
      reads this
    {
      if position >= 8 * |data| then 0 else 8 * |data| - position
    }

    method Read() returns (bit: Option<bool>)
      modifies this
      ensures old(position) >= 8 * |data| ==> bit == None && position == old(position)
      ensures old(position) < 8 * |data| ==>
                bit == Some(BitsOf(data)[old(position)]) && position == old(position) + 1
    {
      if position >= 8 * |data| { return None; }
      bit := Some(TestBit(data[position / 8], position % 8));
      position := position + 1;
    }

    /** Walks the ladder; `INVALID` when the field straddles the end of the data. */
    method DecodeBits(minval: nat, sizes: seq<nat>) returns (value: nat)
      requires position <= 8 * |data|
      modifies this
      ensures position <= 8 * |data|
      ensures match DecodeField(BitsOf(data), old(position), minval, sizes)
              case None => value == INVALID
              case Some(f) => value == f.value && position == f.next
    {
      ghost var p := BitsOf(data);
      value := minval;
      for index := 0 to |sizes|
        invariant position <= |p|
        invariant DecodeField(p, old(position), minval, sizes) == DecodeField(p, position, value, sizes[index..])
      {
        hide TestBit, BitsOf;
        var rest := sizes[index..];
        assert rest[0] == sizes[index] && rest[1..] == sizes[index + 1..];
        var selector := false;
        if index + 1 != |sizes| {
          var bit := Read();
          if bit.None? { return INVALID; }
          selector := bit.value;
        }
        if selector {
          value := value + Pow2(sizes[index]);
        } else {
          value := DecodeLiteral(value, sizes[index]);
          return;
        }
      }
      return INVALID;
    }

    method DecodeLiteral(base: nat, size: nat) returns (value: nat)
      requires position <= 8 * |data|
      modifies this
      ensures position <= 8 * |data|
      ensures match LiteralField(BitsOf(data), old(position), base, size)
              case None => value == INVALID
              case Some(f) => value == f.value && position == f.next
    {
      ghost var p, start := BitsOf(data), position;
      value := base;
      for offset := 0 to size
        invariant position == start + offset
        invariant position <= |p|
        invariant start + size <= |p| ==>
                    value + Literal(p[position..start + size]) == base + Literal(p[start..start + size])
      {
        hide TestBit, BitsOf;
        ghost var here := position;
        var bit := Read();
        if bit.None? { return INVALID; }
        assert start + size <= |p| ==> p[here..start + size][1..] == p[position..start + size];
        if bit.value { value := value + Pow2(size - 1 - offset); }
      }
    }
  }

  lemma {:induction false} LowBitsAt(value: nat, size: nat, k: nat)
    requires k < size
    ensures LowBits(value, size)[k] == TestBit(value, size - 1 - k)
  {
    if k > 0 { LowBitsAt(value, size - 1, k - 1); }
  }

  /** Looks an address up: the ASN of the lookup's outcome, and 0 for malformed data. */
  method Interpret(data: seq<Byte>, ip: seq<bool>) returns (asn: nat)
    requires |ip| == ADDRESS_BITS
    ensures asn == Run(BitsOf(data), 0, ip, 0).Asn()
  {
    hide Run, Fetch, BitsOf, Execute;
    ghost var p := BitsOf(data);
    var reader := new BitReader(data);
    var bits: nat := ADDRESS_BITS;
    var default: nat := 0;
    assert ip[0..] == ip;
    while reader.Remaining() > 0
      invariant bits <= ADDRESS_BITS && fresh(reader) && reader.data == data && reader.position <= |p|
      invariant Run(p, 0, ip, 0) == Run(p, reader.position, ip[ADDRESS_BITS - bits..], default)
      decreases 8 * |data| - reader.position
    {
      RunOnce(p, reader.position, ip[ADDRESS_BITS - bits..], default);
      var opcode, operand := DecodeInstruction(reader);
      if opcode == INVALID || operand == INVALID { return 0; }
      var stopped;
      stopped, bits, default := ExecuteNext(reader, ip, bits, default, opcode, operand);
      if stopped.Some? { return stopped.value; }
    }
    RunPastEnd(p, reader.position, ip[ADDRESS_BITS - bits..], default);
    return 0;
  }

  /** Executes a decoded instruction: an answer, or the bits and default to continue with. */
  method ExecuteNext(reader: BitReader, ip: seq<bool>, bits: nat, default: nat, opcode: nat, operand: nat)
    returns (stopped: Option<nat>, left: nat, fallback: nat)
    requires |ip| == ADDRESS_BITS && bits <= ADDRESS_BITS && opcode < 4
    requires reader.position <= 8 * |reader.data|
    modifies reader
    ensures left <= ADDRESS_BITS && old(reader.position) <= reader.position <= 8 * |reader.data|
    ensures match Execute(MakeOp(opcode, operand), old(reader.position), 8 * |reader.data|,
                          ip[ADDRESS_BITS - bits..], default)
            case Stop(outcome) => stopped == Some(outcome.Asn())
            case Goto(pos, address, after) =>
              stopped == None && pos == reader.position && address == ip[ADDRESS_BITS - left..] && after == fallback
  {
    hide MatchLen, LowBits;
    ghost var address := ip[ADDRESS_BITS - bits..];
    stopped, left, fallback := None, bits, default;
    if opcode == 0 {
      stopped := Some(operand);
    } else if opcode == 1 {
      if bits == 0 || operand >= reader.Remaining() { return Some(0), left, fallback; }
      if ip[ADDRESS_BITS - bits] { reader.position := reader.position + operand; }
      left := bits - 1;
      assert ip[ADDRESS_BITS - left..] == address[1..];
    } else if opcode == 2 {
      var n := MatchLen(operand);
      if bits < n { return Some(0), left, fallback; }
      var diverged := Diverges(ip, ADDRESS_BITS - bits, operand, n);
      if diverged { return Some(default), left, fallback; }
      left := bits - n;
      assert ip[ADDRESS_BITS - left..] == address[n..];
    } else {
      fallback := operand;
    }
  }

  lemma RunPastEnd(p: Program, pos: nat, address: seq<bool>, default: nat)
    requires pos >= |p|
    ensures Run(p, pos, address, default) == Malformed
  {
  }

  lemma RunOnce(p: Program, pos: nat, address: seq<bool>, default: nat)
    requires pos < |p|
    ensures Run(p, pos, address, default) ==
            match Fetch(p, pos)
            case None => Malformed
            case Some(i) =>
              match Execute(i.op, i.next, |p|, address, default)
              case Stop(outcome) => outcome
              case Goto(target, rest, fallback) => Run(p, target, rest, fallback)
  {
    hide Fetch, Execute;
  }

  /** Compares the next `n` address bits with the operand's low bits, stopping at a difference. */
  method Diverges(ip: seq<bool>, from: nat, operand: nat, n: nat) returns (diverged: bool)
    requires from + n <= |ip|
    ensures diverged <==> ip[from..][..n] != LowBits(operand, n)
  {
    for offset := 0 to n
      invariant forall j | 0 <= j < offset :: ip[from + j] == LowBits(operand, n)[j]
    {
      hide LowBits, TestBit;
      LowBitsAt(operand, n, offset);
      if ip[from + offset] != TestBit(operand, n - 1 - offset) {
        assert ip[from..][..n][offset] != LowBits(operand, n)[offset];
        return true;
      }
    }
    hide LowBits;
    assert ip[from..][..n] == LowBits(operand, n);
    return false;
  }

  /** Decodes an opcode and its operand; either may be `INVALID`. */
  method DecodeInstruction(reader: BitReader) returns (opcode: nat, operand: nat)
    requires reader.position <= 8 * |reader.data|
    modifies reader
    ensures reader.position <= 8 * |reader.data|
    ensures match Fetch(BitsOf(reader.data), old(reader.position))
            case None => opcode == INVALID || operand == INVALID
            case Some(i) => opcode < 4 && operand < INVALID && reader.position == i.next
                            && i.op == MakeOp(opcode, operand)
  {
    ghost var p, start := BitsOf(reader.data), reader.position;
    hide BitsOf, DecodeField;
    opcode := reader.DecodeBits(0, TYPE_BIT_SIZES);
    assert Opcode(p, start) == DecodeField(p, start, 0, TYPE_BIT_SIZES);
    operand := INVALID;
    if opcode == INVALID { return; }
    OperandRange(p, reader.position, opcode);
    if opcode == 0 || opcode == 3 {
      operand := reader.DecodeBits(1, ASN_BIT_SIZES);
    } else if opcode == 1 {
      operand := reader.DecodeBits(17, JUMP_BIT_SIZES);
    } else {
      operand := reader.DecodeBits(2, MATCH_BIT_SIZES);
    }
  }

  /** Validates a program; the pending-jump stack stays within one entry per address bit. */
  method SanityCheck(data: seq<Byte>) returns (ok: bool)
    ensures ok <==> Check(BitsOf(data), START)
  {
    assert Nested(START);
    hide Check, CheckStep, Fetch, BitsOf, Nested;
    ghost var p := BitsOf(data);
    var reader := new BitReader(data);
    var bits: nat := ADDRESS_BITS;
    var jumps: seq<Pending> := [];
    var previous := AfterJump;
    var incomplete := false;
    while reader.Remaining() > 0
      invariant fresh(reader) && reader.data == data && reader.position <= |p|
      invariant Nested(Checker(reader.position, bits, jumps, previous, incomplete))
      invariant |jumps| + bits <= ADDRESS_BITS
      invariant Check(p, START) == Check(p, Checker(reader.position, bits, jumps, previous, incomplete))
      decreases 8 * |data| - reader.position
    {
      ghost var c := Checker(reader.position, bits, jumps, previous, incomplete);
      CheckDecides(p, c);
      StepKeepsNesting(p, c);
      var decided;
      decided, bits, jumps, previous, incomplete := CheckNext(reader, bits, jumps, previous, incomplete);
      if decided.Some? { return decided.value; }
      NestedStack(Checker(reader.position, bits, jumps, previous, incomplete));
    }
    CheckPastEnd(p, Checker(reader.position, bits, jumps, previous, incomplete));
    return false;
  }

  lemma CheckPastEnd(p: Program, c: Checker)
    requires c.pos >= |p|
    ensures !Check(p, c)
  {
  }

  /** One iteration of the validator: a decision, or the state to continue with. */
  method CheckNext(reader: BitReader, bits: nat, jumps: seq<Pending>, previous: Kind, incomplete: bool)
    returns (decided: Option<bool>, bits': nat, jumps': seq<Pending>, previous': Kind, incomplete': bool)
    requires reader.position <= 8 * |reader.data|
    modifies reader
    ensures reader.position <= 8 * |reader.data|
    ensures match CheckStep(BitsOf(reader.data), Checker(old(reader.position), bits, jumps, previous, incomplete))
            case Accept => decided == Some(true)
            case Reject => decided == Some(false)
            case Continue(next) =>
              decided == None && next == Checker(reader.position, bits', jumps', previous', incomplete')
  {
    hide Fetch, BitsOf, MatchLen;
    ghost var p := BitsOf(reader.data);
    decided, bits', jumps', previous', incomplete' := Some(false), bits, jumps, previous, incomplete;
    if reader.Remaining() == 0 || (jumps != [] && reader.position >= Last(jumps).target) { return; }
    var opcode, operand := DecodeInstruction(reader);
    if opcode == INVALID || operand == INVALID { return; }
    if opcode == 0 {
      if previous == AfterDefault { return; }
      if jumps == [] {
        var clean := PaddingIsClean(reader);
        decided := Some(clean);
      } else if reader.position == Last(jumps).target {
        decided, bits', jumps', previous' := None, Last(jumps).bits, jumps[..|jumps| - 1], AfterJump;
      }
    } else if opcode == 1 {
      if operand > reader.Remaining() || bits == 0 { return; }
      var target := reader.position + operand;
      if jumps != [] && target >= Last(jumps).target { return; }
      decided, bits', jumps', previous' := None, bits - 1, jumps + [Pending(target, bits - 1)], AfterJump;
    } else if opcode == 2 {
      var n := MatchLen(operand);
      var chained := previous == AfterMatch && incomplete;
      if n < 8 && chained { return; }
      if bits < n { return; }
      decided, bits', previous', incomplete' := None, bits - n, AfterMatch, n < 8;
    } else {
      if previous == AfterDefault { return; }
      decided, previous' := None, AfterDefault;
    }
  }

  method PaddingIsClean(reader: BitReader) returns (clean: bool)
    requires reader.position <= 8 * |reader.data|
    modifies reader
    ensures reader.position <= 8 * |reader.data|
    ensures clean <==> CleanPadding(BitsOf(reader.data), old(reader.position))
  {
    ghost var p := BitsOf(reader.data);
    hide BitsOf;
    if reader.Remaining() > 7 { return false; }
    while reader.Remaining() > 0
      invariant old(reader.position) <= reader.position <= |p|
      invariant forall i | old(reader.position) <= i < reader.position :: !p[i]
      decreases |p| - reader.position
    {
      var bit := reader.Read();
      if bit == Some(true) { return false; }
    }
    return true;
  }

  datatype AsmapError = Empty | TooLarge | Invalid

  /** Accepts exactly the non-empty, bounded, structurally valid files. */
  method FromBytes(data: seq<Byte>) returns (r: Result<seq<Byte>, AsmapError>)
    ensures r == if data == [] then Err(Empty)
                 else if |data| > MAX_ASMAP_BYTES then Err(TooLarge)
                 else if Check(BitsOf(data), START) then Ok(data) else Err(Invalid)
  {
    if data == [] { return Err(Empty); }
    if |data| > MAX_ASMAP_BYTES { return Err(TooLarge); }
    var sane := SanityCheck(data);
    return if sane then Ok(data) else Err(Invalid);
  }

  // ----- The table encoder -----

  /** Pushes one ladder field. */
  method EncodeBits(out: seq<bool>, value: nat, minval: nat, sizes: seq<nat>) returns (r: seq<bool>)
    requires value >= minval && sizes != []
    ensures r == out + EncodeField(value - minval, sizes)
  {
    r := out;
    var remaining: nat := value - minval;
    for index := 0 to |sizes|
      invariant index < |sizes|
                && r + EncodeField(remaining, sizes[index..]) == out + EncodeField(value - minval, sizes)
    {
      hide LowBits;
      var last := index + 1 == |sizes|;
      ghost var rest := sizes[index..];
      assert rest[0] == sizes[index] && rest[1..] == sizes[index + 1..];
      if last || remaining < Pow2(sizes[index]) {
        if !last { r := r + [false]; }
        r := PushLowBits(r, remaining, sizes[index]);
        return;
      }
      r := r + [true];
      remaining := remaining - Pow2(sizes[index]);
    }
  }

  method PushLowBits(out: seq<bool>, value: nat, size: nat) returns (r: seq<bool>)
    ensures r == out + LowBits(value, size)
  {
    r := out;
    for offset := size downto 0
      invariant r + LowBits(value, offset) == out + LowBits(value, size)
    {
      r := r + [TestBit(value, offset)];
    }
  }

  /** Pushes an opcode and its operand. */
  method EmitInstruction(out: seq<bool>, opcode: nat, operand: nat) returns (r: seq<bool>)
    requires opcode < 4 && operand >= Base(opcode)
    ensures r == out + Instr(opcode, operand - Base(opcode))
  {
    hide EncodeField;
    r := EncodeBits(out, opcode, 0, TYPE_BIT_SIZES);
    r := EncodeBits(r, operand, Base(opcode), Sizes(opcode));
  }

  /** Follows single known children from a node. */
  method FollowPattern(node: Node) returns (pattern: seq<bool>, current: Node)
    ensures pattern == Pattern(node) && current == PatternEnd(node)
  {
    pattern, current := [], node;
    while current.Branch?
      invariant pattern + Pattern(current) == Pattern(node) && PatternEnd(current) == PatternEnd(node)
      decreases current
    {
      if Unknown(current.zero) && !Unknown(current.one) {
        pattern, current := pattern + [true], current.one;
      } else if Unknown(current.one) && !Unknown(current.zero) {
        pattern, current := pattern + [false], current.zero;
      } else {
        break;
      }
    }
  }

  /** Emits a subtree; the caller guarantees there is no all-unknown subtree to emit. */
  method EmitNode(node: Node, out: seq<bool>) returns (r: seq<bool>)
    requires Emittable(node)
    ensures r == out + Emit(node)
    decreases node
  {
    hide MatchesCode, Pattern, PatternEnd, Instr, Emit, EmitEnd;
    PatternFacts(node);
    EmitParts(node);
    var pattern, current := FollowPattern(node);
    r := EmitMatches(out, pattern);
    match current {
      case Leaf(asn) =>
        r := EmitInstruction(r, 0, asn);
      case Branch(zero, one) =>
        var left := EmitNode(zero, []);
        assert left == Emit(zero);
        r := EmitInstruction(r, 1, |left|);
        r := EmitNode(one, r + left);
    }
  }

  lemma EmitParts(node: Node)
    requires Emittable(node) && Emittable(PatternEnd(node))
    requires PatternEnd(node).Branch? ==> Emittable(PatternEnd(node).zero) && Emittable(PatternEnd(node).one)
    ensures Emit(node) == MatchesCode(Pattern(node)) +
                          match PatternEnd(node)
                          case Leaf(asn) => Instr(0, asn - 1)
                          case Branch(zero, one) => Instr(1, |Emit(zero)| - 17) + Emit(zero) + Emit(one)
  {
    hide Pattern, PatternEnd, MatchesCode, Instr;
  }

  /** `1` followed by the chunk's bits, built bit by bit. */
  method MatchValue(chunk: seq<bool>) returns (matched: nat)
    ensures matched == MatchOperand(chunk)
  {
    matched := 1;
    for i := 0 to |chunk|
      invariant matched == MatchOperand(chunk[..i])
    {
      LiteralAppend(chunk[..i], chunk[i]);
      assert chunk[..i + 1] == chunk[..i] + [chunk[i]];
      matched := 2 * matched + if chunk[i] then 1 else 0;
    }
    assert chunk[..|chunk|] == chunk;
  }

  /** One MATCH per eight pattern bits. */
  method EmitMatches(out: seq<bool>, pattern: seq<bool>) returns (r: seq<bool>)
    ensures r == out + MatchesCode(pattern)
  {
    hide Instr, MatchOperand;
    r := out;
    var rest := pattern;
    while rest != []
      invariant r + MatchesCode(rest) == out + MatchesCode(pattern)
      decreases |rest|
    {
      var chunk := if |rest| <= 8 then rest else rest[..8];
      MatchOperandRange(chunk);
      var matched := MatchValue(chunk);
      ghost var before := r;
      r := EmitInstruction(r, 2, matched);
      assert r == before + MatchCode(chunk);
      assert MatchesCode(rest) == MatchCode(chunk) + MatchesCode(rest[|chunk|..]);
      rest := rest[|chunk|..];
    }
  }

  /** The bytes hold exactly this code, followed by clear padding. */
  predicate Packs(data: seq<Byte>, code: seq<bool>) {
    && 8 * |data| < |code| + 8
    && |code| <= 8 * |data|
    && BitsOf(data)[..|code|] == code
    && forall i | |code| <= i < 8 * |data| :: !BitsOf(data)[i]
  }

  /** Packs bits into bytes, least significant bit first. */
  method PackBits(code: seq<bool>) returns (data: seq<Byte>)
    ensures Packs(data, code)
  {
    var bytes := new Byte[(|code| + 7) / 8](_ => 0);
    forall j | 0 <= j < 8 * bytes.Length ensures !TestBit(bytes[j / 8], j % 8) { TestZero(j % 8); }
    for index := 0 to |code|
      invariant forall j | 0 <= j < 8 * bytes.Length ::
                  TestBit(bytes[j / 8], j % 8) == (j < index && code[j])
    {
      hide TestBit, SetBit;
      if code[index] {
        SetByteBit(bytes[index / 8], index % 8);
        ghost var before := bytes[..];
        bytes[index / 8] := SetBit(bytes[index / 8], index % 8);
        forall j | 0 <= j < 8 * bytes.Length
          ensures TestBit(bytes[j / 8], j % 8) == (j < index + 1 && code[j])
        {
          if j / 8 == index / 8 { TestSetBit(before[index / 8], index % 8, j % 8); }
        }
      }
    }
    data := bytes[..];
  }

  lemma SetByteBit(b: Byte, k: nat)
    requires k < 8
    ensures SetBit(b, k) < 256
  {
    assert Pow2(8) == 256;
    SetBitBound(b, k, 8);
  }

  // ----- Main results -----

  /** Some address has a known ASN. */
  ghost predicate Known(entries: seq<Entry>)
    requires ValidTable(entries)
  {
    exists address: seq<bool> :: |address| == ADDRESS_BITS && TableAsn(entries, address) != 0
  }

  function TableTrie(entries: seq<Entry>): (n: Node)
    requires ValidTable(entries)
    ensures Depth(n) <= ADDRESS_BITS
  {
    Simplify(Build(entries))
  }

  lemma TableTrieAnswers(entries: seq<Entry>, address: seq<bool>)
    requires ValidTable(entries) && |address| == ADDRESS_BITS
    ensures Lookup(TableTrie(entries), address) == TableAsn(entries, address)
  {
    BuildAnswersTable(entries, address);
    SimplifyCorrect(Build(entries));
  }

  /** The simplified trie has an encoding exactly when the table knows some address. */
  lemma KnownIsEmittable(entries: seq<Entry>)
    requires ValidTable(entries)
    ensures Known(entries) <==> !Unknown(TableTrie(entries))
    ensures Known(entries) ==> Emittable(TableTrie(entries))
  {
    var trie := TableTrie(entries);
    SimplifyCorrect(Build(entries));
    if Unknown(trie) {
      forall address: seq<bool> | |address| == ADDRESS_BITS ensures TableAsn(entries, address) == 0 {
        TableTrieAnswers(entries, address);
      }
    } else {
      SimplifiedIsEmittable(trie);
      KnownLeafSurvives(trie);
      var asn :| asn != 0 && HasLeaf(trie, asn);
      var address := LeafWitness(trie, asn, ADDRESS_BITS);
      TableTrieAnswers(entries, address);
    }
  }

  /** Encodes a table; a table that knows no address has no encoding. */
  method Encode(entries: seq<Entry>) returns (r: Option<seq<Byte>>)
    requires ValidTable(entries)
    ensures r.Some? <==> Known(entries)
    ensures r.Some? ==> Emittable(TableTrie(entries)) && Packs(r.value, Emit(TableTrie(entries)))
  {
    hide Emit, Packs, Known, Emittable, Simplify, Insert;
    var root := Leaf(0);
    for i := 0 to |entries|
      invariant root == Build(entries[..i])
    {
      assert entries[..i + 1][..i] == entries[..i];
      root := Insert(root, entries[i].prefixBits[..entries[i].prefixLen], entries[i].asn);
    }
    assert entries[..|entries|] == entries;
    root := Simplify(root);
    KnownIsEmittable(entries);
    if Unknown(root) { return None; }
    var bits := EmitNode(root, []);
    assert bits == Emit(root);
    var data := PackBits(bits);
    return Some(data);
  }

  /** A packed program places its code at position 0 and ends in clean padding. */
  lemma PackedProgram(data: seq<Byte>, code: seq<bool>)
    requires Packs(data, code)
    ensures At(BitsOf(data), 0, code) && CleanPadding(BitsOf(data), |code|)
  {
    assert BitsOf(data)[0..0 + |code|] == BitsOf(data)[..|code|];
  }

  /** Every encoding whose jumps fit their operands passes validation. */
  lemma EncodedTableIsSane(entries: seq<Entry>, data: seq<Byte>)
    requires ValidTable(entries) && Known(entries) && Emittable(TableTrie(entries)) && JumpsFit(TableTrie(entries))
    requires Packs(data, Emit(TableTrie(entries)))
    ensures data != [] && Check(BitsOf(data), START)
  {
    hide Emit, Check, BitsOf, CleanPadding, At, JumpsFit;
    var trie := TableTrie(entries);
    PackedProgram(data, Emit(trie));
    var incomplete := CheckEmitted(BitsOf(data), START, trie);
  }

  /** Looking an address up in an encoding gives the encoded form of the table's answer. */
  lemma EncodedTableAnswers(entries: seq<Entry>, data: seq<Byte>, address: seq<bool>)
    requires ValidTable(entries) && Known(entries) && Emittable(TableTrie(entries)) && JumpsFit(TableTrie(entries))
    requires Packs(data, Emit(TableTrie(entries))) && |address| == ADDRESS_BITS
    ensures Run(BitsOf(data), 0, address, 0) == Encoded(TableAsn(entries, address), 0)
  {
    hide Emit, Run, BitsOf, CleanPadding, At, Encoded, JumpsFit;
    var trie := TableTrie(entries);
    PackedProgram(data, Emit(trie));
    TableTrieAnswers(entries, address);
    RunEmitted(BitsOf(data), 0, trie, address, 0);
  }

  /** Every ASN the table answers with can be expressed by an ASN operand. */
  ghost predicate AsnsEncodable(entries: seq<Entry>)
    requires ValidTable(entries)
  {
    forall address: seq<bool> | |address| == ADDRESS_BITS :: TableAsn(entries, address) <= MAX_ASN
  }

  /** The encoding answers as the table does, for every address. */
  ghost predicate AnswersAsTable(entries: seq<Entry>, data: seq<Byte>)
    requires ValidTable(entries)
  {
    forall address: seq<bool> | |address| == ADDRESS_BITS ::
      Run(BitsOf(data), 0, address, 0).Asn() == TableAsn(entries, address)
  }

  lemma EncodedAsn(asn: nat)
    ensures Encoded(asn, 0).Asn() == asn <==> asn <= MAX_ASN
  {
    hide Capacity, Wrapped;
    OperandCapacities();
    if asn > 0 { WrappedExact(asn - 1, Sizes(0)); }
  }

  /**
   The encoder preserves meaning: a table's encoding answers every address as
   the table does, exactly when every ASN the table answers with is encodable.
   */
  lemma EncoderPreservesMeaning(entries: seq<Entry>, data: seq<Byte>)
    requires ValidTable(entries) && Known(entries) && Emittable(TableTrie(entries)) && JumpsFit(TableTrie(entries))
    requires Packs(data, Emit(TableTrie(entries)))
    ensures AnswersAsTable(entries, data) <==> AsnsEncodable(entries)
  {
    hide Emit, Run, BitsOf, Encoded, Packs, Known, Emittable, JumpsFit;
    forall address: seq<bool> | |address| == ADDRESS_BITS
      ensures Run(BitsOf(data), 0, address, 0).Asn() == TableAsn(entries, address) <==>
              TableAsn(entries, address) <= MAX_ASN
    {
      EncodedTableAnswers(entries, data, address);
      EncodedAsn(TableAsn(entries, address));
    }
  }

  /** A file within the ceiling has no jump that does not fit. */
  lemma FileJumpsFit(entries: seq<Entry>, data: seq<Byte>)
    requires ValidTable(entries) && Emittable(TableTrie(entries))
    requires Packs(data, Emit(TableTrie(entries))) && |data| <= MAX_ASMAP_BYTES
    ensures JumpsFit(TableTrie(entries))
  {
    hide Emit, BitsOf, JumpsFit, CleanPadding, At;
    PackedProgram(data, Emit(TableTrie(entries)));
    ShortCodeFits(TableTrie(entries));
  }

  /**
   Every encoded file within the ceiling is accepted, and answers as the table
   exactly when its ASNs are encodable.
   */
  lemma EncodedFileIsFaithful(entries: seq<Entry>, data: seq<Byte>)
    requires ValidTable(entries) && Known(entries) && Emittable(TableTrie(entries))
    requires Packs(data, Emit(TableTrie(entries))) && |data| <= MAX_ASMAP_BYTES
    ensures data != [] && Check(BitsOf(data), START)
    ensures AnswersAsTable(entries, data) <==> AsnsEncodable(entries)
  {
    hide Emit, Check, BitsOf, Packs, Known, Emittable, JumpsFit, AnswersAsTable, AsnsEncodable;
    FileJumpsFit(entries, data);
    EncodedTableIsSane(entries, data);
    EncoderPreservesMeaning(entries, data);
  }
}
