/** Writing and reading sidecar files word by word. */
module SidecarIo {
  import opened Basics
  import opened Bytes
  import opened CoreCodec
  import opened BitRank
  import opened BbHash
  import opened BbHashBuild
  import opened Sidecar
  import opened SidecarFile

  // ----- Writing -----

  method WriteInts(xs: seq<nat>) returns (out: seq<Byte>)
    ensures out == PrintInts(xs)
  {
    out := [];
    for i := 0 to |xs|
      invariant out == PrintInts(xs[..i])
    {
      assert xs[..i + 1][..i] == xs[..i];
      out := out + LeBytes(xs[i], 8);
    }
    assert xs[..|xs|] == xs;
  }

  method WriteLevels(levels: seq<Level>) returns (out: seq<Byte>)
    ensures out == PrintLevels(levels)
  {
    hide PrintInts, LeBytes;
    out := [];
    assert levels[0..] == levels;
    for i := 0 to |levels|
      invariant out + PrintLevels(levels[i..]) == PrintLevels(levels)
    {
      var l := levels[i];
      var words := WriteInts(l.bits);
      var printed := LeBytes(l.seed, 8) + LeBytes(l.bitLen, 8) + words;
      assert levels[i..][1..] == levels[i + 1..];
      assert out + (printed + PrintLevels(levels[i + 1..])) == (out + printed) + PrintLevels(levels[i + 1..]);
      out := out + printed;
    }
  }

  method WriteIndex(f: File) returns (out: seq<Byte>)
    ensures out == PrintFile(f)
  {
    var levels := WriteLevels(f.levels);
    var offsets := WriteInts(f.offsets);
    return PrintHeader(f.header) + levels + offsets;
  }

  // ----- Reading -----

  /** What a read of `consumed` bytes leaves, or nothing. */
  ghost predicate Takes<T>(r: Option<T>, rest: seq<Byte>, before: seq<Byte>, spec: Option<Read<T>>) {
    match spec
    case None => r == None
    case Some(read) => r == Some(read.value) && read.consumed <= |before| && rest == before[read.consumed..]
  }

  /** Words in a row, if there are enough bytes. */
  function TakeInts(bytes: seq<Byte>, n: nat): Option<Read<seq<Word>>> {
    if |bytes| < 8 * n then None else Some(Read(ParseInts(bytes, n), 8 * n))
  }

  method ReadInts(reader: ByteReader, n: nat) returns (r: Option<seq<Word>>)
    requires reader.Valid()
    modifies reader
    ensures reader.Valid() && Takes(r, reader.Rest(), old(reader.Rest()), TakeInts(old(reader.Rest()), n))
  {
    hide LeValue;
    ghost var bytes := reader.Rest();
    var xs: seq<Word> := [];
    Widths();
    for i := 0 to n
      invariant reader.Valid() && 8 * i <= |bytes| && reader.Rest() == bytes[8 * i..]
      invariant |xs| == i && forall j | 0 <= j < i :: xs[j] == LeValue(bytes[8 * j..8 * j + 8])
    {
      var word := reader.ReadExact(8);
      if word.None? { return None; }
      NextWord(bytes, i);
      xs := xs + [LeValue(word.value)];
    }
    assert xs == ParseInts(bytes, n);
    return Some(xs);
  }

  lemma NextWord(bytes: seq<Byte>, i: nat)
    requires 8 * i + 8 <= |bytes|
    ensures bytes[8 * i..][..8] == bytes[8 * i..8 * i + 8] && bytes[8 * i..][8..] == bytes[8 * (i + 1)..]
  {
  }

  method ReadLevel(reader: ByteReader, rank: nat, groups: nat) returns (r: Option<Level>)
    requires reader.Valid()
    modifies reader
    ensures reader.Valid() && Takes(r, reader.Rest(), old(reader.Rest()), ParseLevel(old(reader.Rest()), rank, groups))
  {
    hide LeValue, ParseInts, Ranks, RanksOf;
    ghost var bytes := reader.Rest();
    Widths();
    var seed := reader.ReadExact(8);
    if seed.None? { return None; }
    var length := reader.ReadExact(8);
    if length.None? { return None; }
    assert seed.value == bytes[..8] && length.value == bytes[8..16] && reader.Rest() == bytes[16..];
    var bitLen := LeValue(length.value);
    if bitLen == 0 || bitLen % 64 != 0 || bitLen > MaxBits(groups) { return None; }
    var bits := ReadInts(reader, bitLen / 64);
    if bits.None? { return None; }
    var ranks := BuildWordRanks(bits.value);
    RanksUnique(ranks, Ranks(bits.value), bits.value);
    assert bytes[16..][8 * (bitLen / 64)..] == bytes[16 + bitLen / 64 * 8..];
    return Some(Level(LeValue(seed.value), bitLen, rank, bits.value, ranks));
  }

  /** Parsing continues after some levels already read. */
  ghost predicate LevelsContinue(bytes: seq<Byte>, n: nat, done: seq<Level>, used: nat, rank: nat, groups: nat)
    requires |done| <= n
  {
    && used <= |bytes|
    && ParseLevels(bytes, n, 0, groups) ==
       match ParseLevels(bytes[used..], n - |done|, rank, groups)
       case None => None
       case Some(rest) => Some(Read(done + rest.value, used + rest.consumed))
  }

  lemma OneMoreLevel(bytes: seq<Byte>, n: nat, done: seq<Level>, used: nat, rank: nat, groups: nat)
    requires |done| < n && LevelsContinue(bytes, n, done, used, rank, groups)
    ensures match ParseLevel(bytes[used..], rank, groups)
            case None => ParseLevels(bytes, n, 0, groups) == None
            case Some(level) =>
              LevelsContinue(bytes, n, done + [level.value], used + level.consumed,
                             rank + CountTo(level.value.bits, level.value.bitLen), groups)
  {
    hide ParseLevel, CountTo, ValidLevel;
    var read := ParseLevel(bytes[used..], rank, groups);
    if read.Some? {
      var level := read.value;
      LevelWidth(level.value);
      assert bytes[used..][level.consumed..] == bytes[used + level.consumed..];
      var rest :=
        ParseLevels(bytes[used + level.consumed..], n - |done| - 1,
                    rank + CountTo(level.value.bits, level.value.bitLen), groups);
      if rest.Some? { assert done + ([level.value] + rest.value.value) == (done + [level.value]) + rest.value.value; }
    }
  }

  lemma LevelWidth(l: Level)
    requires ValidLevel(l)
    ensures l.bitLen == 64 * |l.bits|
  {
  }

  lemma NoLevelsYet(bytes: seq<Byte>, n: nat, groups: nat)
    ensures LevelsContinue(bytes, n, [], 0, 0, groups)
  {
    hide ParseLevels;
    assert bytes[0..] == bytes;
    var parsed := ParseLevels(bytes, n, 0, groups);
    if parsed.Some? { assert [] + parsed.value.value == parsed.value.value; }
  }

  method ReadLevels(reader: ByteReader, n: nat, groups: nat) returns (r: Option<seq<Level>>, rank: nat)
    requires reader.Valid()
    modifies reader
    ensures reader.Valid() && Takes(r, reader.Rest(), old(reader.Rest()), ParseLevels(old(reader.Rest()), n, 0, groups))
    ensures r.Some? ==> rank == RankTotal(r.value)
  {
    hide ParseLevel, ParseLevels, CountTo;
    ghost var bytes := reader.Rest();
    ghost var used: nat := 0;
    var levels: seq<Level> := [];
    rank := 0;
    NoLevelsYet(bytes, n, groups);
    for k := 0 to n
      invariant reader.Valid() && |levels| == k && used <= |bytes| && reader.Rest() == bytes[used..]
      invariant LevelsContinue(bytes, n, levels, used, rank, groups) && rank == RankTotal(levels)
    {
      OneMoreLevel(bytes, n, levels, used, rank, groups);
      ghost var read := ParseLevel(bytes[used..], rank, groups);
      var level := ReadLevel(reader, rank, groups);
      if level.None? { return None, rank; }
      var placed := CountAll(level.value.bits);
      assert (levels + [level.value])[..|levels|] == levels;
      levels := levels + [level.value];
      rank := rank + placed;
      used := used + read.value.consumed;
    }
    LevelsDone(bytes[used..], rank, groups);
    assert levels + [] == levels;
    return Some(levels), rank;
  }

  lemma LevelsDone(bytes: seq<Byte>, rank: nat, groups: nat)
    ensures ParseLevels(bytes, 0, rank, groups) == Some(Read([], 0))
  {
  }

  /** Reads a whole sidecar; anything short, inconsistent or left over is refused. */
  method ReadIndex(bytes: seq<Byte>, known: seq<Byte> -> bool) returns (r: Option<File>)
    ensures r == ParseFile(bytes, known)
  {
    hide ParseLevels, ParseInts, RankTotal, Fields, Acceptable, LeValue;
    var reader := new ByteReader(bytes);
    var head := reader.ReadExact(HEADER_BYTES);
    if head.None? { return None; }
    HeaderOfPrefix(bytes, head.value, known);
    var header := ParseHeader(head.value, known);
    if header.None? { return None; }
    var h := header.value;
    var levels, rank := ReadLevels(reader, h.levelCount, h.groupCount);
    if levels.None? || rank != h.groupCount { return None; }
    var offsets := ReadInts(reader, h.groupCount);
    if offsets.None? { return None; }
    var trailing := reader.ReadByte();
    if trailing.Some? { return None; }
    return Some(File(h, levels.value, offsets.value));
  }

  lemma HeaderOfPrefix(bytes: seq<Byte>, head: seq<Byte>, known: seq<Byte> -> bool)
    requires |bytes| >= HEADER_BYTES && head == bytes[..HEADER_BYTES]
    ensures ParseHeader(head, known) == ParseHeader(bytes, known)
  {
    hide LeValue, Acceptable;
    assert head[..8] == bytes[..8] && head[8..10] == bytes[8..10];
    HeaderSlice(bytes, 10, 14);
    HeaderSlice(bytes, 14, 46);
    HeaderSlice(bytes, 46, 54);
    HeaderSlice(bytes, 54, 62);
    HeaderSlice(bytes, 62, 70);
    HeaderSlice(bytes, 70, 74);
    HeaderSlice(bytes, 74, 106);
    HeaderSlice(bytes, 106, 114);
    HeaderSlice(bytes, 114, 122);
    HeaderSlice(bytes, 122, 126);
  }

  lemma HeaderSlice(bytes: seq<Byte>, i: nat, j: nat)
    requires i <= j <= HEADER_BYTES <= |bytes|
    ensures bytes[..HEADER_BYTES][i..j] == bytes[i..j]
  {
  }
}
