/**
 The sidecar file of a snapshot index: a fixed header, the levels of the hash
 and one offset per slot.  Ranks are not stored; the reader recomputes them.
 */
module Sidecar {
  import opened Basics
  import opened Bytes
  import opened CoreCodec
  import opened BitRank
  import opened BbHash

  const INDEX_MAGIC: seq<Byte> := [0x52, 0x42, 0x54, 0x43, 0x4d, 0x50, 0x48, 0x31]
  const INDEX_VERSION: nat := 3
  const HEADER_BYTES: nat := 126

  /** Everything the header describes; counts of groups and levels included. */
  datatype Header = Header(
    network: seq<Byte>,
    baseHash: seq<Byte>,
    coinsCount: nat,
    snapshotLen: nat,
    seconds: nat,
    nanos: nat,
    sha256: seq<Byte>,
    keyBytes: nat,
    groupCount: nat,
    levelCount: nat)

  datatype File = File(header: Header, levels: seq<Level>, offsets: seq<nat>)

  // ----- Lists of words -----

  function PrintInts(xs: seq<nat>): (out: seq<Byte>)
    ensures |out| == 8 * |xs|
  {
    if xs == [] then [] else PrintInts(xs[..|xs| - 1]) + LeBytes(xs[|xs| - 1], 8)
  }

  function ParseInts(bytes: seq<Byte>, n: nat): (xs: seq<Word>)
    requires |bytes| >= 8 * n
    ensures |xs| == n && forall i | 0 <= i < n :: xs[i] == LeValue(bytes[8 * i..8 * i + 8])
  {
    Widths();
    seq(n, i requires 0 <= i < n => LeValue(bytes[8 * i..8 * i + 8]))
  }

  lemma {:induction false} PrintedInt(xs: seq<nat>, i: nat)
    requires i < |xs|
    ensures PrintInts(xs)[8 * i..8 * i + 8] == LeBytes(xs[i], 8)
  {
    hide LeBytes;
    var n := |xs| - 1;
    var init, last := PrintInts(xs[..n]), LeBytes(xs[n], 8);
    assert PrintInts(xs) == init + last;
    if i < n {
      PrintedInt(xs[..n], i);
      PrefixSlice(init, last, 8 * i, 8 * i + 8);
    } else {
      assert |init| == 8 * i && (init + last)[|init|..|init| + 8] == last;
    }
  }

  /** Words are read back from a list, whatever follows it. */
  lemma ParsePrintedInts(xs: seq<nat>, rest: seq<Byte>)
    requires forall i | 0 <= i < |xs| :: xs[i] <= U64_MAX
    ensures ParseInts(PrintInts(xs) + rest, |xs|) == xs
  {
    hide LeBytes, LeValue, PrintInts, ParseInts;
    var bytes := PrintInts(xs) + rest;
    forall i | 0 <= i < |xs| ensures ParseInts(bytes, |xs|)[i] == xs[i] {
      ParsedInt(xs, rest, i);
    }
  }

  lemma ParsedInt(xs: seq<nat>, rest: seq<Byte>, i: nat)
    requires i < |xs| && xs[i] <= U64_MAX
    ensures LeValue((PrintInts(xs) + rest)[8 * i..8 * i + 8]) == xs[i]
  {
    hide LeBytes, LeValue, PrintInts;
    Widths();
    PrintedInt(xs, i);
    PrefixSlice(PrintInts(xs), rest, 8 * i, 8 * i + 8);
    ValueOfBytes(xs[i], 8);
  }

  lemma PrefixSlice(a: seq<Byte>, rest: seq<Byte>, i: nat, j: nat)
    requires i <= j <= |a|
    ensures (a + rest)[i..j] == a[i..j]
  {
  }

  lemma {:induction false} PrintParsedInts(bytes: seq<Byte>, n: nat)
    requires |bytes| >= 8 * n
    ensures PrintInts(ParseInts(bytes, n)) == bytes[..8 * n]
  {
    hide LeBytes, LeValue;
    hide ParseInts;
    if n > 0 {
      PrintParsedInts(bytes, n - 1);
      assert ParseInts(bytes, n)[..n - 1] == ParseInts(bytes, n - 1);
      BytesOfValue(bytes[8 * (n - 1)..8 * n]);
      assert bytes[..8 * n] == bytes[..8 * (n - 1)] + bytes[8 * (n - 1)..8 * n];
    }
  }

  // ----- Levels -----

  function PrintLevel(l: Level): (out: seq<Byte>)
    ensures |out| == 16 + 8 * |l.bits|
  {
    LeBytes(l.seed, 8) + LeBytes(l.bitLen, 8) + PrintInts(l.bits)
  }

  function PrintLevels(levels: seq<Level>): seq<Byte> {
    if levels == [] then [] else PrintLevel(levels[0]) + PrintLevels(levels[1..])
  }

  function Ranks(bits: seq<Word>): (ranks: seq<nat>)
    ensures RanksOf(ranks, bits)
  {
    seq(|bits|, w requires 0 <= w < |bits| => SumOnes(bits[..w]))
  }

  function MaxBits(groups: nat): nat {
    if 4 * groups > 64 then 4 * groups else 64
  }

  /** One level at a rank; its length must be a legal multiple of 64. */
  function ParseLevel(bytes: seq<Byte>, rank: nat, groups: nat): (r: Option<Read<Level>>)
    ensures r.Some? ==> ValidLevel(r.value.value) && 0 < r.value.consumed <= |bytes|
  {
    if |bytes| < 16 then None
    else
      Widths();
      var bitLen := LeValue(bytes[8..16]);
      if bitLen == 0 || bitLen % 64 != 0 || bitLen > MaxBits(groups) then None
      else if |bytes| < 16 + bitLen / 64 * 8 then None
      else
        var bits := ParseInts(bytes[16..], bitLen / 64);
        Some(Read(Level(LeValue(bytes[..8]), bitLen, rank, bits, Ranks(bits)), 16 + bitLen / 64 * 8))
  }

  function ParseLevels(bytes: seq<Byte>, n: nat, rank: nat, groups: nat): (r: Option<Read<seq<Level>>>)
    ensures r.Some? ==> r.value.consumed <= |bytes|
    decreases n
  {
    if n == 0 then Some(Read([], 0))
    else match ParseLevel(bytes, rank, groups)
      case None => None
      case Some(level) =>
        match ParseLevels(bytes[level.consumed..], n - 1, rank + CountTo(level.value.bits, level.value.bitLen), groups)
        case None => None
        case Some(rest) => Some(Read([level.value] + rest.value, level.consumed + rest.consumed))
  }

  lemma RanksUnique(a: seq<nat>, b: seq<nat>, bits: seq<Word>)
    requires RanksOf(a, bits) && RanksOf(b, bits)
    ensures a == b
  {
  }

  /** A legal level at its rank is read back. */
  lemma ParsePrintedLevel(l: Level, rest: seq<Byte>, groups: nat)
    requires ValidLevel(l) && l.bitLen <= U64_MAX && l.bitLen <= MaxBits(groups)
    ensures ParseLevel(PrintLevel(l) + rest, l.rankBase, groups) == Some(Read(l, |PrintLevel(l)|))
  {
    hide LeBytes, PrintInts, SumOnes;
    Widths();
    var bytes := PrintLevel(l) + rest;
    ValueOfBytes(l.seed, 8);
    ValueOfBytes(l.bitLen, 8);
    assert bytes[..8] == LeBytes(l.seed, 8) && bytes[8..16] == LeBytes(l.bitLen, 8);
    assert bytes[16..] == PrintInts(l.bits) + rest;
    ParsePrintedInts(l.bits, rest);
    RanksUnique(l.wordRanks, Ranks(l.bits), l.bits);
  }

  /** Rank bases start at `rank` and add up level by level. */
  ghost predicate RanksChain(levels: seq<Level>, rank: nat)
    decreases |levels|
  {
    levels == [] ||
    (&& ValidLevel(levels[0]) && levels[0].rankBase == rank
     && RanksChain(levels[1..], rank + CountTo(levels[0].bits, levels[0].bitLen)))
  }

  lemma {:induction false} ParsePrintedLevels(levels: seq<Level>, rank: nat, rest: seq<Byte>, groups: nat)
    requires RanksChain(levels, rank)
    requires forall l | 0 <= l < |levels| :: levels[l].bitLen <= U64_MAX && levels[l].bitLen <= MaxBits(groups)
    ensures ParseLevels(PrintLevels(levels) + rest, |levels|, rank, groups) == Some(Read(levels, |PrintLevels(levels)|))
  {
    hide PrintLevel, ParseLevel, CountTo;
    if levels != [] {
      var tail := PrintLevels(levels[1..]) + rest;
      ParsePrintedLevel(levels[0], tail, groups);
      ParsePrintedLevels(levels[1..], rank + CountTo(levels[0].bits, levels[0].bitLen), rest, groups);
      var bytes := PrintLevels(levels) + rest;
      assert bytes == PrintLevel(levels[0]) + tail;
      assert bytes[|PrintLevel(levels[0])|..] == tail;
      assert [levels[0]] + levels[1..] == levels;
    }
  }

  /** What was read prints back to the bytes it was read from. */
  lemma PrintParsedLevel(bytes: seq<Byte>, rank: nat, groups: nat)
    requires ParseLevel(bytes, rank, groups).Some?
    ensures var read := ParseLevel(bytes, rank, groups).value;
            PrintLevel(read.value) == bytes[..read.consumed]
  {
    hide LeBytes, LeValue, PrintInts, ParseInts, Ranks;
    var read := ParseLevel(bytes, rank, groups).value;
    BytesOfValue(bytes[..8]);
    BytesOfValue(bytes[8..16]);
    PrintParsedInts(bytes[16..], read.value.bitLen / 64);
    assert bytes[16..][..8 * (read.value.bitLen / 64)] == bytes[16..read.consumed];
    assert bytes[..read.consumed] == bytes[..8] + bytes[8..16] + bytes[16..read.consumed];
  }

  lemma {:induction false} PrintParsedLevels(bytes: seq<Byte>, n: nat, rank: nat, groups: nat)
    requires ParseLevels(bytes, n, rank, groups).Some?
    ensures var read := ParseLevels(bytes, n, rank, groups).value;
            |read.value| == n && PrintLevels(read.value) == bytes[..read.consumed]
    decreases n
  {
    hide PrintLevel, ParseLevel, CountTo;
    if n > 0 {
      PrintParsedLevel(bytes, rank, groups);
      var level := ParseLevel(bytes, rank, groups).value;
      var rest := bytes[level.consumed..];
      var next := rank + CountTo(level.value.bits, level.value.bitLen);
      PrintParsedLevels(rest, n - 1, next, groups);
      var read := ParseLevels(bytes, n, rank, groups).value;
      assert read.value[1..] == ParseLevels(rest, n - 1, next, groups).value.value;
      assert bytes[..read.consumed] == bytes[..level.consumed] + rest[..read.consumed - level.consumed];
    }
  }
}
