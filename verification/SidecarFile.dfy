/**
 Printing and parsing a whole sidecar file, and the proof that the reader's
 checks never refuse what the index builder wrote.
 */
module SidecarFile {
  import opened Basics
  import opened Bytes
  import opened CoreCodec
  import opened BitRank
  import opened BbHash
  import opened BbHashBuild
  import opened Snapshot
  import opened SnapshotIndex
  import opened SnapshotGet
  import opened Sidecar

  // ----- The header -----

  function Identity(h: Header): seq<Byte> {
    INDEX_MAGIC + LeBytes(INDEX_VERSION, 2) + h.network + h.baseHash
  }

  function Source(h: Header): seq<Byte> {
    LeBytes(h.coinsCount, 8) + LeBytes(h.snapshotLen, 8) + LeBytes(h.seconds, 8) + LeBytes(h.nanos, 4)
  }

  function Counts(h: Header): seq<Byte> {
    h.sha256 + LeBytes(h.keyBytes, 8) + LeBytes(h.groupCount, 8) + LeBytes(h.levelCount, 4)
  }

  function PrintHeader(h: Header): seq<Byte> {
    Identity(h) + Source(h) + Counts(h)
  }

  /** Field widths. */
  predicate Sized(h: Header) {
    && |h.network| == 4 && |h.baseHash| == 32 && |h.sha256| == 32
    && h.coinsCount <= U64_MAX && h.snapshotLen <= U64_MAX && h.seconds <= U64_MAX && h.nanos <= U32_MAX
    && h.keyBytes <= U64_MAX && h.groupCount <= U64_MAX && h.levelCount <= U32_MAX
  }

  /** The reader's checks on a header. */
  predicate Acceptable(h: Header, known: seq<Byte> -> bool) {
    && known(h.network) && h.nanos < NANOS && h.keyBytes >= h.coinsCount
    && 0 < h.groupCount <= h.coinsCount && 0 < h.levelCount <= MAX_INDEX_LEVELS
  }

  function Fields(bytes: seq<Byte>): Header
    requires |bytes| >= HEADER_BYTES
  {
    Header(bytes[10..14], bytes[14..46], LeValue(bytes[46..54]), LeValue(bytes[54..62]), LeValue(bytes[62..70]),
           LeValue(bytes[70..74]), bytes[74..106], LeValue(bytes[106..114]), LeValue(bytes[114..122]),
           LeValue(bytes[122..126]))
  }

  function ParseHeader(bytes: seq<Byte>, known: seq<Byte> -> bool): Option<Header> {
    if |bytes| < HEADER_BYTES || bytes[..8] != INDEX_MAGIC || LeValue(bytes[8..10]) != INDEX_VERSION then None
    else if !Acceptable(Fields(bytes), known) then None
    else Some(Fields(bytes))
  }

  /** Four parts in a row, found by their lengths. */
  lemma FourParts(bytes: seq<Byte>, at: nat, a: seq<Byte>, b: seq<Byte>, c: seq<Byte>, d: seq<Byte>)
    requires at + |a| + |b| + |c| + |d| <= |bytes|
    requires bytes[at..at + |a| + |b| + |c| + |d|] == a + b + c + d
    ensures bytes[at..at + |a|] == a && bytes[at + |a|..at + |a| + |b|] == b
    ensures bytes[at + |a| + |b|..at + |a| + |b| + |c|] == c
    ensures bytes[at + |a| + |b| + |c|..at + |a| + |b| + |c| + |d|] == d
  {
    var all := a + b + c + d;
    forall i | 0 <= i < |all| ensures bytes[at + i] == all[i] {
      assert bytes[at..at + |all|][i] == bytes[at + i];
    }
    PartAt(bytes, at, all, 0, a);
    PartAt(bytes, at, all, |a|, b);
    PartAt(bytes, at, all, |a| + |b|, c);
    PartAt(bytes, at, all, |a| + |b| + |c|, d);
  }

  lemma PartAt(bytes: seq<Byte>, at: nat, all: seq<Byte>, i: nat, part: seq<Byte>)
    requires at + |all| <= |bytes| && i + |part| <= |all|
    requires forall k | 0 <= k < |all| :: bytes[at + k] == all[k]
    requires forall k | 0 <= k < |part| :: all[i + k] == part[k]
    ensures bytes[at + i..at + i + |part|] == part
  {
    forall k | 0 <= k < |part| ensures bytes[at + i..at + i + |part|][k] == part[k] {
      assert bytes[at + (i + k)] == all[i + k];
    }
  }

  /** Four slices in a row, joined. */
  lemma Joined(bytes: seq<Byte>, i: nat, j: nat, k: nat, l: nat, m: nat)
    requires i <= j <= k <= l <= m <= |bytes|
    ensures bytes[i..j] + bytes[j..k] + bytes[k..l] + bytes[l..m] == bytes[i..m]
  {
  }

  lemma IdentityParts(h: Header, bytes: seq<Byte>)
    requires Sized(h) && |bytes| >= 46 && bytes[0..46] == Identity(h)
    ensures bytes[..8] == INDEX_MAGIC && LeValue(bytes[8..10]) == INDEX_VERSION
    ensures bytes[10..14] == h.network && bytes[14..46] == h.baseHash
  {
    hide LeBytes, LeValue;
    Widths();
    ValueOfBytes(INDEX_VERSION, 2);
    FourParts(bytes, 0, INDEX_MAGIC, LeBytes(INDEX_VERSION, 2), h.network, h.baseHash);
    assert bytes[0..8] == bytes[..8];
  }

  lemma SourceParts(h: Header, bytes: seq<Byte>)
    requires Sized(h) && |bytes| >= 74 && bytes[46..74] == Source(h)
    ensures LeValue(bytes[46..54]) == h.coinsCount && LeValue(bytes[54..62]) == h.snapshotLen
    ensures LeValue(bytes[62..70]) == h.seconds && LeValue(bytes[70..74]) == h.nanos
  {
    hide LeBytes, LeValue;
    Widths();
    ValueOfBytes(h.coinsCount, 8);
    ValueOfBytes(h.snapshotLen, 8);
    ValueOfBytes(h.seconds, 8);
    ValueOfBytes(h.nanos, 4);
    FourParts(bytes, 46, LeBytes(h.coinsCount, 8), LeBytes(h.snapshotLen, 8), LeBytes(h.seconds, 8),
              LeBytes(h.nanos, 4));
  }

  lemma CountsParts(h: Header, bytes: seq<Byte>)
    requires Sized(h) && |bytes| >= HEADER_BYTES && bytes[74..126] == Counts(h)
    ensures bytes[74..106] == h.sha256 && LeValue(bytes[106..114]) == h.keyBytes
    ensures LeValue(bytes[114..122]) == h.groupCount && LeValue(bytes[122..126]) == h.levelCount
  {
    hide LeBytes, LeValue;
    Widths();
    ValueOfBytes(h.keyBytes, 8);
    ValueOfBytes(h.groupCount, 8);
    ValueOfBytes(h.levelCount, 4);
    FourParts(bytes, 74, h.sha256, LeBytes(h.keyBytes, 8), LeBytes(h.groupCount, 8), LeBytes(h.levelCount, 4));
  }

  lemma ParsePrintedHeader(h: Header, rest: seq<Byte>, known: seq<Byte> -> bool)
    requires Sized(h) && Acceptable(h, known)
    ensures |PrintHeader(h)| == HEADER_BYTES && ParseHeader(PrintHeader(h) + rest, known) == Some(h)
  {
    hide LeBytes, LeValue, Identity, Source, Counts, Fields;
    PartLengths(h);
    var bytes := PrintHeader(h) + rest;
    assert bytes[0..126] == Identity(h) + Source(h) + Counts(h) + [];
    FourParts(bytes, 0, Identity(h), Source(h), Counts(h), []);
    FieldsAre(h, bytes);
  }

  lemma FieldsAre(h: Header, bytes: seq<Byte>)
    requires Sized(h) && |bytes| >= HEADER_BYTES
    requires bytes[0..46] == Identity(h) && bytes[46..74] == Source(h) && bytes[74..126] == Counts(h)
    ensures Fields(bytes) == h && bytes[..8] == INDEX_MAGIC && LeValue(bytes[8..10]) == INDEX_VERSION
  {
    hide LeBytes, LeValue, Identity, Source, Counts;
    IdentityParts(h, bytes);
    SourceParts(h, bytes);
    CountsParts(h, bytes);
  }

  lemma PartLengths(h: Header)
    requires Sized(h)
    ensures |Identity(h)| == 46 && |Source(h)| == 28 && |Counts(h)| == 52
  {
    hide LeBytes;
  }

  lemma IdentityBack(bytes: seq<Byte>, h: Header)
    requires |bytes| >= HEADER_BYTES && h == Fields(bytes) && bytes[..8] == INDEX_MAGIC
             && LeValue(bytes[8..10]) == INDEX_VERSION
    ensures Identity(h) == bytes[0..46]
  {
    hide LeBytes, LeValue;
    BytesOfValue(bytes[8..10]);
    assert bytes[0..8] == bytes[..8];
    Joined(bytes, 0, 8, 10, 14, 46);
  }

  lemma SourceBack(bytes: seq<Byte>, h: Header)
    requires |bytes| >= HEADER_BYTES && h == Fields(bytes)
    ensures Source(h) == bytes[46..74]
  {
    hide LeBytes, LeValue;
    BytesOfValue(bytes[46..54]);
    BytesOfValue(bytes[54..62]);
    BytesOfValue(bytes[62..70]);
    BytesOfValue(bytes[70..74]);
    Joined(bytes, 46, 54, 62, 70, 74);
  }

  lemma CountsBack(bytes: seq<Byte>, h: Header)
    requires |bytes| >= HEADER_BYTES && h == Fields(bytes)
    ensures Counts(h) == bytes[74..126]
  {
    hide LeBytes, LeValue;
    BytesOfValue(bytes[106..114]);
    BytesOfValue(bytes[114..122]);
    BytesOfValue(bytes[122..126]);
    Joined(bytes, 74, 106, 114, 122, 126);
  }

  /** An accepted header is the printed form of its fields. */
  lemma PrintParsedHeader(bytes: seq<Byte>, known: seq<Byte> -> bool)
    requires ParseHeader(bytes, known).Some?
    ensures PrintHeader(ParseHeader(bytes, known).value) == bytes[..HEADER_BYTES]
  {
    hide LeBytes, LeValue, Identity, Source, Counts, Fields;
    var h := ParseHeader(bytes, known).value;
    IdentityBack(bytes, h);
    SourceBack(bytes, h);
    CountsBack(bytes, h);
    Joined(bytes, 0, 46, 74, 126, 126);
    assert bytes[0..126] == bytes[..HEADER_BYTES];
  }

  // ----- The file -----

  function PrintFile(f: File): seq<Byte> {
    PrintHeader(f.header) + PrintLevels(f.levels) + PrintInts(f.offsets)
  }

  /** The whole file, with every check of the reader; anything left over is refused. */
  function ParseFile(bytes: seq<Byte>, known: seq<Byte> -> bool): Option<File> {
    match ParseHeader(bytes, known)
    case None => None
    case Some(h) =>
      match ParseLevels(bytes[HEADER_BYTES..], h.levelCount, 0, h.groupCount)
      case None => None
      case Some(levels) =>
        var rest := bytes[HEADER_BYTES + levels.consumed..];
        if RankTotal(levels.value) != h.groupCount || |rest| != 8 * h.groupCount then None
        else Some(File(h, levels.value, ParseInts(rest, h.groupCount)))
  }

  /** What a writer is given. */
  ghost predicate Writable(f: File, known: seq<Byte> -> bool) {
    && Sized(f.header) && Acceptable(f.header, known)
    && f.header.levelCount == |f.levels| && f.header.groupCount == |f.offsets|
    && RanksChain(f.levels, 0) && RankTotal(f.levels) == |f.offsets|
    && (forall l | 0 <= l < |f.levels| :: f.levels[l].bitLen <= U64_MAX && f.levels[l].bitLen <= MaxBits(|f.offsets|))
    && (forall i | 0 <= i < |f.offsets| :: f.offsets[i] <= U64_MAX)
  }

  /** A written file is read back with identical levels, ranks and offsets. */
  lemma SidecarRoundTrip(f: File, known: seq<Byte> -> bool)
    requires Writable(f, known)
    ensures ParseFile(PrintFile(f), known) == Some(f)
  {
    hide PrintHeader, ParseHeader, PrintLevels, ParseLevels, PrintInts, ParseInts, RankTotal, RanksChain;
    var levels, offsets := PrintLevels(f.levels), PrintInts(f.offsets);
    var bytes := PrintFile(f);
    ParsePrintedHeader(f.header, levels + offsets, known);
    assert bytes == PrintHeader(f.header) + (levels + offsets);
    assert bytes[HEADER_BYTES..] == levels + offsets;
    ParsePrintedLevels(f.levels, 0, offsets, |f.offsets|);
    assert bytes[HEADER_BYTES + |levels|..] == offsets;
    assert offsets + [] == offsets;
    ParsePrintedInts(f.offsets, []);
  }

  /** Whatever the reader accepts is the printed form of what it returns. */
  lemma SidecarConverse(bytes: seq<Byte>, known: seq<Byte> -> bool)
    requires ParseFile(bytes, known).Some?
    ensures PrintFile(ParseFile(bytes, known).value) == bytes
  {
    hide PrintHeader, ParseHeader, PrintLevels, ParseLevels, PrintInts, ParseInts, RankTotal;
    HeaderFits(bytes, known);
    var h := ParseHeader(bytes, known).value;
    PrintParsedHeader(bytes, known);
    var body := bytes[HEADER_BYTES..];
    var levels := ParseLevels(body, h.levelCount, 0, h.groupCount).value;
    PrintParsedLevels(body, h.levelCount, 0, h.groupCount);
    var rest := bytes[HEADER_BYTES + levels.consumed..];
    PrintParsedInts(rest, h.groupCount);
    assert rest[..8 * h.groupCount] == rest;
    assert bytes == bytes[..HEADER_BYTES] + body[..levels.consumed] + rest;
  }

  lemma HeaderFits(bytes: seq<Byte>, known: seq<Byte> -> bool)
    requires ParseHeader(bytes, known).Some?
    ensures |bytes| >= HEADER_BYTES
  {
  }

  // ----- What the builder produces -----

  lemma {:induction false} ShapedChains(levels: seq<Level>, n: nat, k: nat)
    requires Shaped(levels, n) && k <= |levels|
    ensures RanksChain(levels[k..], RankTotal(levels[..k]))
    decreases |levels| - k
  {
    hide CountTo;
    if k < |levels| {
      ShapedChains(levels, n, k + 1);
      assert levels[k..][1..] == levels[k + 1..];
      assert levels[..k + 1][..k] == levels[..k];
    }
  }

  function CoinCount(groups: seq<Placed>): nat {
    if groups == [] then 0 else |groups[0].group.coins| + CoinCount(groups[1..])
  }

  lemma CompactLenRead(bytes: seq<Byte>)
    requires ReadCompactSize(bytes).Ok?
    ensures ReadCompactSize(bytes).value.consumed == CompactSizeLen(ReadCompactSize(bytes).value.value)
  {
    CompactSizeIsCanonical(bytes);
  }

  /** Output indexes are part of the bytes a group's coins take. */
  lemma {:induction false} VoutsInFile(bytes: seq<Byte>, n: nat, params: Params)
    requires ReadCoins(bytes, n, params).Ok?
    ensures VoutBytes(ReadCoins(bytes, n, params).value.value) <= ReadCoins(bytes, n, params).value.consumed
    decreases n
  {
    hide ReadCoin, CompactSizeLen;
    if n > 0 {
      var read := ReadCoin(bytes, params).value;
      VoutInCoin(bytes, params);
      VoutsInFile(bytes[read.consumed..], n - 1, params);
      assert ReadCoins(bytes, n, params).value.value[1..] ==
             ReadCoins(bytes[read.consumed..], n - 1, params).value.value;
    }
  }

  lemma VoutInCoin(bytes: seq<Byte>, params: Params)
    requires ReadCoin(bytes, params).Ok?
    ensures CompactSizeLen(ReadCoin(bytes, params).value.value.vout) <= ReadCoin(bytes, params).value.consumed
  {
    hide ReadCompactSize, ReadCoinBody;
    CompactLenRead(bytes);
  }

  lemma KeysInGroup(bytes: seq<Byte>, remaining: nat, previous: Option<seq<Byte>>, params: Params)
    requires ScanGroup(bytes, remaining, previous, params).Ok?
    ensures var read := ScanGroup(bytes, remaining, previous, params).value;
            KeyBytes(read.value) <= read.consumed
  {
    hide ReadCompactSize, ReadCoins, DistinctVouts, LexLess, VoutBytes, CompactSizeLen;
    var head := ReadHeader(bytes).value;
    CompactLenRead(bytes[32..]);
    VoutsInFile(bytes[head.consumed..], head.value.1, params);
  }

  /** A scan accounts for every coin, and its outpoints fit in the file. */
  lemma {:induction false} ScanCounts(bytes: seq<Byte>, offset: nat, remaining: nat, previous: Option<seq<Byte>>,
                                      params: Params)
    requires offset <= |bytes| && Scan(bytes, offset, remaining, previous, params).Ok?
    ensures var groups := Scan(bytes, offset, remaining, previous, params).value;
            && CoinCount(groups) == remaining && |groups| <= remaining && (remaining > 0 ==> groups != [])
            && remaining <= TotalKeyBytes(groups) && offset + TotalKeyBytes(groups) <= |bytes|
    decreases remaining
  {
    hide ScanGroup, KeyBytes;
    if remaining > 0 {
      var read := ScanGroup(bytes[offset..], remaining, previous, params).value;
      KeysInGroup(bytes[offset..], remaining, previous, params);
      KeysCoverCoins(read.value);
      ScanCounts(bytes, offset + read.consumed, remaining - |read.value.coins|, Some(read.value.txid), params);
      var groups := Scan(bytes, offset, remaining, previous, params).value;
      assert groups[1..] ==
             Scan(bytes, offset + read.consumed, remaining - |read.value.coins|, Some(read.value.txid), params).value;
    }
  }

  lemma KeysCoverCoins(g: Group)
    ensures |g.coins| <= KeyBytes(g)
  {
  }

  /**
   The reader's level, rank-sum and bit-length checks never refuse what the
   builder produced for a snapshot: whatever the hash, the file is read back.
   */
  lemma BuiltIndexIsReadBack(bytes: seq<Byte>, header: Header, index: Index, params: Params, hash: Hasher,
                             known: seq<Byte> -> bool)
    requires METADATA_BYTES <= |bytes| <= U64_MAX && header.coinsCount > 0
    requires Scan(bytes, METADATA_BYTES, header.coinsCount, None, params).Ok?
    requires var groups := Scan(bytes, METADATA_BYTES, header.coinsCount, None, params).value;
             && Indexes(index, bytes, groups, params, hash)
             && 0 < |index.levels| <= MAX_INDEX_LEVELS
    requires Sized(header) && known(header.network) && header.nanos < NANOS && header.keyBytes == index.keyBytes
    requires header.groupCount == |index.offsets| && header.levelCount == |index.levels|
    ensures ParseFile(PrintFile(File(header, index.levels, index.offsets)), known) ==
            Some(File(header, index.levels, index.offsets))
  {
    hide Scan, Faithful, PrintFile, ParseFile, RankTotal, RanksChain, Slot, TotalKeyBytes;
    var groups := Scan(bytes, METADATA_BYTES, header.coinsCount, None, params).value;
    ScanCounts(bytes, METADATA_BYTES, header.coinsCount, None, params);
    ShapedChains(index.levels, |groups|, 0);
    NoRanks(index.levels);
    forall i | 0 <= i < |index.offsets| ensures index.offsets[i] <= U64_MAX {
      SlotOffsets(index, bytes, groups, i, params, hash);
    }
    SidecarRoundTrip(File(header, index.levels, index.offsets), known);
  }

  lemma NoRanks(levels: seq<Level>)
    ensures RankTotal(levels[..0]) == 0 && levels[0..] == levels
  {
  }

  /** Every slot holds an offset within the file. */
  lemma SlotOffsets(index: Index, bytes: seq<Byte>, groups: seq<Placed>, s: nat, params: Params, hash: Hasher)
    requires Indexes(index, bytes, groups, params, hash) && s < |index.offsets| && |bytes| <= U64_MAX
    ensures index.offsets[s] <= U64_MAX
  {
    hide SlotOf, Shaped, RankTotal, ValidLevels;
    var keys := KeysOf(groups);
    assert Filled(index.levels, keys, s, hash);
    var i :| 0 <= i < |keys| && SlotOf(index.levels, keys, i, hash) == Some(s);
    assert Holds(index.offsets, index.levels, keys, OffsetsOf(groups), i, hash);
    assert Faithful(bytes, groups[i], params);
  }
}
