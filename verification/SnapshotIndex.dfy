/**
 Indexing a snapshot and looking coins up in it.  A lookup goes from the hash
 to a slot to a file offset and re-reads one group; it answers exactly what a
 linear scan of the file would.
 */
module SnapshotIndex {
  import opened Basics
  import opened CoreCodec
  import opened Snapshot

  // ----- Scanning the file -----

  /** Byte strings in order. */
  predicate LexLess(a: seq<Byte>, b: seq<Byte>) {
    if b == [] then false
    else if a == [] then true
    else a[0] < b[0] || (a[0] == b[0] && LexLess(a[1..], b[1..]))
  }

  predicate DistinctVouts(coins: seq<RawCoin>) {
    forall i, j | 0 <= i < j < |coins| :: coins[i].vout != coins[j].vout
  }

  /** The coins of a group whose id and count were read. */
  function ScanBody(bytes: seq<Byte>, txid: seq<Byte>, count: nat, remaining: nat,
                    params: Params): (r: Result<Read<Group>, SnapshotError>)
    ensures r.Ok? ==> r.value.consumed <= |bytes| && 0 < |r.value.value.coins| <= remaining
  {
    if count == 0 || count > remaining || count > MAX_COINS_PER_TXID then Err(CoinsPerTxid)
    else match ReadCoins(bytes, count, params)
      case Err(e) => Err(e)
      case Ok(coins) =>
        if !DistinctVouts(coins.value) then Err(DuplicateVout) else Ok(Read(Group(txid, coins.value), coins.consumed))
  }

  /** A group of the file, with every check the indexer makes. */
  function ScanGroup(bytes: seq<Byte>, remaining: nat, previous: Option<seq<Byte>>,
                     params: Params): (r: Result<Read<Group>, SnapshotError>)
    ensures r.Ok? ==> 32 < r.value.consumed <= |bytes| && 0 < |r.value.value.coins| <= remaining
  {
    if |bytes| < 32 then Err(Codec(EndOfStream))
    else if previous.Some? && !LexLess(previous.value, bytes[..32]) then Err(NotOrdered)
    else match ReadHeader(bytes)
      case Err(e) => Err(e)
      case Ok(head) =>
        match ScanBody(bytes[head.consumed..], head.value.0, head.value.1, remaining, params)
        case Err(e) => Err(e)
        case Ok(group) => Ok(Read(group.value, head.consumed + group.consumed))
  }

  /** A scanned group is a group with distinct outputs. */
  lemma ScannedIsGroup(bytes: seq<Byte>, remaining: nat, previous: Option<seq<Byte>>, params: Params)
    requires ScanGroup(bytes, remaining, previous, params).Ok?
    ensures ReadGroup(bytes, params) == ScanGroup(bytes, remaining, previous, params)
    ensures DistinctVouts(ScanGroup(bytes, remaining, previous, params).value.value.coins)
  {
    hide ReadHeader, ReadCoins, LexLess, DistinctVouts;
  }

  method FindDuplicate(coins: seq<RawCoin>) returns (distinct: bool)
    ensures distinct <==> DistinctVouts(coins)
  {
    var seen: set<nat> := {};
    for i := 0 to |coins|
      invariant seen == set j | 0 <= j < i :: coins[j].vout
      invariant DistinctVouts(coins[..i])
    {
      if coins[i].vout in seen { return false; }
      seen := seen + {coins[i].vout};
    }
    assert coins[..|coins|] == coins;
    return true;
  }

  method ScanBodyFrom(reader: ByteReader, txid: seq<Byte>, count: nat, remaining: nat, params: Params)
    returns (r: Result<Group, SnapshotError>)
    requires reader.Valid()
    modifies reader
    ensures reader.Valid()
            && Leaves(r, reader.Rest(), old(reader.Rest()),
                      ScanBody(old(reader.Rest()), txid, count, remaining, params))
  {
    hide ReadCoins, DistinctVouts;
    if count == 0 || count > remaining || count > MAX_COINS_PER_TXID { return Err(CoinsPerTxid); }
    var coins := ReadCoinsFrom(reader, count, params);
    if coins.Err? { return Err(coins.error); }
    var distinct := FindDuplicate(coins.value);
    if !distinct { return Err(DuplicateVout); }
    return Ok(Group(txid, coins.value));
  }

  method ScanGroupFrom(reader: ByteReader, remaining: nat, previous: Option<seq<Byte>>, params: Params)
    returns (r: Result<Group, SnapshotError>)
    requires reader.Valid()
    modifies reader
    ensures reader.Valid()
    ensures Leaves(r, reader.Rest(), old(reader.Rest()), ScanGroup(old(reader.Rest()), remaining, previous, params))
  {
    hide ReadCompactSize, ScanBody, LexLess;
    ghost var bytes := reader.Rest();
    var txid := reader.ReadExact(32);
    if txid.None? { return Err(Codec(EndOfStream)); }
    if previous.Some? && !LexLess(previous.value, txid.value) { return Err(NotOrdered); }
    var count := ReadCompactSizeFrom(reader);
    if count.Err? { return Err(Codec(count.error)); }
    r := ScanBodyFrom(reader, txid.value, count.value, remaining, params);
  }

  /** A group and where it starts. */
  datatype Placed = Placed(offset: nat, group: Group)

  /** The groups from `offset` on; the file must end with the last of them. */
  function Scan(bytes: seq<Byte>, offset: nat, remaining: nat, previous: Option<seq<Byte>>,
                params: Params): Result<seq<Placed>, SnapshotError>
    requires offset <= |bytes|
    decreases remaining
  {
    if remaining == 0 then
      if offset == |bytes| then Ok([]) else Err(TrailingBytes)
    else match ScanGroup(bytes[offset..], remaining, previous, params)
      case Err(e) => Err(e)
      case Ok(read) =>
        match Scan(bytes, offset + read.consumed, remaining - |read.value.coins|, Some(read.value.txid), params)
        case Err(e) => Err(e)
        case Ok(rest) => Ok([Placed(offset, read.value)] + rest)
  }

  /** Every placed group is read back at its offset. */
  ghost predicate Faithful(bytes: seq<Byte>, p: Placed, params: Params) {
    && p.offset < |bytes|
    && ReadGroup(bytes[p.offset..], params).Ok? && ReadGroup(bytes[p.offset..], params).value.value == p.group
    && DistinctVouts(p.group.coins)
  }

  lemma {:induction false} ScanIsFaithful(bytes: seq<Byte>, offset: nat, remaining: nat, previous: Option<seq<Byte>>,
                                          params: Params, i: nat)
    requires offset <= |bytes| && Scan(bytes, offset, remaining, previous, params).Ok?
    requires i < |Scan(bytes, offset, remaining, previous, params).value|
    ensures var p := Scan(bytes, offset, remaining, previous, params).value[i];
            offset <= p.offset && Faithful(bytes, p, params)
    decreases remaining
  {
    hide ScanGroup, ReadGroup, DistinctVouts;
    if remaining > 0 {
      ScannedIsGroup(bytes[offset..], remaining, previous, params);
      if i > 0 {
        var read := ScanGroup(bytes[offset..], remaining, previous, params).value;
        ScanIsFaithful(bytes, offset + read.consumed, remaining - |read.value.coins|, Some(read.value.txid), params,
                       i - 1);
      }
    }
  }

  /** Scanning continues after some groups already found. */
  ghost predicate ScanContinues(bytes: seq<Byte>, start: nat, total: nat, groups: seq<Placed>, offset: nat,
                                remaining: nat, previous: Option<seq<Byte>>, params: Params)
    requires start <= |bytes|
  {
    && offset <= |bytes|
    && Scan(bytes, start, total, None, params) ==
       match Scan(bytes, offset, remaining, previous, params)
       case Err(e) => Err(e)
       case Ok(rest) => Ok(groups + rest)
  }

  lemma OneMoreGroup(bytes: seq<Byte>, start: nat, total: nat, groups: seq<Placed>, offset: nat, remaining: nat,
                     previous: Option<seq<Byte>>, params: Params)
    requires start <= |bytes| && remaining > 0
    requires ScanContinues(bytes, start, total, groups, offset, remaining, previous, params)
    ensures match ScanGroup(bytes[offset..], remaining, previous, params)
            case Err(e) => Scan(bytes, start, total, None, params) == Err(e)
            case Ok(read) =>
              ScanContinues(bytes, start, total, groups + [Placed(offset, read.value)], offset + read.consumed,
                            remaining - |read.value.coins|, Some(read.value.txid), params)
  {
    hide ScanGroup;
    var group := ScanGroup(bytes[offset..], remaining, previous, params);
    if group.Ok? {
      var read := group.value;
      var rest := Scan(bytes, offset + read.consumed, remaining - |read.value.coins|, Some(read.value.txid), params);
      if rest.Ok? {
        assert groups + ([Placed(offset, read.value)] + rest.value) ==
               (groups + [Placed(offset, read.value)]) + rest.value;
      }
    }
  }

  lemma NoGroupsYet(bytes: seq<Byte>, start: nat, total: nat, params: Params)
    requires start <= |bytes|
    ensures ScanContinues(bytes, start, total, [], start, total, None, params)
  {
    hide Scan;
    var scan := Scan(bytes, start, total, None, params);
    if scan.Ok? { assert [] + scan.value == scan.value; }
  }

  /** Reads every group after the metadata; the position of each is remembered. */
  method ScanSnapshot(bytes: seq<Byte>, coinsCount: nat, params: Params) returns (r: Result<seq<Placed>, SnapshotError>)
    requires METADATA_BYTES <= |bytes|
    ensures r == Scan(bytes, METADATA_BYTES, coinsCount, None, params)
  {
    hide Scan, ScanGroup;
    var reader := new ByteReader(bytes);
    reader.position := METADATA_BYTES;
    var groups: seq<Placed>, remaining: nat, previous: Option<seq<Byte>> := [], coinsCount, None;
    NoGroupsYet(bytes, METADATA_BYTES, coinsCount, params);
    while remaining != 0
      invariant reader.Valid()
      invariant ScanContinues(bytes, METADATA_BYTES, coinsCount, groups, reader.position, remaining, previous, params)
      decreases remaining
    {
      var offset := reader.position;
      OneMoreGroup(bytes, METADATA_BYTES, coinsCount, groups, offset, remaining, previous, params);
      var group := ScanGroupFrom(reader, remaining, previous, params);
      if group.Err? { return Err(group.error); }
      PositionOf(reader, offset, ScanGroup(bytes[offset..], remaining, previous, params).value.consumed);
      groups := groups + [Placed(offset, group.value)];
      remaining := remaining - |group.value.coins|;
      previous := Some(group.value.txid);
    }
    ScanEnds(bytes, reader.position, previous, params);
    var trailing := reader.ReadByte();
    if trailing.Some? { return Err(TrailingBytes); }
    assert groups + [] == groups;
    return Ok(groups);
  }

  lemma PositionOf(reader: ByteReader, offset: nat, consumed: nat)
    requires reader.Valid() && offset + consumed <= |reader.bytes|
             && reader.Rest() == reader.bytes[offset..][consumed..]
    ensures reader.position == offset + consumed
  {
    assert |reader.Rest()| == |reader.bytes| - reader.position;
  }

  lemma ScanEnds(bytes: seq<Byte>, offset: nat, previous: Option<seq<Byte>>, params: Params)
    requires offset <= |bytes|
    ensures Scan(bytes, offset, 0, previous, params) == if offset == |bytes| then Ok([]) else Err(TrailingBytes)
  {
  }
}
