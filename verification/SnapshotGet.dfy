/**
 The index over a snapshot: one file offset per slot, and lookups through it
 that agree with a linear scan of the file, members and non-members alike.
 */
module SnapshotGet {
  import opened Basics
  import opened CoreCodec
  import opened BbHash
  import opened BbHashBuild
  import opened Snapshot
  import opened SnapshotIndex

  datatype Index = Index(levels: seq<Level>, offsets: seq<nat>, keyBytes: nat)

  function KeysOf(groups: seq<Placed>): (keys: seq<Key>)
    ensures |keys| == |groups| && forall i | 0 <= i < |groups| :: keys[i] == groups[i].group.txid
  {
    seq(|groups|, i requires 0 <= i < |groups| => groups[i].group.txid)
  }

  // ----- Building -----

  /** Each key's slot holds its value. */
  ghost predicate Holds(offsets: seq<nat>, levels: seq<Level>, keys: seq<Key>, values: seq<nat>, i: nat, hash: Hasher)
    requires ValidLevels(levels) && i < |keys| == |values|
  {
    && SlotOf(levels, keys, i, hash).Some? && SlotOf(levels, keys, i, hash).value < |offsets|
    && offsets[SlotOf(levels, keys, i, hash).value] == values[i]
  }

  /** Puts each key's value in its slot; a slot met twice or left empty is an error. */
  method FillOffsets(levels: seq<Level>, keys: seq<Key>, values: seq<nat>, hash: Hasher)
    returns (r: Result<seq<nat>, SnapshotError>)
    requires ValidLevels(levels) && |values| == |keys| && forall i | 0 <= i < |values| :: values[i] != U64_MAX
    requires forall i | 0 <= i < |keys| ::
               SlotOf(levels, keys, i, hash).Some? ==> SlotOf(levels, keys, i, hash).value < |keys|
    ensures r.Ok? ==> |r.value| == |keys|
    ensures r.Ok? ==> forall i | 0 <= i < |keys| :: Holds(r.value, levels, keys, values, i, hash)
    ensures Perfect(levels, keys, hash) ==> r.Ok?
  {
    hide Slot, ValidLevels;
    var offsets: seq<nat> := seq(|keys|, _ => U64_MAX);
    for n := 0 to |keys|
      invariant |offsets| == |keys|
      invariant forall i | 0 <= i < n :: Holds(offsets, levels, keys, values, i, hash)
      invariant forall s | 0 <= s < |keys| :: offsets[s] == U64_MAX || TakenBefore(levels, keys, n, s, hash)
    {
      var slot := BbHashSlot(levels, keys[n], hash);
      assert slot == SlotOf(levels, keys, n, hash);
      if slot.None? { return Err(MphfConstruction); }
      var s := slot.value;
      if offsets[s] != U64_MAX {
        assert TakenBefore(levels, keys, n, s, hash);
        return Err(MphfCollision);
      }
      var next := offsets[s := values[n]];
      forall i | 0 <= i < n ensures Holds(next, levels, keys, values, i, hash) {
        assert Holds(offsets, levels, keys, values, i, hash);
        assert SlotOf(levels, keys, i, hash) != Some(s);
      }
      offsets := next;
    }
    if U64_MAX in offsets {
      ghost var s :| 0 <= s < |offsets| && offsets[s] == U64_MAX;
      if Perfect(levels, keys, hash) { EmptySlot(offsets, levels, keys, values, s, hash); }
      return Err(IncompleteMphf);
    }
    return Ok(offsets);
  }

  /** Some earlier key has this slot. */
  ghost predicate TakenBefore(levels: seq<Level>, keys: seq<Key>, n: nat, s: nat, hash: Hasher)
    requires ValidLevels(levels) && n <= |keys|
  {
    exists i :: 0 <= i < n && SlotOf(levels, keys, i, hash) == Some(s)
  }

  /** A perfect hash leaves no slot empty. */
  lemma EmptySlot(offsets: seq<nat>, levels: seq<Level>, keys: seq<Key>, values: seq<nat>, s: nat, hash: Hasher)
    requires Perfect(levels, keys, hash) && |values| == |keys| == |offsets| && s < |keys|
    requires forall i | 0 <= i < |keys| :: Holds(offsets, levels, keys, values, i, hash)
    ensures offsets[s] in values
  {
    hide SlotOf;
    assert Filled(levels, keys, s, hash);
    var i :| 0 <= i < |keys| && SlotOf(levels, keys, i, hash) == Some(s);
    assert Holds(offsets, levels, keys, values, i, hash);
    assert values[i] in values;
  }

  /** The bytes a group's outpoints take: the id, the count, and each output index. */
  function KeyBytes(g: Group): nat {
    32 + CompactSizeLen(|g.coins|) + VoutBytes(g.coins)
  }

  function VoutBytes(coins: seq<RawCoin>): (n: nat)
    ensures n >= |coins|
  {
    if coins == [] then 0 else CompactSizeLen(coins[0].vout) + VoutBytes(coins[1..])
  }

  method CountKeyBytes(g: Group) returns (n: nat)
    ensures n == KeyBytes(g)
  {
    n := 32 + CompactSizeLen(|g.coins|);
    for i := 0 to |g.coins|
      invariant n + VoutBytes(g.coins[i..]) == KeyBytes(g)
    {
      assert g.coins[i..][1..] == g.coins[i + 1..];
      n := n + CompactSizeLen(g.coins[i].vout);
    }
  }

  function TotalKeyBytes(groups: seq<Placed>): nat {
    if groups == [] then 0 else KeyBytes(groups[0].group) + TotalKeyBytes(groups[1..])
  }

  /** What an index must be for the groups of a file. */
  ghost predicate Indexes(index: Index, bytes: seq<Byte>, groups: seq<Placed>, params: Params, hash: Hasher) {
    && Perfect(index.levels, KeysOf(groups), hash)
    && |index.offsets| == |groups| && Shaped(index.levels, |groups|) && RankTotal(index.levels) == |groups|
    && (forall i | 0 <= i < |groups| :: Holds(index.offsets, index.levels, KeysOf(groups), OffsetsOf(groups), i, hash))
    && (forall i | 0 <= i < |groups| :: METADATA_BYTES <= groups[i].offset && Faithful(bytes, groups[i], params))
    && index.keyBytes == TotalKeyBytes(groups)
  }

  function OffsetsOf(groups: seq<Placed>): (offsets: seq<nat>)
    ensures |offsets| == |groups| && forall i | 0 <= i < |groups| :: offsets[i] == groups[i].offset
  {
    seq(|groups|, i requires 0 <= i < |groups| => groups[i].offset)
  }

  /**
   Scans a snapshot, builds the hash over its groups and fills the slots.  The
   collision and completeness checks never fail: the only refusals are those of
   the scan and of the hash construction itself.
   */
  method BuildIndex(bytes: seq<Byte>, coinsCount: nat, params: Params, hash: Hasher)
    returns (r: Result<Index, SnapshotError>)
    requires METADATA_BYTES <= |bytes| <= U64_MAX
    ensures match Scan(bytes, METADATA_BYTES, coinsCount, None, params)
            case Err(e) => r == Err(e)
            case Ok(groups) =>
              && (r.Ok? ==> Indexes(r.value, bytes, groups, params, hash))
              && (r.Ok? ==> |r.value.levels| <= MAX_INDEX_LEVELS && (groups != [] ==> r.value.levels != []))
              && (r.Err? ==> r.error.Mphf? && exists levels :: Refused(r.error.cause, levels, KeysOf(groups), hash))
  {
    hide Scan, Shaped, RankTotal, Faithful, Refused, Slot;
    var scanned := ScanSnapshot(bytes, coinsCount, params);
    if scanned.Err? { return Err(scanned.error); }
    var groups := scanned.value;
    forall i | 0 <= i < |groups| ensures METADATA_BYTES <= groups[i].offset && Faithful(bytes, groups[i], params) {
      ScanIsFaithful(bytes, METADATA_BYTES, coinsCount, None, params, i);
    }
    forall i | 0 <= i < |groups| ensures OffsetsOf(groups)[i] != U64_MAX { OffsetInFile(bytes, groups[i], params); }
    var levels := BuildBbHash(KeysOf(groups), hash);
    if levels.Err? { return Err(Mphf(levels.error)); }
    var offsets := FillOffsets(levels.value, KeysOf(groups), OffsetsOf(groups), hash);
    var keyBytes := SumKeyBytes(groups);
    return Ok(Index(levels.value, offsets.value, keyBytes));
  }

  method SumKeyBytes(groups: seq<Placed>) returns (total: nat)
    ensures total == TotalKeyBytes(groups)
  {
    hide KeyBytes;
    total := 0;
    for i := 0 to |groups|
      invariant total + TotalKeyBytes(groups[i..]) == TotalKeyBytes(groups)
    {
      assert groups[i..][1..] == groups[i + 1..];
      var n := CountKeyBytes(groups[i].group);
      total := total + n;
    }
  }

  lemma OffsetInFile(bytes: seq<Byte>, p: Placed, params: Params)
    requires Faithful(bytes, p, params) && |bytes| <= U64_MAX
    ensures p.offset < U64_MAX
  {
  }

  // ----- Looking up -----

  /** A coin with the median time of the block before it. */
  datatype FullCoin = FullCoin(coin: RawCoin, creationMtp: nat)

  /** Median times by height of the block before; unknown heights have none. */
  type MtpOf = nat -> Option<nat>

  function CreationMtp(coin: RawCoin, mtp: MtpOf): Option<nat> {
    if coin.height == 0 then Some(0) else mtp(coin.height - 1)
  }

  /** Reads the coins of a group, keeping the one asked for. */
  function ReadIndexed(bytes: seq<Byte>, n: nat, vout: nat, found: Option<FullCoin>, params: Params,
                       mtp: MtpOf): Result<Option<FullCoin>, SnapshotError>
    decreases n
  {
    if n == 0 then Ok(found)
    else match ReadCoin(bytes, params)
      case Err(e) => Err(e)
      case Ok(read) =>
        match CreationMtp(read.value, mtp)
        case None => Err(MissingHeader)
        case Some(time) =>
          var next := if read.value.vout == vout then Some(FullCoin(read.value, time)) else found;
          ReadIndexed(bytes[read.consumed..], n - 1, vout, next, params, mtp)
  }

  /** Reads one group at an offset for one outpoint. */
  function FetchAt(bytes: seq<Byte>, offset: nat, txid: Key, vout: nat, params: Params,
                   mtp: MtpOf): Result<Option<FullCoin>, SnapshotError>
  {
    if offset < METADATA_BYTES || offset >= |bytes| then Err(MphfOffset)
    else if |bytes| - offset < 32 then Err(Codec(EndOfStream))
    else if bytes[offset..][..32] != txid then Ok(None)
    else match ReadHeader(bytes[offset..])
      case Err(e) => Err(e)
      case Ok(head) =>
        if head.value.1 == 0 || head.value.1 > MAX_COINS_PER_TXID then Err(CoinsPerTxid)
        else ReadIndexed(bytes[offset..][head.consumed..], head.value.1, vout, None, params, mtp)
  }

  function Fetch(index: Index, bytes: seq<Byte>, txid: Key, vout: nat, params: Params, mtp: MtpOf,
                 hash: Hasher): Result<Option<FullCoin>, SnapshotError>
    requires ValidLevels(index.levels)
  {
    match Slot(index.levels, txid, hash, 0)
    case None => Ok(None)
    case Some(slot) =>
      if slot >= |index.offsets| then Err(MphfSlot)
      else FetchAt(bytes, index.offsets[slot], txid, vout, params, mtp)
  }

  method ReadIndexedFrom(reader: ByteReader, n: nat, vout: nat, params: Params, mtp: MtpOf)
    returns (r: Result<Option<FullCoin>, SnapshotError>)
    requires reader.Valid()
    modifies reader
    ensures r == ReadIndexed(old(reader.Rest()), n, vout, None, params, mtp)
  {
    hide ReadCoin;
    ghost var bytes := reader.Rest();
    var found := None;
    for k := 0 to n
      invariant reader.Valid()
      invariant ReadIndexed(bytes, n, vout, None, params, mtp) ==
                ReadIndexed(reader.Rest(), n - k, vout, found, params, mtp)
    {
      var coin := ReadCoinFrom(reader, params);
      if coin.Err? { return Err(coin.error); }
      var time := CreationMtp(coin.value, mtp);
      if time.None? { return Err(MissingHeader); }
      if coin.value.vout == vout { found := Some(FullCoin(coin.value, time.value)); }
    }
    return Ok(found);
  }

  /** Looks one outpoint up. */
  method Get(index: Index, bytes: seq<Byte>, txid: Key, vout: nat, params: Params, mtp: MtpOf, hash: Hasher)
    returns (r: Result<Option<FullCoin>, SnapshotError>)
    requires ValidLevels(index.levels)
    ensures r == Fetch(index, bytes, txid, vout, params, mtp, hash)
  {
    hide Slot, ReadCompactSize, ReadIndexed, ValidLevels;
    var slot := BbHashSlot(index.levels, txid, hash);
    if slot.None? { return Ok(None); }
    if slot.value >= |index.offsets| { return Err(MphfSlot); }
    var offset := index.offsets[slot.value];
    if offset < METADATA_BYTES || offset >= |bytes| { return Err(MphfOffset); }
    var reader := new ByteReader(bytes);
    reader.position := offset;
    var stored := reader.ReadExact(32);
    if stored.None? { return Err(Codec(EndOfStream)); }
    if stored.value != txid { return Ok(None); }
    var count := ReadCompactSizeFrom(reader);
    if count.Err? { return Err(Codec(count.error)); }
    if count.value == 0 || count.value > MAX_COINS_PER_TXID { return Err(CoinsPerTxid); }
    assert reader.Rest() == bytes[offset..][ReadHeader(bytes[offset..]).value.consumed..];
    r := ReadIndexedFrom(reader, count.value, vout, params, mtp);
  }

  // ----- Agreement with a linear scan -----

  /** The coin of a group with an output index, its creation time looked up for every coin on the way. */
  function Lookup(coins: seq<RawCoin>, vout: nat, found: Option<FullCoin>,
                  mtp: MtpOf): Result<Option<FullCoin>, SnapshotError>
  {
    if coins == [] then Ok(found)
    else match CreationMtp(coins[0], mtp)
      case None => Err(MissingHeader)
      case Some(time) =>
        Lookup(coins[1..], vout, if coins[0].vout == vout then Some(FullCoin(coins[0], time)) else found, mtp)
  }

  /** A linear scan of the groups. */
  function LinearScan(groups: seq<Placed>, txid: Key, vout: nat, mtp: MtpOf): Result<Option<FullCoin>, SnapshotError> {
    if groups == [] then Ok(None)
    else if groups[0].group.txid == txid then Lookup(groups[0].group.coins, vout, None, mtp)
    else LinearScan(groups[1..], txid, vout, mtp)
  }

  lemma {:induction false} ReadIndexedIsLookup(bytes: seq<Byte>, n: nat, vout: nat, found: Option<FullCoin>,
                                               params: Params, mtp: MtpOf)
    requires ReadCoins(bytes, n, params).Ok?
    ensures ReadIndexed(bytes, n, vout, found, params, mtp) ==
            Lookup(ReadCoins(bytes, n, params).value.value, vout, found, mtp)
    decreases n
  {
    hide ReadCoin, CreationMtp;
    if n > 0 {
      var read := ReadCoin(bytes, params).value;
      var rest := bytes[read.consumed..];
      assert ReadCoins(bytes, n, params).value.value[1..] == ReadCoins(rest, n - 1, params).value.value;
      var time := CreationMtp(read.value, mtp);
      if time.Some? {
        var found' := if read.value.vout == vout then Some(FullCoin(read.value, time.value)) else found;
        ReadIndexedIsLookup(rest, n - 1, vout, found', params, mtp);
      }
    }
  }

  /** Reading a group at its own offset answers from its coins; any other id gets nothing. */
  lemma FetchGroup(bytes: seq<Byte>, p: Placed, txid: Key, vout: nat, params: Params, mtp: MtpOf)
    requires METADATA_BYTES <= p.offset && Faithful(bytes, p, params)
    ensures FetchAt(bytes, p.offset, txid, vout, params, mtp) ==
            if p.group.txid == txid then Lookup(p.group.coins, vout, None, mtp) else Ok(None)
  {
    hide ReadIndexed, ReadCoins, Lookup, ReadCompactSize, DistinctVouts;
    var rest := bytes[p.offset..];
    var head := ReadHeader(rest).value;
    if p.group.txid == txid { ReadIndexedIsLookup(rest[head.consumed..], head.value.1, vout, None, params, mtp); }
  }

  lemma {:induction false} ScanMeetsGroup(groups: seq<Placed>, i: nat, txid: Key, vout: nat, mtp: MtpOf)
    requires i < |groups| && groups[i].group.txid == txid
    requires forall j | 0 <= j < i :: groups[j].group.txid != txid
    ensures LinearScan(groups, txid, vout, mtp) == Lookup(groups[i].group.coins, vout, None, mtp)
  {
    hide Lookup;
    if i > 0 { ScanMeetsGroup(groups[1..], i - 1, txid, vout, mtp); }
  }

  lemma {:induction false} ScanMeetsNothing(groups: seq<Placed>, txid: Key, vout: nat, mtp: MtpOf)
    requires forall j | 0 <= j < |groups| :: groups[j].group.txid != txid
    ensures LinearScan(groups, txid, vout, mtp) == Ok(None)
  {
    if groups != [] { ScanMeetsNothing(groups[1..], txid, vout, mtp); }
  }

  /** A perfect hash cannot give two keys that are equal. */
  lemma PerfectKeysDiffer(levels: seq<Level>, keys: seq<Key>, hash: Hasher, i: nat, j: nat)
    requires Perfect(levels, keys, hash) && i < j < |keys|
    ensures keys[i] != keys[j]
  {
    assert SlotOf(levels, keys, i, hash) != SlotOf(levels, keys, j, hash);
  }

  /**
   A lookup answers exactly what a linear scan of the file answers: the coin
   when it is there, nothing when it is not, whichever slot a foreign id lands in.
   */
  lemma LookupAgreesWithScan(index: Index, bytes: seq<Byte>, groups: seq<Placed>, txid: Key, vout: nat,
                             params: Params, mtp: MtpOf, hash: Hasher)
    requires Indexes(index, bytes, groups, params, hash)
    ensures ValidLevels(index.levels)
    ensures Fetch(index, bytes, txid, vout, params, mtp, hash) == LinearScan(groups, txid, vout, mtp)
  {
    hide FetchAt, LinearScan, Lookup, Faithful, ValidLevels, Slot, Shaped, RankTotal;
    var keys := KeysOf(groups);
    SlotInRange(index.levels, |groups|, txid, hash, 0);
    if i :| 0 <= i < |groups| && groups[i].group.txid == txid {
      forall j | 0 <= j < i ensures groups[j].group.txid != txid { PerfectKeysDiffer(index.levels, keys, hash, j, i); }
      ScanMeetsGroup(groups, i, txid, vout, mtp);
      assert Holds(index.offsets, index.levels, keys, OffsetsOf(groups), i, hash);
      FetchGroup(bytes, groups[i], txid, vout, params, mtp);
    } else {
      ScanMeetsNothing(groups, txid, vout, mtp);
      var slot := Slot(index.levels, txid, hash, 0);
      if slot.Some? { ForeignSlot(index, bytes, groups, txid, vout, slot.value, params, mtp, hash); }
    }
  }

  /** A foreign id that lands in a slot finds another id there. */
  lemma ForeignSlot(index: Index, bytes: seq<Byte>, groups: seq<Placed>, txid: Key, vout: nat, slot: nat,
                    params: Params, mtp: MtpOf, hash: Hasher)
    requires Indexes(index, bytes, groups, params, hash) && slot < |groups|
    requires forall j | 0 <= j < |groups| :: groups[j].group.txid != txid
    ensures FetchAt(bytes, index.offsets[slot], txid, vout, params, mtp) == Ok(None)
  {
    hide FetchAt, Faithful, ValidLevels, SlotOf, Lookup, Shaped, RankTotal;
    var keys := KeysOf(groups);
    assert Filled(index.levels, keys, slot, hash);
    var i :| 0 <= i < |keys| && SlotOf(index.levels, keys, i, hash) == Some(slot);
    assert Holds(index.offsets, index.levels, keys, OffsetsOf(groups), i, hash);
    FetchGroup(bytes, groups[i], txid, vout, params, mtp);
  }

  // ----- What a scan finds -----

  /** Every coin's creation time is known. */
  predicate Covered(groups: seq<Placed>, mtp: MtpOf) {
    forall g, c | 0 <= g < |groups| && 0 <= c < |groups[g].group.coins| ::
      CreationMtp(groups[g].group.coins[c], mtp).Some?
  }

  lemma {:induction false} LookupFinds(coins: seq<RawCoin>, c: nat, found: Option<FullCoin>, mtp: MtpOf)
    requires c < |coins| && DistinctVouts(coins) && forall i | 0 <= i < |coins| :: CreationMtp(coins[i], mtp).Some?
    ensures Lookup(coins, coins[c].vout, found, mtp) == Ok(Some(FullCoin(coins[c], CreationMtp(coins[c], mtp).value)))
  {
    hide CreationMtp;
    if c > 0 {
      LookupFinds(coins[1..], c - 1, found, mtp);
    } else {
      LookupMisses(coins[1..], coins[0].vout, Some(FullCoin(coins[0], CreationMtp(coins[0], mtp).value)), mtp);
    }
  }

  lemma {:induction false} LookupMisses(coins: seq<RawCoin>, vout: nat, found: Option<FullCoin>, mtp: MtpOf)
    requires forall i | 0 <= i < |coins| :: coins[i].vout != vout && CreationMtp(coins[i], mtp).Some?
    ensures Lookup(coins, vout, found, mtp) == Ok(found)
  {
    hide CreationMtp;
    if coins != [] { LookupMisses(coins[1..], vout, found, mtp); }
  }

  /** Every coin of the file is found, with its own data. */
  lemma MembersAreFound(index: Index, bytes: seq<Byte>, groups: seq<Placed>, g: nat, c: nat, params: Params, mtp: MtpOf,
                        hash: Hasher)
    requires Indexes(index, bytes, groups, params, hash) && Covered(groups, mtp)
    requires g < |groups| && c < |groups[g].group.coins|
    ensures ValidLevels(index.levels)
    ensures var coin := groups[g].group.coins[c];
            Fetch(index, bytes, groups[g].group.txid, coin.vout, params, mtp, hash) ==
            Ok(Some(FullCoin(coin, CreationMtp(coin, mtp).value)))
  {
    hide Fetch, Lookup, CreationMtp, Shaped, RankTotal, ValidLevels, LinearScan;
    var txid, coins := groups[g].group.txid, groups[g].group.coins;
    LookupAgreesWithScan(index, bytes, groups, txid, coins[c].vout, params, mtp, hash);
    forall j | 0 <= j < g ensures groups[j].group.txid != txid {
      PerfectKeysDiffer(index.levels, KeysOf(groups), hash, j, g);
    }
    ScanMeetsGroup(groups, g, txid, coins[c].vout, mtp);
    assert Faithful(bytes, groups[g], params);
    LookupFinds(coins, c, None, mtp);
  }

  /** Nothing else is: an outpoint the file does not hold gets no coin. */
  lemma OthersAreNot(index: Index, bytes: seq<Byte>, groups: seq<Placed>, txid: Key, vout: nat, params: Params,
                     mtp: MtpOf, hash: Hasher)
    requires Indexes(index, bytes, groups, params, hash) && Covered(groups, mtp)
    requires forall g, c | 0 <= g < |groups| && 0 <= c < |groups[g].group.coins| ::
               groups[g].group.txid != txid || groups[g].group.coins[c].vout != vout
    ensures ValidLevels(index.levels)
    ensures Fetch(index, bytes, txid, vout, params, mtp, hash) == Ok(None)
  {
    hide Fetch, Lookup, CreationMtp, Shaped, RankTotal, ValidLevels, LinearScan;
    LookupAgreesWithScan(index, bytes, groups, txid, vout, params, mtp, hash);
    if g :| 0 <= g < |groups| && groups[g].group.txid == txid {
      forall j | 0 <= j < g ensures groups[j].group.txid != txid {
        PerfectKeysDiffer(index.levels, KeysOf(groups), hash, j, g);
      }
      ScanMeetsGroup(groups, g, txid, vout, mtp);
      LookupMisses(groups[g].group.coins, vout, None, mtp);
    } else {
      ScanMeetsNothing(groups, txid, vout, mtp);
    }
  }
}
