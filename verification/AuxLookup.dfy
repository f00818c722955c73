/**
 What lookups in an optional index answer, stated on the chain alone: the last
 block holding a transaction, the one spender of an outpoint, and the filter of
 every height chained from genesis (the "Filter Headers" section of BIP 157).
 */
module AuxLookup {
  import opened Basics
  import opened Coins
  import opened IndexCodec
  import opened AuxIndex
  import opened AuxRuns

  // ----- Rows that agree on their keys -----

  /** Rows with one key carry one value. */
  ghost predicate Functional(entries: seq<Entry>) {
    forall e, f | e in entries && f in entries && e.key == f.key :: e.value == f.value
  }

  lemma {:induction false} WrittenKey(records: Records, entries: seq<Entry>, e: Entry)
    requires Functional(entries) && e in entries
    ensures Get(Write(records, entries), e.key) == Some(e.value)
  {
    var n := |entries| - 1;
    assert entries[n] in entries && forall f | f in entries[..n] :: f in entries;
    if entries[n].key != e.key {
      assert e in entries[..n];
      WrittenKey(records, entries[..n], e);
    }
  }

  /** A written key holds the value of one of its rows. */
  lemma {:induction false} WrittenByOne(records: Records, entries: seq<Entry>, e: Entry) returns (f: Entry)
    requires e in entries
    ensures f in entries && f.key == e.key && Get(Write(records, entries), e.key) == Some(f.value)
  {
    var n := |entries| - 1;
    if entries[n].key == e.key {
      f := entries[n];
    } else {
      assert e in entries[..n];
      f := WrittenByOne(records, entries[..n], e);
    }
  }

  /** The order in which a block's rows are written does not matter. */
  lemma SortedKey(records: Records, entries: seq<Entry>, e: Entry, rules: IndexRules)
    requires ValidRules(rules) && Functional(entries) && e in entries
    ensures Get(Write(records, rules.sorted(entries)), e.key) == Some(e.value)
  {
    SameRows(entries, rules);
    WrittenKey(records, rules.sorted(entries), e);
  }

  lemma SortedOther(records: Records, entries: seq<Entry>, key: seq<Byte>, rules: IndexRules)
    requires ValidRules(rules) && forall e | e in entries :: e.key != key
    ensures Get(Write(records, rules.sorted(entries)), key) == Get(records, key)
  {
    SameRows(entries, rules);
    WriteAt(records, rules.sorted(entries), key);
  }

  lemma SameRows(entries: seq<Entry>, rules: IndexRules)
    requires ValidRules(rules)
    ensures forall e :: e in rules.sorted(entries) <==> e in entries
  {
    var sorted := rules.sorted(entries);
    assert multiset(sorted) == multiset(entries);
    forall e ensures e in sorted <==> e in entries {
      assert e in sorted <==> e in multiset(sorted);
      assert e in entries <==> e in multiset(entries);
    }
  }

  /** What building one more block does to the table. */
  lemma LastBuilt(kind: Kind, start: Index, chain: seq<IndexBlock>, rules: IndexRules)
    requires ValidRules(rules) && chain != [] && Build(kind, start, chain, rules).Some?
    ensures var last := chain[|chain| - 1];
            var before := Build(kind, start, chain[..|chain| - 1], rules);
            && before.Some? && last.height == before.value.tip.height + 1 && last.height <= U32_MAX
            && BlockEntries(kind, last, before.value.records, rules).Ok?
            && Build(kind, start, chain, rules).value.records ==
               Write(before.value.records, rules.sorted(BlockEntries(kind, last, before.value.records, rules).value))
            && Build(kind, start, chain, rules).value.tip.height == last.height
  {
    hide BlockEntries, Write, ValidRules;
  }

  // ----- Transactions -----

  predicate HoldsAt(b: IndexBlock, txid: seq<Byte>, position: nat) {
    position < |b.txs| && b.txs[position].txid == txid
  }

  predicate Holds(b: IndexBlock, txid: seq<Byte>) {
    exists position: nat | position < |b.txs| :: HoldsAt(b, txid, position)
  }

  /** The last block of the chain holding a transaction. */
  function LastHolder(chain: seq<IndexBlock>, txid: seq<Byte>): (r: Option<IndexBlock>)
    ensures r.Some? ==> r.value in chain && Holds(r.value, txid)
    decreases |chain|
  {
    if chain == [] then None
    else if Holds(chain[|chain| - 1], txid) then Some(chain[|chain| - 1])
    else LastHolder(chain[..|chain| - 1], txid)
  }

  lemma {:induction false} TransactionRows(b: IndexBlock, records: Records, n: nat)
    requires n <= |b.txs| && b.height <= U32_MAX && TransactionEntries(b, records, n).Ok?
    ensures n <= U32_MAX + 1 && |TransactionEntries(b, records, n).value| == n
    ensures forall i | 0 <= i < n :: TransactionEntries(b, records, n).value[i] == TransactionEntry(b, records, i)
  {
    hide TransactionEntry;
    if n > 0 { TransactionRows(b, records, n - 1); }
  }

  /** The table holds the place of a transaction in a block. */
  ghost predicate Locates(records: Records, txid: seq<Byte>, b: IndexBlock, position: nat) {
    && b.height <= U32_MAX && position <= U32_MAX
    && Get(records, txid) == Some(EncodeTransactionLocation(TransactionLocation(b.height, b.hash, position)))
  }

  /** The table holds one of the places of a transaction in a block. */
  ghost predicate LocatedIn(records: Records, txid: seq<Byte>, b: IndexBlock) {
    exists position: nat | position < |b.txs| :: HoldsAt(b, txid, position) && Locates(records, txid, b, position)
  }

  lemma BlockLocates(b: IndexBlock, records: Records, txid: seq<Byte>, rules: IndexRules)
    requires ValidRules(rules) && b.height <= U32_MAX && Holds(b, txid) && TransactionEntries(b, records, |b.txs|).Ok?
    ensures LocatedIn(Write(records, rules.sorted(TransactionEntries(b, records, |b.txs|).value)), txid, b)
  {
    hide Write, TransactionEntries, EncodeTransactionLocation, ValidRules;
    var entries := TransactionEntries(b, records, |b.txs|).value;
    TransactionRows(b, records, |b.txs|);
    var held: nat :| held < |b.txs| && HoldsAt(b, txid, held);
    SameRows(entries, rules);
    var e := WrittenByOne(records, rules.sorted(entries), entries[held]);
    assert e in entries;
    var position :| 0 <= position < |entries| && entries[position] == e;
    assert HoldsAt(b, txid, position) && Locates(Write(records, rules.sorted(entries)), txid, b, position);
  }

  /**
   A transaction index answers with a place of the transaction in the last
   block holding it, which is its only place there unless ids repeat.
   */
  lemma {:induction false} TransactionLookup(start: Index, chain: seq<IndexBlock>, txid: seq<Byte>, rules: IndexRules)
    requires ValidRules(rules) && start.records == map[] && Build(TransactionIndex, start, chain, rules).Some?
    ensures var records := Build(TransactionIndex, start, chain, rules).value.records;
            match LastHolder(chain, txid)
            case None => txid !in records
            case Some(b) => LocatedIn(records, txid, b)
    decreases |chain|
  {
    hide ValidRules, Write, TransactionEntries, LocatedIn, Holds;
    if chain != [] {
      var b, before := chain[|chain| - 1], Build(TransactionIndex, start, chain[..|chain| - 1], rules).value.records;
      LastBuilt(TransactionIndex, start, chain, rules);
      if Holds(b, txid) {
        BlockLocates(b, before, txid, rules);
      } else {
        NoRowFor(b, before, txid);
        SortedOther(before, TransactionEntries(b, before, |b.txs|).value, txid, rules);
        TransactionLookup(start, chain[..|chain| - 1], txid, rules);
        SameLocations(before, Build(TransactionIndex, start, chain, rules).value.records, txid);
      }
    }
  }

  lemma NoRowFor(b: IndexBlock, records: Records, txid: seq<Byte>)
    requires b.height <= U32_MAX && !Holds(b, txid) && TransactionEntries(b, records, |b.txs|).Ok?
    ensures forall e | e in TransactionEntries(b, records, |b.txs|).value :: e.key != txid
  {
    hide TransactionEntries;
    TransactionRows(b, records, |b.txs|);
    var entries := TransactionEntries(b, records, |b.txs|).value;
    forall e | e in entries ensures e.key != txid {
      var i :| 0 <= i < |entries| && entries[i] == e;
      assert !HoldsAt(b, txid, i);
    }
  }

  lemma SameLocations(before: Records, after: Records, txid: seq<Byte>)
    requires Get(before, txid) == Get(after, txid)
    ensures txid in before <==> txid in after
    ensures forall b | LocatedIn(before, txid, b) :: LocatedIn(after, txid, b)
  {
    forall b | LocatedIn(before, txid, b) ensures LocatedIn(after, txid, b) {
      var position: nat :| position < |b.txs| && HoldsAt(b, txid, position) && Locates(before, txid, b, position);
      assert Locates(after, txid, b, position);
    }
  }

  // ----- Spenders -----

  function SpendOf(spends: seq<Spend>, key: seq<Byte>, n: nat): (r: Option<Spend>)
    requires n <= |spends|
    ensures r.Some? ==> r.value in spends && r.value.key == key
    ensures r.None? ==> forall i | 0 <= i < n :: spends[i].key != key
  {
    if n == 0 then None else if spends[n - 1].key == key then Some(spends[n - 1]) else SpendOf(spends, key, n - 1)
  }

  /** The spend of an outpoint on the chain, with the block it is in. */
  function SpentIn(chain: seq<IndexBlock>, key: seq<Byte>): Option<(IndexBlock, Spend)>
    decreases |chain|
  {
    if chain == [] then None
    else
      var b := chain[|chain| - 1];
      var spends := Spends(b, |b.txs|);
      match SpendOf(spends, key, |spends|)
      case Some(s) => Some((b, s))
      case None => SpentIn(chain[..|chain| - 1], key)
  }

  lemma {:induction false} SpentRows(b: IndexBlock, spends: seq<Spend>, records: Records, n: nat)
    requires n <= |spends| && b.height <= U32_MAX && SpentEntries(b, spends, records, n).Ok?
    ensures |SpentEntries(b, spends, records, n).value| == n
    ensures forall i | 0 <= i < n ::
              && spends[i].input <= U32_MAX && spends[i].key !in records
              && SpentEntries(b, spends, records, n).value[i] == SpentEntry(b, spends[i])
    ensures forall i, j | 0 <= i < j < n :: spends[i].key != spends[j].key
  {
    hide SpentEntry;
    if n > 0 {
      SpentRows(b, spends, records, n - 1);
      forall i | 0 <= i < n - 1 ensures spends[i].key != spends[n - 1].key {
        assert spends[i] in spends[..n - 1];
      }
    }
  }

  lemma SpentRowsAgree(b: IndexBlock, spends: seq<Spend>, records: Records)
    requires b.height <= U32_MAX && SpentEntries(b, spends, records, |spends|).Ok?
    ensures Functional(SpentEntries(b, spends, records, |spends|).value)
  {
    hide EncodeSpentLocation, SpentEntries;
    SpentRows(b, spends, records, |spends|);
  }

  /** A spent-output index answers with the outpoint's spender. */
  lemma {:induction false} SpenderLookup(start: Index, chain: seq<IndexBlock>, key: seq<Byte>, rules: IndexRules)
    requires ValidRules(rules) && start.records == map[] && Build(SpentOutputIndex, start, chain, rules).Some?
    ensures match SpentIn(chain, key)
            case None => key !in Build(SpentOutputIndex, start, chain, rules).value.records
            case Some((b, s)) =>
              && b.height <= U32_MAX && s.input <= U32_MAX
              && Get(Build(SpentOutputIndex, start, chain, rules).value.records, key) ==
                 Some(EncodeSpentLocation(SpentLocation(s.txid, s.input, b.height, b.hash)))
    decreases |chain|
  {
    hide ValidRules, Write, SpentEntries, EncodeSpentLocation, Spends;
    if chain != [] {
      var b, before := chain[|chain| - 1], Build(SpentOutputIndex, start, chain[..|chain| - 1], rules).value.records;
      LastBuilt(SpentOutputIndex, start, chain, rules);
      var spends := Spends(b, |b.txs|);
      var entries := SpentEntries(b, spends, before, |spends|).value;
      SpentRows(b, spends, before, |spends|);
      SpentRowsAgree(b, spends, before);
      match SpendOf(spends, key, |spends|) {
        case Some(s) =>
          var i :| 0 <= i < |spends| && spends[i] == s;
          assert entries[i] in entries;
          SortedKey(before, entries, entries[i], rules);
        case None =>
          SortedOther(before, entries, key, rules);
          SpenderLookup(start, chain[..|chain| - 1], key, rules);
      }
    }
  }

  // ----- Filters -----

  const ZERO_HEADER: Hash32 := seq(32, _ => 0)

  /** The filter of a height; height zero is genesis. */
  function FilterAt(genesis: seq<Byte>, chain: seq<IndexBlock>, h: nat, rules: IndexRules): Option<seq<Byte>>
    requires h <= |chain|
  {
    if h == 0 then Some(genesis) else rules.filter(chain[h - 1])
  }

  /** The filter header of a height: the filter's hash chained to the header before, from zero. */
  function HeaderAt(genesis: seq<Byte>, chain: seq<IndexBlock>, h: nat, rules: IndexRules): Hash32
    requires h <= |chain|
  {
    var filter := FilterAt(genesis, chain, h, rules);
    var hash := rules.filterHash(if filter.Some? then filter.value else []);
    rules.filterHeader(hash, if h == 0 then ZERO_HEADER else HeaderAt(genesis, chain, h - 1, rules))
  }

  /** A filter index as it is created: the genesis filter, and a lookup row for it. */
  function GenesisIndex(genesis: seq<Byte>, hash: Hash32, rules: IndexRules): Index
    requires |genesis| <= U32_MAX
  {
    var filterHash := rules.filterHash(genesis);
    var record := FilterRecord(genesis, filterHash, rules.filterHeader(filterHash, ZERO_HEADER));
    Index(map[Be32(0) := EncodeFilterRecord(record), HashKey(hash) := Be32(0)], map[], IndexTip(0, hash))
  }

  /** The row of height `h` holds its filter, the filter's hash and the chained header. */
  ghost predicate HoldsFilter(records: Records, genesis: seq<Byte>, chain: seq<IndexBlock>, h: U32, rules: IndexRules)
    requires h <= |chain|
  {
    var filter := FilterAt(genesis, chain, h, rules);
    && filter.Some? && Be32(h) in records
    && DecodeFilterRecord(records[Be32(h)]) ==
       Some(FilterRecord(filter.value, rules.filterHash(filter.value), HeaderAt(genesis, chain, h, rules)))
  }

  lemma FilterPrefix(genesis: seq<Byte>, chain: seq<IndexBlock>, more: seq<IndexBlock>, h: nat, rules: IndexRules)
    requires h <= |chain|
    ensures FilterAt(genesis, chain + more, h, rules) == FilterAt(genesis, chain, h, rules)
    ensures HeaderAt(genesis, chain + more, h, rules) == HeaderAt(genesis, chain, h, rules)
  {
    if h > 0 { FilterPrefix(genesis, chain, more, h - 1, rules); }
  }

  lemma FilterRowsAgree(b: IndexBlock, records: Records, rules: IndexRules)
    requires 1 <= b.height <= U32_MAX && ValidRules(rules) && FilterEntries(b, records, rules).Ok?
    ensures Functional(FilterEntries(b, records, rules).value)
  {
    hide EncodeFilterRecord, DecodeFilterRecord, Be32;
  }

  /** The new block's row continues the chain, and earlier rows stay. */
  lemma FilterStep(records: Records, genesis: seq<Byte>, chain: seq<IndexBlock>, b: IndexBlock, h: U32,
                   rules: IndexRules)
    requires ValidRules(rules) && b.height == |chain| + 1 <= U32_MAX && h <= b.height
    requires FilterEntries(b, records, rules).Ok?
    requires forall k: U32 | 0 <= k <= |chain| :: HoldsFilter(records, genesis, chain, k, rules)
    ensures HoldsFilter(Write(records, rules.sorted(FilterEntries(b, records, rules).value)), genesis, chain + [b], h,
                        rules)
  {
    hide EncodeFilterRecord, DecodeFilterRecord, Be32, Write, ValidRules;
    var entries := FilterEntries(b, records, rules).value;
    FilterRowsAgree(b, records, rules);
    assert HoldsFilter(records, genesis, chain, b.height - 1, rules);
    if h == b.height {
      assert entries[0] in entries;
      SortedKey(records, entries, entries[0], rules);
      FilterPrefix(genesis, chain, [b], b.height - 1, rules);
      var filter := rules.filter(b).value;
      var record := FilterRecord(filter, rules.filterHash(filter), HeaderAt(genesis, chain + [b], h, rules));
      FilterLengths(b, rules);
      FilterRecordRoundTrip(record, EncodeFilterRecord(record));
    } else {
      FilterPrefix(genesis, chain, [b], h, rules);
      assert HoldsFilter(records, genesis, chain, h, rules);
      forall e | e in entries ensures e.key != Be32(h) { OtherKey(b, h, rules); }
      SortedOther(records, entries, Be32(h), rules);
    }
  }

  lemma FilterLengths(b: IndexBlock, rules: IndexRules)
    requires ValidRules(rules) && rules.filter(b).Some?
    ensures |rules.filter(b).value| <= U32_MAX
  {
  }

  lemma OtherKey(b: IndexBlock, h: U32, rules: IndexRules)
    requires b.height <= U32_MAX && h != b.height
    ensures Be32(b.height) != Be32(h) && HashKey(b.hash) != Be32(h)
  {
    if Be32(b.height) == Be32(h) { Be32Injective(b.height, h); }
  }

  /** A filter index holds, at every height up to its tip, that height's filter and chained header. */
  lemma {:induction false} FiltersChainFromGenesis(genesis: seq<Byte>, hash: Hash32, chain: seq<IndexBlock>, h: U32,
                                                   rules: IndexRules)
    requires ValidRules(rules) && |genesis| <= U32_MAX && h <= |chain|
    requires Build(BasicFilterIndex, GenesisIndex(genesis, hash, rules), chain, rules).Some?
    ensures HoldsFilter(Build(BasicFilterIndex, GenesisIndex(genesis, hash, rules), chain, rules).value.records,
                        genesis, chain, h, rules)
    ensures Build(BasicFilterIndex, GenesisIndex(genesis, hash, rules), chain, rules).value.tip.height == |chain|
    decreases |chain|
  {
    hide ValidRules, Write, FilterEntries, HoldsFilter;
    var start := GenesisIndex(genesis, hash, rules);
    if chain == [] {
      GenesisHolds(genesis, hash, rules);
    } else {
      var n := |chain| - 1;
      LastBuilt(BasicFilterIndex, start, chain, rules);
      FiltersChainFromGenesis(genesis, hash, chain[..n], 0, rules);
      var before := Build(BasicFilterIndex, start, chain[..n], rules).value;
      forall k: U32 | 0 <= k <= n ensures HoldsFilter(before.records, genesis, chain[..n], k, rules) {
        FiltersChainFromGenesis(genesis, hash, chain[..n], k, rules);
      }
      FilterStep(before.records, genesis, chain[..n], chain[n], h, rules);
      assert chain[..n] + [chain[n]] == chain;
    }
  }

  lemma GenesisHolds(genesis: seq<Byte>, hash: Hash32, rules: IndexRules)
    requires |genesis| <= U32_MAX
    ensures HoldsFilter(GenesisIndex(genesis, hash, rules).records, genesis, [], 0, rules)
  {
    hide EncodeFilterRecord, DecodeFilterRecord, Be32;
    var filterHash := rules.filterHash(genesis);
    var record := FilterRecord(genesis, filterHash, rules.filterHeader(filterHash, ZERO_HEADER));
    FilterRecordRoundTrip(record, EncodeFilterRecord(record));
  }
}
