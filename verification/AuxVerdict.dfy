/**
 Which chains an optional index accepts, stated on the blocks alone: blocks
 that follow one another, with no outpoint spent twice, or with a filter each.
 And where a spend is recorded, by block, transaction and input.
 */
module AuxVerdict {
  import opened Basics
  import opened Coins
  import opened IndexCodec
  import opened AuxIndex
  import opened AuxRuns
  import opened AuxLookup

  // ----- Blocks that follow one another -----

  predicate Linked(tip: IndexTip, chain: seq<IndexBlock>) {
    forall i | 0 <= i < |chain| :: Follows(tip, chain, i)
  }

  /** Block `i` is the next height and names its predecessor. */
  predicate Follows(tip: IndexTip, chain: seq<IndexBlock>, i: nat)
    requires i < |chain|
  {
    && chain[i].height == tip.height + 1 + i <= 0xffff_ffff
    && chain[i].previous == if i == 0 then tip.hash else chain[i - 1].hash
  }

  lemma LinkedInit(tip: IndexTip, chain: seq<IndexBlock>)
    requires chain != []
    ensures Linked(tip, chain) <==> Linked(tip, chain[..|chain| - 1]) && Follows(tip, chain, |chain| - 1)
  {
    var init := chain[..|chain| - 1];
    forall i | 0 <= i < |init| ensures Follows(tip, init, i) <==> Follows(tip, chain, i) {
      assert init[i] == chain[i];
    }
    if Linked(tip, chain) {
      forall i | 0 <= i < |init| ensures Follows(tip, init, i) { assert Follows(tip, chain, i); }
    }
    if Linked(tip, init) && Follows(tip, chain, |init|) {
      forall i | 0 <= i < |chain| ensures Follows(tip, chain, i) { if i < |init| { assert Follows(tip, init, i); } }
    }
  }

  /** The tip after a chain was built. */
  lemma BuiltTip(kind: Kind, start: Index, chain: seq<IndexBlock>, rules: IndexRules)
    requires ValidRules(rules) && Build(kind, start, chain, rules).Some?
    ensures Build(kind, start, chain, rules).value.tip ==
            if chain == [] then start.tip else IndexTip(chain[|chain| - 1].height, chain[|chain| - 1].hash)
  {
    hide BlockEntries, Write, ValidRules;
  }

  /** One more block is accepted when it follows and its rows can be built. */
  lemma BuildStep(kind: Kind, start: Index, chain: seq<IndexBlock>, rules: IndexRules)
    requires ValidRules(rules) && chain != [] && Build(kind, start, chain[..|chain| - 1], rules).Some?
    requires Linked(start.tip, chain[..|chain| - 1])
    ensures var b, before := chain[|chain| - 1], Build(kind, start, chain[..|chain| - 1], rules).value;
            && (Follows(start.tip, chain, |chain| - 1) ==> 1 <= b.height <= U32_MAX)
            && (Build(kind, start, chain, rules).Some? <==>
                  Follows(start.tip, chain, |chain| - 1) && BlockEntries(kind, b, before.records, rules).Ok?)
  {
    hide BlockEntries, Write, ValidRules;
    var init := chain[..|chain| - 1];
    BuiltTip(kind, start, init, rules);
    if init != [] { assert Follows(start.tip, init, |init| - 1); }
  }

  // ----- Transactions -----

  lemma {:induction false} TransactionsFit(b: IndexBlock, records: Records, n: nat)
    requires n <= |b.txs| && b.height <= U32_MAX
    ensures TransactionEntries(b, records, n).Ok? <==> n <= 0x1_0000_0000
  {
    hide TransactionEntry;
    if n > 0 { TransactionsFit(b, records, n - 1); }
  }

  /** A transaction index accepts every chain whose blocks follow one another and whose positions fit 32 bits. */
  lemma {:induction false} TransactionsBuildExactlyWhen(start: Index, chain: seq<IndexBlock>, rules: IndexRules)
    requires ValidRules(rules)
    ensures Build(TransactionIndex, start, chain, rules).Some? <==>
            Linked(start.tip, chain) && forall i | 0 <= i < |chain| :: |chain[i].txs| <= 0x1_0000_0000
    decreases |chain|
  {
    hide ValidRules, Follows, TransactionEntries;
    if chain != [] {
      var n := |chain| - 1;
      TransactionsBuildExactlyWhen(start, chain[..n], rules);
      LinkedInit(start.tip, chain);
      if Build(TransactionIndex, start, chain[..n], rules).Some? {
        BuildStep(TransactionIndex, start, chain, rules);
        if Follows(start.tip, chain, n) {
          TransactionsFit(chain[n], Build(TransactionIndex, start, chain[..n], rules).value.records, |chain[n].txs|);
        }
      }
    }
  }

  // ----- Filters -----

  /** A filter index accepts every chain whose blocks follow one another from genesis and have a filter each. */
  lemma {:induction false} FiltersBuildExactlyWhen(genesis: seq<Byte>, hash: Hash32, chain: seq<IndexBlock>,
                                                   rules: IndexRules)
    requires ValidRules(rules) && |genesis| <= U32_MAX
    ensures Build(BasicFilterIndex, GenesisIndex(genesis, hash, rules), chain, rules).Some? <==>
            Linked(IndexTip(0, hash), chain) && forall i | 0 <= i < |chain| :: rules.filter(chain[i]).Some?
    decreases |chain|
  {
    hide ValidRules, FilterEntries, GenesisIndex, HoldsFilter, Follows;
    var start := GenesisIndex(genesis, hash, rules);
    GenesisTip(genesis, hash, rules);
    if chain != [] {
      var n := |chain| - 1;
      FiltersBuildExactlyWhen(genesis, hash, chain[..n], rules);
      LinkedInit(start.tip, chain);
      if Build(BasicFilterIndex, start, chain[..n], rules).Some? {
        BuildStep(BasicFilterIndex, start, chain, rules);
        if Follows(start.tip, chain, n) {
          FollowsHeight(start.tip, chain, n);
          FiltersChainFromGenesis(genesis, hash, chain[..n], n, rules);
          FilterFollows(Build(BasicFilterIndex, start, chain[..n], rules).value.records, genesis, chain[..n], chain[n],
                        rules);
        }
      }
    }
  }

  lemma GenesisTip(genesis: seq<Byte>, hash: Hash32, rules: IndexRules)
    requires |genesis| <= U32_MAX
    ensures GenesisIndex(genesis, hash, rules).tip == IndexTip(0, hash)
  {
  }

  lemma FollowsHeight(tip: IndexTip, chain: seq<IndexBlock>, i: nat)
    requires i < |chain| && Follows(tip, chain, i)
    ensures chain[i].height == tip.height + 1 + i <= U32_MAX
  {
  }

  lemma FilterFollows(records: Records, genesis: seq<Byte>, chain: seq<IndexBlock>, b: IndexBlock, rules: IndexRules)
    requires ValidRules(rules) && b.height == |chain| + 1 <= U32_MAX
             && HoldsFilter(records, genesis, chain, |chain|, rules)
    ensures FilterEntries(b, records, rules).Ok? <==> rules.filter(b).Some?
  {
    hide EncodeFilterRecord, DecodeFilterRecord, Be32;
  }

  lemma HashKeysDiffer(a: Hash32, b: Hash32)
    ensures HashKey(a) == HashKey(b) <==> a == b
  {
    assert HashKey(a)[1..] == a && HashKey(b)[1..] == b;
  }

  /** A filter index finds the height of every block by its hash, unless a later block has it too. */
  lemma {:induction false} HeightByHash(genesis: seq<Byte>, hash: Hash32, chain: seq<IndexBlock>, h: nat,
                                        rules: IndexRules)
    requires ValidRules(rules) && |genesis| <= U32_MAX && 1 <= h <= |chain|
    requires Build(BasicFilterIndex, GenesisIndex(genesis, hash, rules), chain, rules).Some?
    requires forall i | h <= i < |chain| :: chain[i].hash != chain[h - 1].hash
    ensures h <= U32_MAX
    ensures Get(Build(BasicFilterIndex, GenesisIndex(genesis, hash, rules), chain, rules).value.records,
                HashKey(chain[h - 1].hash)) == Some(Be32(h))
    decreases |chain|
  {
    hide ValidRules, Write, GenesisIndex, EncodeFilterRecord, DecodeFilterRecord, Be32, HashKey;
    var start, n := GenesisIndex(genesis, hash, rules), |chain| - 1;
    LastBuilt(BasicFilterIndex, start, chain, rules);
    FiltersChainFromGenesis(genesis, hash, chain, 0, rules);
    var b, before := chain[n], Build(BasicFilterIndex, start, chain[..n], rules).value.records;
    var entries := FilterEntries(b, before, rules).value;
    if h == |chain| {
      FilterRowsAgree(b, before, rules);
      assert entries[1] in entries;
      SortedKey(before, entries, entries[1], rules);
    } else {
      HeightByHash(genesis, hash, chain[..n], h, rules);
      HashKeysDiffer(b.hash, chain[h - 1].hash);
      HeightKeyDiffers(b.height, chain[h - 1].hash);
      SortedOther(before, entries, HashKey(chain[h - 1].hash), rules);
    }
  }

  lemma HeightKeyDiffers(height: U32, hash: Hash32)
    ensures Be32(height) != HashKey(hash)
  {
    assert |Be32(height)| == 4 && |HashKey(hash)| == 33;
  }

  // ----- Spends -----

  /** An input of a transaction, coinbases aside, spends an outpoint. */
  predicate SpendsAt(chain: seq<IndexBlock>, key: seq<Byte>, b: nat, t: nat, i: nat) {
    b < |chain| && SpendsIn(chain[b], key, t, i)
  }

  predicate SpendsIn(b: IndexBlock, key: seq<Byte>, t: nat, i: nat) {
    1 <= t < |b.txs| && i < |b.txs[t].inputs| && b.txs[t].inputs[i] == key
  }

  /** No outpoint is spent twice in a block. */
  ghost predicate SpendsOnce(b: IndexBlock) {
    forall key, t: nat, i: nat, u: nat, j: nat | SpendsIn(b, key, t, i) && SpendsIn(b, key, u, j) :: t == u && i == j
  }

  /** No outpoint is spent twice on the chain. */
  ghost predicate NoDoubleSpend(chain: seq<IndexBlock>) {
    forall key, b: nat, t: nat, i: nat, c: nat, u: nat, j: nat |
      SpendsAt(chain, key, b, t, i) && SpendsAt(chain, key, c, u, j) :: b == c && t == u && i == j
  }

  predicate InputsFit(b: IndexBlock) {
    forall t | 1 <= t < |b.txs| :: |b.txs[t].inputs| <= 0x1_0000_0000
  }

  /** The listed spends of a block are its inputs, transaction by transaction. */
  lemma {:induction false} SpendPlace(b: IndexBlock, n: nat, k: nat) returns (t: nat, i: nat)
    requires n <= |b.txs| && k < |Spends(b, n)|
    ensures 1 <= t < n && i < |b.txs[t].inputs| && k == |Spends(b, t)| + i
    ensures Spends(b, n)[k] == Spend(b.txs[t].inputs[i], b.txs[t].txid, i)
  {
    var earlier := Spends(b, n - 1);
    if k < |earlier| {
      t, i := SpendPlace(b, n - 1, k);
    } else {
      t, i := n - 1, k - |earlier|;
    }
  }

  lemma {:induction false} SpendIndex(b: IndexBlock, n: nat, t: nat, i: nat)
    requires 1 <= t < n <= |b.txs| && i < |b.txs[t].inputs|
    ensures |Spends(b, t)| + i < |Spends(b, n)|
    ensures Spends(b, n)[|Spends(b, t)| + i] == Spend(b.txs[t].inputs[i], b.txs[t].txid, i)
  {
    if t < n - 1 { SpendIndex(b, n - 1, t, i); }
  }

  lemma {:induction false} SpendsGrow(b: IndexBlock, t: nat, u: nat)
    requires 1 <= t < u <= |b.txs|
    ensures |Spends(b, t)| + |b.txs[t].inputs| <= |Spends(b, u)|
  {
    if t < u - 1 { SpendsGrow(b, t, u - 1); }
  }

  lemma {:induction false} RowsBuild(b: IndexBlock, spends: seq<Spend>, records: Records, n: nat)
    requires n <= |spends| && b.height <= U32_MAX
    requires forall k | 0 <= k < n :: spends[k].input <= U32_MAX && spends[k].key !in records
    requires forall k, l | 0 <= k < l < n :: spends[k].key != spends[l].key
    ensures SpentEntries(b, spends, records, n).Ok?
  {
    hide SpentEntry;
    if n > 0 {
      RowsBuild(b, spends, records, n - 1);
      forall s | s in spends[..n - 1] ensures s.key != spends[n - 1].key {
        var k :| 0 <= k < n - 1 && spends[k] == s;
      }
    }
  }

  /** The rows of a block can be built exactly when it spends nothing twice and nothing recorded as spent. */
  lemma SpendsBuild(b: IndexBlock, records: Records)
    requires b.height <= U32_MAX
    ensures var spends := Spends(b, |b.txs|);
            SpentEntries(b, spends, records, |spends|).Ok? <==>
            && InputsFit(b) && SpendsOnce(b)
            && forall key, t: nat, i: nat | SpendsIn(b, key, t, i) :: key !in records
  {
    hide SpentEntries;
    var n := |b.txs|;
    var spends := Spends(b, n);
    if SpentEntries(b, spends, records, |spends|).Ok? {
      SpentRows(b, spends, records, |spends|);
      forall t | 1 <= t < n ensures |b.txs[t].inputs| <= 0x1_0000_0000 {
        if b.txs[t].inputs != [] { SpendIndex(b, n, t, |b.txs[t].inputs| - 1); }
      }
      forall key, t: nat, i: nat | SpendsIn(b, key, t, i) ensures key !in records { SpendIndex(b, n, t, i); }
      forall key, t: nat, i: nat, u: nat, j: nat | SpendsIn(b, key, t, i) && SpendsIn(b, key, u, j)
        ensures t == u && i == j
      {
        SpendIndex(b, n, t, i);
        SpendIndex(b, n, u, j);
        if t < u { SpendsGrow(b, t, u); } else if u < t { SpendsGrow(b, u, t); }
      }
    }
    if && InputsFit(b) && SpendsOnce(b)
       && forall key, t: nat, i: nat | SpendsIn(b, key, t, i) :: key !in records {
      forall k | 0 <= k < |spends| ensures spends[k].input <= U32_MAX && spends[k].key !in records {
        var t, i := SpendPlace(b, n, k);
        assert SpendsIn(b, spends[k].key, t, i);
      }
      forall k, l | 0 <= k < l < |spends| ensures spends[k].key != spends[l].key {
        var t, i := SpendPlace(b, n, k);
        var u, j := SpendPlace(b, n, l);
        assert SpendsIn(b, spends[k].key, t, i) && SpendsIn(b, spends[l].key, u, j);
      }
      RowsBuild(b, spends, records, |spends|);
    }
  }

  /** An outpoint is recorded exactly when some input of the chain spends it, and then with that input. */
  lemma {:induction false} RecordedSpend(chain: seq<IndexBlock>, key: seq<Byte>)
    ensures match SpentIn(chain, key)
            case None => forall b: nat, t: nat, i: nat :: !SpendsAt(chain, key, b, t, i)
            case Some((block, s)) =>
              exists b: nat, t: nat, i: nat :: SpendsAt(chain, key, b, t, i) && block == chain[b]
                                               && s == Spend(key, chain[b].txs[t].txid, i)
    decreases |chain|
  {
    if chain != [] {
      var n := |chain| - 1;
      var last := chain[n];
      var spends := Spends(last, |last.txs|);
      match SpendOf(spends, key, |spends|) {
        case Some(s) =>
          var k :| 0 <= k < |spends| && spends[k] == s;
          var t, i := SpendPlace(last, |last.txs|, k);
          assert SpendsAt(chain, key, n, t, i);
        case None =>
          forall t: nat, i: nat ensures !SpendsAt(chain, key, n, t, i) {
            if SpendsIn(last, key, t, i) { SpendIndex(last, |last.txs|, t, i); }
          }
          RecordedSpend(chain[..n], key);
          InitSpends(chain);
      }
    }
  }

  lemma InitSpends(chain: seq<IndexBlock>)
    requires chain != []
    ensures var n := |chain| - 1;
            forall key, b: nat, t: nat, i: nat | b < n ::
              SpendsAt(chain, key, b, t, i) <==> SpendsAt(chain[..n], key, b, t, i)
  {
  }

  /** Where an outpoint is recorded as spent. */
  lemma SpendIsRecorded(start: Index, chain: seq<IndexBlock>, key: seq<Byte>, b: nat, t: nat, i: nat, rules: IndexRules)
    requires ValidRules(rules) && start.records == map[] && Build(SpentOutputIndex, start, chain, rules).Some?
    requires NoDoubleSpend(chain) && SpendsAt(chain, key, b, t, i)
    ensures chain[b].height <= U32_MAX && i <= U32_MAX
    ensures Get(Build(SpentOutputIndex, start, chain, rules).value.records, key) ==
            Some(EncodeSpentLocation(SpentLocation(chain[b].txs[t].txid, i, chain[b].height, chain[b].hash)))
  {
    hide ValidRules, EncodeSpentLocation, Build, SpentIn;
    SpenderLookup(start, chain, key, rules);
    RecordedSpend(chain, key);
  }

  lemma DoubleSpendInit(chain: seq<IndexBlock>)
    requires chain != []
    ensures var n := |chain| - 1;
            NoDoubleSpend(chain) <==>
            && NoDoubleSpend(chain[..n]) && SpendsOnce(chain[n])
            && forall key, t: nat, i: nat | SpendsIn(chain[n], key, t, i) ::
                 forall b: nat, u: nat, j: nat :: !SpendsAt(chain[..n], key, b, u, j)
  {
    hide SpendsIn;
    var n := |chain| - 1;
    InitSpends(chain);
    if NoDoubleSpend(chain) {
      forall key, t: nat, i: nat, u: nat, j: nat | SpendsIn(chain[n], key, t, i) && SpendsIn(chain[n], key, u, j)
        ensures t == u && i == j
      {
        assert SpendsAt(chain, key, n, t, i) && SpendsAt(chain, key, n, u, j);
      }
      forall key, t: nat, i: nat, b: nat, u: nat, j: nat | SpendsIn(chain[n], key, t, i)
        ensures !SpendsAt(chain[..n], key, b, u, j)
      {
        assert SpendsAt(chain, key, n, t, i);
      }
    }
  }

  /**
   A spent-output index accepts a chain exactly when its blocks follow one
   another and no outpoint is spent twice on it.
   */
  lemma {:induction false} SpendsBuildExactlyWhen(start: Index, chain: seq<IndexBlock>, rules: IndexRules)
    requires ValidRules(rules) && start.records == map[]
    ensures Build(SpentOutputIndex, start, chain, rules).Some? <==>
            Linked(start.tip, chain) && NoDoubleSpend(chain) && forall i | 0 <= i < |chain| :: InputsFit(chain[i])
    decreases |chain|
  {
    hide ValidRules, Follows, SpentEntries, NoDoubleSpend, SpendsOnce, InputsFit, SpendsIn;
    if chain == [] {
      NothingSpent(chain);
    } else {
      var n := |chain| - 1;
      SpendsBuildExactlyWhen(start, chain[..n], rules);
      LinkedInit(start.tip, chain);
      DoubleSpendInit(chain);
      if Build(SpentOutputIndex, start, chain[..n], rules).Some? {
        BuildStep(SpentOutputIndex, start, chain, rules);
        if Follows(start.tip, chain, n) {
          var records := Build(SpentOutputIndex, start, chain[..n], rules).value.records;
          SpendsBuild(chain[n], records);
          RecordedKeys(start, chain[..n], rules);
        }
      }
    }
  }

  lemma NothingSpent(chain: seq<IndexBlock>)
    requires chain == []
    ensures NoDoubleSpend(chain)
  {
  }

  lemma RecordedKeys(start: Index, chain: seq<IndexBlock>, rules: IndexRules)
    requires ValidRules(rules) && start.records == map[] && Build(SpentOutputIndex, start, chain, rules).Some?
    ensures forall key :: key in Build(SpentOutputIndex, start, chain, rules).value.records <==>
                          exists b: nat, t: nat, i: nat :: SpendsAt(chain, key, b, t, i)
  {
    hide ValidRules, EncodeSpentLocation, Build, SpentIn, SpendsAt;
    forall key ensures key in Build(SpentOutputIndex, start, chain, rules).value.records <==>
                       exists b: nat, t: nat, i: nat :: SpendsAt(chain, key, b, t, i)
    {
      SpenderLookup(start, chain, key, rules);
      RecordedSpend(chain, key);
    }
  }
}
