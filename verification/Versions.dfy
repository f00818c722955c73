/**
 The versioned view of a whole batch: what every block does to the coin set is
 read off its raw transactions, merged in block order, and each block then sees
 the state its predecessors leave without waiting for them.
 */
module Versions {
  import opened Basics
  import opened Coins
  import opened Transactions
  import opened Blocks
  import opened Overlay

  /** What one block's raw transactions create and spend. */
  datatype TxDelta = TxDelta(created: seq<(OutPoint, Coin)>, spent: seq<OutPoint>)

  /** One value a key takes, tagged by the block that wrote it. */
  datatype Version = Version(tag: nat, value: Option<Coin>)

  type CoinVersions = map<OutPoint, seq<Version>>

  // ----- Raw deltas -----

  /** What the first `n` transactions create when the first one is taken for the coinbase. */
  function RawCreated(c: Candidate, n: nat): Utxos
    requires n <= |c.block.txs|
  {
    if n == 0 then map[]
    else RawCreated(c, n - 1) + ToMap(CreatedFrom(c.block.txs[n - 1], 0, EnvOf(c), n == 1))
  }

  lemma {:induction false} RawIsCreated(c: Candidate, n: nat)
    requires n <= |c.block.txs| && WellFormed(c.block.txs)
    ensures RawCreated(c, n) == Created(c, n)
  {
    if n > 0 {
      RawIsCreated(c, n - 1);
      assert IsCoinbase(c.block.txs[n - 1]) <==> n == 1;
    }
  }

  lemma MergeUpdate<K, V>(a: map<K, V>, b: map<K, V>, k: K, v: V)
    ensures (a + b)[k := v] == a + b[k := v]
  {
  }

  lemma {:induction false} ToMapConcat<K(!new), V>(a: seq<(K, V)>, b: seq<(K, V)>)
    ensures ToMap(a + b) == ToMap(a) + ToMap(b)
  {
    if b == [] {
      assert a + b == a;
      assert ToMap(b) == map[];
    } else {
      hide ToMap;
      var n := |b| - 1;
      var init := b[..n];
      ToMapConcat(a, init);
      ToMapAppend(init, b[n]);
      ToMapAppend(a + init, b[n]);
      assert a + b == (a + init) + [b[n]] && b == init + [b[n]];
      MergeUpdate(ToMap(a), ToMap(init), b[n].0, b[n].1);
    }
  }

  method DeriveDelta(c: Candidate) returns (delta: TxDelta)
    ensures ToMap(delta.created) == RawCreated(c, |c.block.txs|)
    ensures ToSet(delta.spent) == Spent(c.block.txs, |c.block.txs|)
  {
    hide ToMap, ToSet, CreatedFrom, RawCreated, Spent;
    var created: seq<(OutPoint, Coin)>, spent: seq<OutPoint> := [], [];
    NothingDerived(c);
    for n := 0 to |c.block.txs|
      invariant ToMap(created) == RawCreated(c, n)
      invariant ToSet(spent) == Spent(c.block.txs, n)
    {
      var tx := c.block.txs[n];
      OneMoreDerived(c, n, created, spent);
      if n != 0 { spent := spent + Outpoints(tx.inputs); }
      created := created + CreatedFrom(tx, 0, EnvOf(c), n == 0);
    }
    return TxDelta(created, spent);
  }

  lemma NothingDerived(c: Candidate)
    ensures ToMap<OutPoint, Coin>([]) == RawCreated(c, 0) && ToSet<OutPoint>([]) == Spent(c.block.txs, 0)
  {
  }

  lemma OneMoreDerived(c: Candidate, n: nat, created: seq<(OutPoint, Coin)>, spent: seq<OutPoint>)
    requires n < |c.block.txs| && ToMap(created) == RawCreated(c, n) && ToSet(spent) == Spent(c.block.txs, n)
    ensures ToMap(created + CreatedFrom(c.block.txs[n], 0, EnvOf(c), n == 0)) == RawCreated(c, n + 1)
    ensures ToSet(if n == 0 then spent else spent + Outpoints(c.block.txs[n].inputs)) == Spent(c.block.txs, n + 1)
  {
    hide ToMap, CreatedFrom, Outpoints;
    ToMapConcat(created, CreatedFrom(c.block.txs[n], 0, EnvOf(c), n == 0));
    assert ToSet(spent + Outpoints(c.block.txs[n].inputs)) == ToSet(spent) + ToSet(Outpoints(c.block.txs[n].inputs));
  }

  /** The coins the first `i` blocks of a batch leave, by their raw transactions alone. */
  function BatchState(base: Utxos, cs: seq<Candidate>, i: nat): Utxos
    requires i <= |cs|
  {
    if i == 0 then base
    else
      var c := cs[i - 1];
      Settle(BatchState(base, cs, i - 1), RawCreated(c, |c.block.txs|), Spent(c.block.txs, |c.block.txs|))
  }

  // ----- The version table -----

  function Entries(versions: CoinVersions, o: OutPoint): seq<Version> {
    if o in versions then versions[o] else []
  }

  /** The latest version written by a block before `upto`. */
  function Latest(entries: seq<Version>, upto: nat): Option<Option<Coin>> {
    if entries == [] then None
    else
      var last := entries[|entries| - 1];
      if last.tag < upto then Some(last.value) else Latest(entries[..|entries| - 1], upto)
  }

  predicate TagsBelow(entries: seq<Version>, k: nat) {
    forall i | 0 <= i < |entries| :: entries[i].tag < k
  }

  predicate Below(versions: CoinVersions, k: nat) {
    forall o | o in versions :: TagsBelow(versions[o], k)
  }

  function Push(versions: CoinVersions, o: OutPoint, version: Version): (pushed: CoinVersions)
    ensures forall k :: Entries(pushed, k) == if k == o then Entries(versions, k) + [version] else Entries(versions, k)
  {
    versions[o := Entries(versions, o) + [version]]
  }

  lemma LatestOfPush(versions: CoinVersions, o: OutPoint, version: Version, k: OutPoint, upto: nat)
    ensures Latest(Entries(Push(versions, o, version), k), upto) ==
            if k == o && version.tag < upto then Some(version.value) else Latest(Entries(versions, k), upto)
  {
    var entries := Entries(versions, o);
    assert (entries + [version])[..|entries|] == entries;
  }

  /** What a table answers after block `k` wrote the given changes on top of `versions`. */
  ghost predicate Extends(extended: CoinVersions, versions: CoinVersions, k: nat, created: Utxos, spent: set<OutPoint>)
  {
    && Below(extended, k + 1)
    && (forall o, upto | 0 <= upto <= k :: Latest(Entries(extended, o), upto) == Latest(Entries(versions, o), upto))
    && (forall o :: Latest(Entries(extended, o), k + 1) ==
                    if o in spent then Some(None)
                    else if o in created then Some(Some(created[o])) else Latest(Entries(versions, o), k))
  }

  lemma {:induction false} LatestBelow(entries: seq<Version>, k: nat)
    requires TagsBelow(entries, k)
    ensures Latest(entries, k + 1) == Latest(entries, k)
  {
    if entries != [] { LatestBelow(entries[..|entries| - 1], k); }
  }

  lemma NothingExtends(versions: CoinVersions, k: nat)
    requires Below(versions, k)
    ensures Extends(versions, versions, k, map[], {})
  {
    forall o ensures Latest(Entries(versions, o), k + 1) == Latest(Entries(versions, o), k) {
      LatestBelow(Entries(versions, o), k);
    }
  }

  lemma CreatedExtends(extended: CoinVersions, versions: CoinVersions, k: nat, created: Utxos, o: OutPoint, coin: Coin)
    requires Extends(extended, versions, k, created, {})
    ensures Extends(Push(extended, o, Version(k, Some(coin))), versions, k, created[o := coin], {})
  {
    hide Latest, Push;
    var pushed := Push(extended, o, Version(k, Some(coin)));
    PushStaysBelow(extended, o, Version(k, Some(coin)), k + 1);
    forall key, upto: nat ensures Latest(Entries(pushed, key), upto) ==
                             if key == o && k < upto then Some(Some(coin)) else Latest(Entries(extended, key), upto)
    {
      LatestOfPush(extended, o, Version(k, Some(coin)), key, upto);
    }
  }

  lemma SpentExtends(extended: CoinVersions, versions: CoinVersions, k: nat, created: Utxos, spent: set<OutPoint>,
                     o: OutPoint)
    requires Extends(extended, versions, k, created, spent)
    ensures Extends(Push(extended, o, Version(k, None)), versions, k, created, spent + {o})
  {
    hide Latest, Push;
    var pushed := Push(extended, o, Version(k, None));
    PushStaysBelow(extended, o, Version(k, None), k + 1);
    forall key, upto: nat ensures Latest(Entries(pushed, key), upto) ==
                             if key == o && k < upto then Some(None) else Latest(Entries(extended, key), upto)
    {
      LatestOfPush(extended, o, Version(k, None), key, upto);
    }
  }

  lemma PushStaysBelow(versions: CoinVersions, o: OutPoint, version: Version, k: nat)
    requires Below(versions, k) && version.tag < k
    ensures Below(Push(versions, o, version), k)
  {
    var pushed := Push(versions, o, version);
    forall key | key in pushed ensures TagsBelow(pushed[key], k) {
      assert pushed[key] == Entries(pushed, key);
    }
  }

  /** Appends what block `k` creates and then what it spends. */
  method MergeDelta(versions: CoinVersions, k: nat, delta: TxDelta) returns (merged: CoinVersions)
    requires Below(versions, k)
    ensures Extends(merged, versions, k, ToMap(delta.created), ToSet(delta.spent))
  {
    hide Extends, Push;
    merged := versions;
    NothingExtends(versions, k);
    for i := 0 to |delta.created|
      invariant Extends(merged, versions, k, ToMap(delta.created[..i]), {})
    {
      CreatedExtends(merged, versions, k, ToMap(delta.created[..i]), delta.created[i].0, delta.created[i].1);
      assert delta.created[..i + 1][..i] == delta.created[..i];
      merged := Push(merged, delta.created[i].0, Version(k, Some(delta.created[i].1)));
    }
    assert delta.created[..|delta.created|] == delta.created;
    assert ToSet(delta.spent[..0]) == {};
    for i := 0 to |delta.spent|
      invariant Extends(merged, versions, k, ToMap(delta.created), ToSet(delta.spent[..i]))
    {
      SpentExtends(merged, versions, k, ToMap(delta.created), ToSet(delta.spent[..i]), delta.spent[i]);
      assert ToSet(delta.spent[..i + 1]) == ToSet(delta.spent[..i]) + {delta.spent[i]};
      merged := Push(merged, delta.spent[i], Version(k, None));
    }
    assert delta.spent[..|delta.spent|] == delta.spent;
  }

  /** What a block at position `upto` of the batch is answered. */
  function Answer(base: Utxos, versions: CoinVersions, o: OutPoint, upto: nat): Option<Coin> {
    match Latest(Entries(versions, o), upto)
    case Some(value) => value
    case None => Get(base, o)
  }

  /** The table answers every block among the first `k` as its predecessors leave the coins. */
  ghost predicate Represents(versions: CoinVersions, base: Utxos, cs: seq<Candidate>, k: nat)
    requires k <= |cs|
  {
    && Below(versions, k)
    && (forall o, upto | 0 <= upto <= k :: Answer(base, versions, o, upto) == Get(BatchState(base, cs, upto), o))
  }

  /** Up to block `k` nothing changes; after it, the answers are those of the settled coins. */
  lemma AnswersExtend(extended: CoinVersions, versions: CoinVersions, k: nat, created: Utxos, spent: set<OutPoint>,
                      base: Utxos, before: Utxos, o: OutPoint)
    requires Extends(extended, versions, k, created, spent)
    requires Answer(base, versions, o, k) == Get(before, o)
    ensures forall upto | 0 <= upto <= k :: Answer(base, extended, o, upto) == Answer(base, versions, o, upto)
    ensures Answer(base, extended, o, k + 1) == Get(Settle(before, created, spent), o)
  {
    hide Latest, Entries, Settle, Below;
  }

  lemma StillRepresents(extended: CoinVersions, versions: CoinVersions, base: Utxos, cs: seq<Candidate>, k: nat)
    requires k < |cs| && Represents(versions, base, cs, k)
    requires Extends(extended, versions, k, RawCreated(cs[k], |cs[k].block.txs|),
                     Spent(cs[k].block.txs, |cs[k].block.txs|))
    ensures Represents(extended, base, cs, k + 1)
  {
    var before, after := BatchState(base, cs, k), BatchState(base, cs, k + 1);
    var created, spent := RawCreated(cs[k], |cs[k].block.txs|), Spent(cs[k].block.txs, |cs[k].block.txs|);
    assert after == Settle(before, created, spent);
    assert Below(extended, k + 1);
    hide Extends, Answer, BatchState, Settle, RawCreated, Spent, Below;
    forall o, upto | 0 <= upto <= k + 1
      ensures Answer(base, extended, o, upto) == Get(BatchState(base, cs, upto), o)
    {
      AnswersExtend(extended, versions, k, created, spent, base, before, o);
      if upto <= k { assert Answer(base, versions, o, upto) == Get(BatchState(base, cs, upto), o); }
    }
  }

  /** Merges the deltas of every block, in block order. */
  method BuildVersions(deltas: seq<TxDelta>, ghost base: Utxos, ghost cs: seq<Candidate>)
    returns (versions: CoinVersions)
    requires |deltas| == |cs|
    requires forall k | 0 <= k < |cs| :: ToMap(deltas[k].created) == RawCreated(cs[k], |cs[k].block.txs|)
                                         && ToSet(deltas[k].spent) == Spent(cs[k].block.txs, |cs[k].block.txs|)
    ensures Represents(versions, base, cs, |cs|)
  {
    hide RawCreated, Spent, Extends, ToMap;
    versions := map[];
    for k := 0 to |deltas|
      invariant Represents(versions, base, cs, k)
    {
      var merged := MergeDelta(versions, k, deltas[k]);
      assert Represents(merged, base, cs, k + 1) by {
        hide Represents;
        StillRepresents(merged, versions, base, cs, k);
      }
      versions := merged;
    }
  }

  /** A batch's history as of one block, over the batch overlay. */
  class BatchVersionView {
    const versions: CoinVersions
    const upto: nat
    const base: UtxoOverlay

    constructor (versions: CoinVersions, upto: nat, base: UtxoOverlay)
      ensures this.versions == versions && this.upto == upto && this.base == base
    {
      this.versions, this.upto, this.base := versions, upto, base;
    }

    /** Scans the versions of a key, latest first. */
    method Lookup(o: OutPoint) returns (answer: Option<Option<Coin>>)
      ensures answer == Latest(Entries(versions, o), upto)
    {
      if o !in versions { return None; }
      var entries := versions[o];
      var i := |entries|;
      assert entries[..i] == entries;
      while i > 0
        invariant i <= |entries| && Latest(entries, upto) == Latest(entries[..i], upto)
      {
        i := i - 1;
        assert entries[..i + 1][..i] == entries[..i];
        if entries[i].tag < upto { return Some(entries[i].value); }
      }
      return None;
    }

    /** The answer of the latest earlier block, or of the batch overlay. */
    method Fetch(o: OutPoint) returns (found: Option<Coin>)
      requires base.Valid()
      modifies base.shards
      ensures base.Valid() && base.View() == old(base.View())
      ensures found == Answer(base.View(), versions, o, upto)
    {
      hide UtxoOverlay.Valid, UtxoOverlay.At, UtxoOverlay.View, UtxoOverlay.Cached, Latest;
      var known := Lookup(o);
      match known {
        case Some(value) => return value;
        case None => found := base.Load(o);
      }
    }
  }
}
