/**
 The end of a batch: script verdicts are drained, the per-block net changes are
 folded into one, and coins, undo records and tip commit together.
 */
module BatchCommit {
  import opened Basics
  import opened Coins
  import opened Transactions
  import opened Blocks
  import opened Overlay
  import opened Connect
  import opened Versions
  import opened Delta
  import opened Batch
  import opened Reorg

  /** One block's part of a commit. */
  datatype Transition = Transition(hash: nat, spent: set<OutPoint>, created: Utxos, undos: seq<Undo>)

  // ----- Folding net changes -----

  /** One block's net change leads from `view` to `next`. */
  ghost predicate Leads(view: Utxos, t: Transition, next: Utxos) {
    && t.spent <= view.Keys
    && t.created.Keys !! (view.Keys - t.spent)
    && Change(view, t.spent, t.created) == next
  }

  ghost predicate Chained(views: seq<Utxos>, ts: seq<Transition>) {
    && |views| == |ts| + 1
    && forall j | 0 <= j < |ts| :: Leads(views[j], ts[j], views[j + 1])
  }

  /** Folded so far: what is gone from the base and what was added to it. */
  ghost predicate Accumulates(base: Utxos, spent: set<OutPoint>, created: Utxos, view: Utxos) {
    && spent <= base.Keys
    && created.Keys !! (base.Keys - spent)
    && Change(base, spent, created) == view
  }

  /** A spent key was created earlier in the batch, or is spent from the base for the first time. */
  lemma SpendFolds(base: Utxos, spent: set<OutPoint>, created: Utxos, view: Utxos, o: OutPoint)
    requires Accumulates(base, spent, created, view) && o in view
    ensures if o in created then Accumulates(base, spent, created - {o}, view - {o})
            else o !in spent && Accumulates(base, spent + {o}, created, view - {o})
  {
    hide Change;
    assert Get(view, o) == Get(Change(base, spent, created), o);
    SameAnswers(if o in created then Change(base, spent, created - {o})
                else Change(base, spent + {o}, created), view - {o});
  }

  lemma CreateFolds(base: Utxos, spent: set<OutPoint>, created: Utxos, view: Utxos, o: OutPoint, coin: Coin)
    requires Accumulates(base, spent, created, view) && o !in view
    ensures o !in created && Accumulates(base, spent, created[o := coin], view[o := coin])
  {
    hide Change;
    assert Get(view, o) == Get(Change(base, spent, created), o);
    SameAnswers(Change(base, spent, created[o := coin]), view[o := coin]);
  }

  method FoldSpent(spent: set<OutPoint>, created: Utxos, keys: seq<OutPoint>, ghost base: Utxos, ghost view: Utxos)
    returns (r: Result<(set<OutPoint>, Utxos), UtxoError>)
    requires forall i, j | 0 <= i < j < |keys| :: keys[i] != keys[j]
    ensures Accumulates(base, spent, created, view) && ToSet(keys) <= view.Keys
            ==> r.Ok? && Accumulates(base, r.value.0, r.value.1, view - ToSet(keys))
  {
    hide Accumulates;
    ghost var sound := Accumulates(base, spent, created, view) && ToSet(keys) <= view.Keys;
    var s, c := spent, created;
    assert view - ToSet(keys[..0]) == view;
    for i := 0 to |keys|
      invariant sound ==> Accumulates(base, s, c, view - ToSet(keys[..i]))
    {
      var o := keys[i];
      if sound {
        assert o in ToSet(keys) && o !in ToSet(keys[..i]);
        SpendFolds(base, s, c, view - ToSet(keys[..i]), o);
      }
      if o in c {
        c := c - {o};
      } else if o in s {
        return Err(DuplicateSpend(o));
      } else {
        s := s + {o};
      }
      assert view - ToSet(keys[..i + 1]) == view - ToSet(keys[..i]) - {o};
    }
    assert keys[..|keys|] == keys;
    return Ok((s, c));
  }

  /** A coin set with some of the added coins in place. */
  function PartlyAdded(view: Utxos, added: Utxos, keys: seq<OutPoint>): Utxos {
    view + Restrict(added, ToSet(keys))
  }

  lemma OneMoreAdded(view: Utxos, added: Utxos, keys: seq<OutPoint>, i: nat)
    requires i < |keys| && keys[i] in added && keys[i] !in view
    requires forall i, j | 0 <= i < j < |keys| :: keys[i] != keys[j]
    ensures keys[i] !in PartlyAdded(view, added, keys[..i])
    ensures PartlyAdded(view, added, keys[..i + 1]) == PartlyAdded(view, added, keys[..i])[keys[i] := added[keys[i]]]
  {
    assert ToSet(keys[..i + 1]) == ToSet(keys[..i]) + {keys[i]};
    hide ToSet;
    SameAnswers(PartlyAdded(view, added, keys[..i + 1]),
                PartlyAdded(view, added, keys[..i])[keys[i] := added[keys[i]]]);
  }

  lemma NoneAndAllAdded(view: Utxos, added: Utxos, keys: seq<OutPoint>)
    requires ToSet(keys) == added.Keys
    ensures PartlyAdded(view, added, keys[..0]) == view && PartlyAdded(view, added, keys[..|keys|]) == view + added
  {
    assert keys[..|keys|] == keys;
    assert Restrict(added, ToSet(keys)) == added;
    assert Restrict(added, ToSet(keys[..0])) == map[];
  }

  method FoldCreated(spent: set<OutPoint>, created: Utxos, added: Utxos, keys: seq<OutPoint>, ghost base: Utxos,
                     ghost view: Utxos)
    returns (r: Result<Utxos, UtxoError>)
    requires ToSet(keys) == added.Keys && forall i, j | 0 <= i < j < |keys| :: keys[i] != keys[j]
    ensures Accumulates(base, spent, created, view) && added.Keys !! view.Keys
            ==> r.Ok? && Accumulates(base, spent, r.value, view + added)
  {
    hide Accumulates, PartlyAdded;
    ghost var sound := Accumulates(base, spent, created, view) && added.Keys !! view.Keys;
    var c := created;
    NoneAndAllAdded(view, added, keys);
    for i := 0 to |keys|
      invariant sound ==> Accumulates(base, spent, c, PartlyAdded(view, added, keys[..i]))
    {
      var o := keys[i];
      assert o in ToSet(keys);
      if sound {
        OneMoreAdded(view, added, keys, i);
        CreateFolds(base, spent, c, PartlyAdded(view, added, keys[..i]), o, added[o]);
      }
      if o in c { return Err(Duplicate(o)); }
      c := c[o := added[o]];
    }
    return Ok(c);
  }

  lemma SpendThenCreate(view: Utxos, t: Transition, next: Utxos)
    requires Leads(view, t, next)
    ensures (view - t.spent) + t.created == next && t.created.Keys !! (view - t.spent).Keys
  {
  }

  /** Folds the net changes of consecutive blocks into one. */
  method FoldTransitions(ts: seq<Transition>, ghost base: Utxos, ghost views: seq<Utxos>)
    returns (r: Result<(set<OutPoint>, Utxos), UtxoError>)
    requires |views| == |ts| + 1 && views[0] == base
    ensures Chained(views, ts) ==> r.Ok? && Accumulates(base, r.value.0, r.value.1, views[|ts|])
  {
    hide Leads, Accumulates;
    NothingFolded(base);
    var s: set<OutPoint>, c: Utxos := {}, map[];
    for j := 0 to |ts|
      invariant Chained(views, ts) ==> Accumulates(base, s, c, views[j])
    {
      var keys := Listed(ts[j].spent);
      if Chained(views, ts) {
        assert Leads(views[j], ts[j], views[j + 1]);
        SpendThenCreate(views[j], ts[j], views[j + 1]);
        SpentPresent(views[j], ts[j], views[j + 1]);
      }
      var folded := FoldSpent(s, c, keys, base, views[j]);
      if folded.Err? { return Err(folded.error); }
      s := folded.value.0;
      var added := Listed(ts[j].created.Keys);
      var created := FoldCreated(s, folded.value.1, ts[j].created, added, base, views[j] - ts[j].spent);
      if created.Err? { return Err(created.error); }
      c := created.value;
    }
    return Ok((s, c));
  }

  lemma SpentPresent(view: Utxos, t: Transition, next: Utxos)
    requires Leads(view, t, next)
    ensures t.spent <= view.Keys
  {
  }

  lemma NothingFolded(base: Utxos)
    ensures Accumulates(base, {}, map[], base)
  {
    SameAnswers(Change(base, {}, map[]), base);
  }

  // ----- Undo records and the commit -----

  /** One block's undo records, keyed by its hash. */
  datatype UndoRow = UndoRow(hash: nat, undos: seq<Undo>)

  function UndoRows(ts: seq<Transition>): (rows: seq<UndoRow>)
    ensures |rows| == |ts| && forall k | 0 <= k < |ts| :: rows[k] == UndoRow(ts[k].hash, ts[k].undos)
  {
    seq(|ts|, k requires 0 <= k < |ts| => UndoRow(ts[k].hash, ts[k].undos))
  }

  /** The first `n` rows inserted, refused at the first hash already present. */
  function InsertUndos(undos: map<nat, seq<Undo>>, rows: seq<UndoRow>, n: nat): Result<map<nat, seq<Undo>>, nat>
    requires n <= |rows|
  {
    if n == 0 then Ok(undos)
    else match InsertUndos(undos, rows, n - 1)
      case Err(hash) => Err(hash)
      case Ok(inserted) =>
        var row := rows[n - 1];
        if row.hash in inserted then Err(row.hash) else Ok(inserted[row.hash := row.undos])
  }

  lemma {:induction false} InsertStops(undos: map<nat, seq<Undo>>, rows: seq<UndoRow>, n: nat, m: nat)
    requires n <= m <= |rows| && InsertUndos(undos, rows, n).Err?
    ensures InsertUndos(undos, rows, m) == InsertUndos(undos, rows, n)
  {
    if n < m { InsertStops(undos, rows, n, m - 1); }
  }

  /** The store once every block is in, or why none is. */
  function Committed(s: Store, rows: seq<UndoRow>, view: Utxos): Result<Store, StoreError> {
    match InsertUndos(s.undos, rows, |rows|)
    case Err(hash) => Err(UndoExists(hash))
    case Ok(undos) =>
      if rows == [] then Ok(s.(utxos := view))
      else Ok(Store(view, Tip(s.tip.height + |rows|, rows[|rows| - 1].hash), undos))
  }

  /** Commits a contiguous group of blocks in one transaction: all of it or nothing. */
  method CommitConnectBatch(store: ChainStore, ts: seq<Transition>, ghost views: seq<Utxos>)
    returns (error: Option<StoreError>)
    requires Chained(views, ts) && views[0] == store.utxos
    modifies store
    ensures match Committed(old(store.Value()), UndoRows(ts), views[|ts|])
            case Err(e) => error == Some(e) && store.Value() == old(store.Value())
            case Ok(next) => error == None && store.Value() == next
  {
    hide Leads, Change;
    if ts == [] { return None; }
    ghost var base := store.utxos;
    var folded := FoldTransitions(ts, base, views);
    var spent, created := folded.value.0, folded.value.1;
    var inserted := store.undos;
    for n := 0 to |ts|
      modifies {}
      invariant InsertUndos(store.undos, UndoRows(ts), n) == Ok(inserted)
    {
      if ts[n].hash in inserted {
        InsertStops(store.undos, UndoRows(ts), n + 1, |ts|);
        return Some(UndoExists(ts[n].hash));
      }
      inserted := inserted[ts[n].hash := ts[n].undos];
    }
    var refused := store.ApplyChanges(spent, created);
    store.undos := inserted;
    store.tip := Tip(store.tip.height + |ts|, ts[|ts| - 1].hash);
    return None;
  }

  // ----- The whole batch -----

  lemma {:induction false} SeqPrefix(base: Utxos, cs: seq<Candidate>, k: nat, n: nat, prevalidated: bool,
                                     rules: BlockRules)
    requires k <= n <= |cs| && Prevalidated(cs, prevalidated, rules) && SeqConnect(base, cs, n, prevalidated, rules).Ok?
    ensures SeqConnect(base, cs, k, prevalidated, rules).Ok?
    ensures SeqConnect(base, cs, k, prevalidated, rules).value.ready ==
            SeqConnect(base, cs, n, prevalidated, rules).value.ready[..k]
  {
    hide ConnectOne;
    if k < n { SeqPrefix(base, cs, k, n - 1, prevalidated, rules); }
  }

  predicate AllResolved(ready: seq<Ready>) {
    forall k | 0 <= k < |ready| :: DoneResolved(ready[k].run.done)
  }

  predicate DoneResolved(done: seq<Prepared>) {
    forall i | 0 <= i < |done| :: Resolved(done[i])
  }

  /** Block `k` of a batch that connects, from the raw batch state. */
  lemma ReadyAt(base: Utxos, cs: seq<Candidate>, k: nat, prevalidated: bool, rules: BlockRules)
    requires k < |cs| && Prevalidated(cs, prevalidated, rules) && BatchFresh(base, cs, prevalidated, rules)
    requires SeqConnect(base, cs, |cs|, prevalidated, rules).Ok?
    ensures var ready := SeqConnect(base, cs, |cs|, prevalidated, rules).value.ready[k];
            && FreshCandidate(BatchState(base, cs, k), cs[k])
            && Prepare(BatchState(base, cs, k), cs[k], prevalidated, rules) == Ok(ready)
            && ready.run.view == BatchState(base, cs, k + 1)
            && DoneResolved(ready.run.done)
  {
    hide SeqConnect, BatchFresh, Prepare, FreshCandidate, BatchState, DoneResolved;
    SeqPrefix(base, cs, k + 1, |cs|, prevalidated, rules);
    SeqStep(base, cs, k, prevalidated, rules);
    BatchSeesSequential(base, cs, k, prevalidated, rules);
    BatchSeesSequential(base, cs, k + 1, prevalidated, rules);
    FreshPreparedResolved(BatchState(base, cs, k), cs[k], prevalidated, rules);
  }

  lemma FreshPreparedResolved(view: Utxos, c: Candidate, prevalidated: bool, rules: BlockRules)
    requires prevalidated ==> StructureError(c, rules) == None
    requires FreshCandidate(view, c) && Prepare(view, c, prevalidated, rules).Ok?
    ensures DoneResolved(Prepare(view, c, prevalidated, rules).value.run.done)
  {
    hide Prepare, FreshCandidate, Revertible, RevertAll, BlockUndos;
    DisconnectInvertsConnect(view, c, prevalidated, rules);
  }

  /** The commit record of a prepared block. */
  function TransitionOf(c: Candidate, p: PreparedBlock): Transition
    requires DoneResolved(p.done)
  {
    var net := NetChanges(p.state, p.spentFromBase);
    Transition(c.block.hash, net.0, net.1, (if p.removed == map[] then [] else [Undo(p.removed, {})]) + UndosOf(p.done))
  }

  /** A connecting block's commit record leads from its predecessors' coins to its own. */
  lemma TransitionLeads(slot: Slot, base: Utxos, cs: seq<Candidate>, k: nat, prevalidated: bool, rules: BlockRules)
    requires k < |cs| && Prevalidated(cs, prevalidated, rules) && BatchFresh(base, cs, prevalidated, rules)
    requires SeqConnect(base, cs, |cs|, prevalidated, rules).Ok?
    requires SlotPrepared(slot, base, cs, k, prevalidated, rules)
    ensures slot.Ok? && DoneResolved(slot.value.done)
    ensures DoneResolved(SeqConnect(base, cs, |cs|, prevalidated, rules).value.ready[k].run.done)
    ensures var t := TransitionOf(cs[k], slot.value);
            && Leads(BatchState(base, cs, k), t, BatchState(base, cs, k + 1))
            && t.hash == cs[k].block.hash
            && t.undos == BlockUndos(SeqConnect(base, cs, |cs|, prevalidated, rules).value.ready[k])
  {
    hide SeqConnect, Prepare, FreshCandidate, BatchState, Resolved, UndoOf, Through, Tracks, Change;
    ReadyAt(base, cs, k, prevalidated, rules);
    NetChangesApply(BatchState(base, cs, k), slot.value.state, slot.value.spentFromBase);
  }

  function RowsOf(cs: seq<Candidate>, ready: seq<Ready>): (rows: seq<UndoRow>)
    requires |ready| == |cs| && AllResolved(ready)
    ensures |rows| == |cs|
    ensures forall k | 0 <= k < |cs| ::
              DoneResolved(ready[k].run.done) && rows[k] == UndoRow(cs[k].block.hash, BlockUndos(ready[k]))
  {
    seq(|cs|, k requires 0 <= k < |cs| =>
      assert DoneResolved(ready[k].run.done);
      UndoRow(cs[k].block.hash, BlockUndos(ready[k])))
  }

  /** Phase three: the commit record of every slot, in block order. */
  method FinishSlots(slots: seq<Slot>, cs: seq<Candidate>, prevalidated: bool, ghost rules: BlockRules,
                     ghost base: Utxos)
    returns (ts: seq<Transition>, ghost views: seq<Utxos>)
    requires Prevalidated(cs, prevalidated, rules) && BatchFresh(base, cs, prevalidated, rules)
    requires AllPrepared(slots, base, cs, prevalidated, rules) && SeqConnect(base, cs, |cs|, prevalidated, rules).Ok?
    ensures |ts| == |cs| && Chained(views, ts) && views[0] == base
            && views[|ts|] == SeqConnect(base, cs, |cs|, prevalidated, rules).value.view
    ensures AllResolved(SeqConnect(base, cs, |cs|, prevalidated, rules).value.ready)
    ensures UndoRows(ts) == RowsOf(cs, SeqConnect(base, cs, |cs|, prevalidated, rules).value.ready)
  {
    hide SlotPrepared, Leads, TransitionOf, BlockUndos, DoneResolved, BatchFresh, Prevalidated, SeqConnect, BatchState;
    BatchStarts(base, cs, prevalidated, rules);
    ghost var ready := SeqConnect(base, cs, |cs|, prevalidated, rules).value.ready;
    ts := [];
    views := [base];
    for k := 0 to |cs|
      invariant |ts| == k && |views| == k + 1 && views[0] == base && views[k] == BatchState(base, cs, k)
      invariant forall j | 0 <= j < k :: Leads(views[j], ts[j], views[j + 1])
      invariant forall j | 0 <= j < k :: DoneResolved(ready[j].run.done)
      invariant forall j | 0 <= j < k :: RowAgrees(ts[j], cs[j], ready[j])
    {
      assert SlotPrepared(slots[k], base, cs, k, prevalidated, rules);
      TransitionLeads(slots[k], base, cs, k, prevalidated, rules);
      ts := ts + [TransitionOf(cs[k], slots[k].value)];
      views := views + [BatchState(base, cs, k + 1)];
    }
    BatchSeesSequential(base, cs, |cs|, prevalidated, rules);
    assert AllResolved(ready);
    forall k | 0 <= k < |cs| ensures UndoRows(ts)[k] == RowsOf(cs, ready)[k] {
      assert RowAgrees(ts[k], cs[k], ready[k]);
    }
  }

  predicate RowAgrees(t: Transition, c: Candidate, ready: Ready)
  {
    DoneResolved(ready.run.done) && t.hash == c.block.hash && t.undos == BlockUndos(ready)
  }
}
