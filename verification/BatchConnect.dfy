/**
 Connecting a batch from end to end: the parallel pipeline leaves the store, and
 reports the error, that connecting its blocks one by one would.
 */
module BatchConnect {
  import opened Basics
  import opened Coins
  import opened Transactions
  import opened Blocks
  import opened Overlay
  import opened Versions
  import opened Scripts
  import opened Batch
  import opened BatchDriver
  import opened BatchCommit
  import opened BatchFold
  import opened Reorg

  // ----- Script verdicts -----

  lemma {:induction false} BatchFailuresSubmitted(batches: seq<DeferredScriptBatch>, w: nat, rules: Rules)
    requires w < |batches|
    ensures Failures(Flatten(batches[w].packets), rules) <= Failures(Submitted(batches), rules)
  {
    hide Failures, Flatten;
    var n := |batches| - 1;
    FailuresOfConcat(Submitted(batches[..n]), Flatten(batches[n].packets), rules);
    if w < n { BatchFailuresSubmitted(batches[..n], w, rules); }
  }

  lemma {:induction false} SubmittedByBatch(batches: seq<DeferredScriptBatch>, f: Failure, rules: Rules)
    returns (w: nat)
    requires f in Failures(Submitted(batches), rules)
    ensures w < |batches| && f in Failures(Flatten(batches[w].packets), rules)
  {
    assert Failures([], rules) == {};
    assert batches != [];
    hide Failures, Flatten;
    var n := |batches| - 1;
    FailuresOfConcat(Submitted(batches[..n]), Flatten(batches[n].packets), rules);
    if f in Failures(Flatten(batches[n].packets), rules) {
      w := n;
    } else {
      w := SubmittedByBatch(batches[..n], f, rules);
    }
  }

  /** The drained checks are exactly those of the prepared slots. */
  lemma HandedIsCollected(filled: seq<Option<Slot>>, slots: seq<Slot>, batches: seq<DeferredScriptBatch>,
                          serial: seq<Job>, cs: seq<Candidate>, owner: seq<nat>, rules: BlockRules)
    requires Handed(filled, batches, serial, cs, owner, rules)
    requires |slots| == |cs| && forall k | 0 <= k < |cs| :: filled[k] == Some(slots[k])
    ensures forall k | 0 <= k < |cs| && slots[k].Ok? :: |slots[k].value.done| == |cs[k].block.txs|
    ensures Collected(Failures(Submitted(batches) + serial, rules.tx), slots, cs, rules)
  {
    hide Failures, Flatten, JobsOf, SlotFailures, Submitted, InOrder;
    FailuresOfConcat(Submitted(batches), serial, rules.tx);
    var failures := Failures(Submitted(batches) + serial, rules.tx);
    forall k | 0 <= k < |cs| ensures Sized(slots[k], cs[k]) && SlotFailures(slots[k], k, cs[k], rules) <= failures {
      assert filled[k].Some?;
      BatchFailuresSubmitted(batches, owner[k], rules.tx);
    }
    forall f | f in failures ensures Owned(f, filled, cs, rules) {
      if f !in Failures(serial, rules.tx) { var w := SubmittedByBatch(batches, f, rules.tx); }
    }
    forall f | f in failures ensures f.order < |cs| && f in SlotFailures(slots[f.order], f.order, cs[f.order], rules) {
      assert Owned(f, filled, cs, rules);
    }
  }

  /** Waits for every worker's batch, whose packets arrive as they may. */
  method DrainAll(batches: seq<DeferredScriptBatch>, serial: seq<Job>, arrive: (nat, nat) -> seq<nat>, rules: Rules)
    returns (first: Option<Failure>)
    requires InOrder(serial) && forall w | 0 <= w < |batches| :: batches[w].Valid()
    requires forall w: nat, m: nat :: Arrives(arrive(w, m), m)
    ensures IsLeast(Failures(Submitted(batches) + serial, rules), first)
  {
    hide Arrives, Flatten;
    var arrivals: seq<seq<nat>> := [];
    for w := 0 to |batches|
      invariant |arrivals| == w && forall v | 0 <= v < w :: Arrives(arrivals[v], |batches[v].packets|)
    {
      arrivals := arrivals + [arrive(w, |batches[w].packets|)];
    }
    first := DrainScriptBatches(batches, arrivals, serial, rules);
  }

  /** The first slot that failed, or their number. */
  method FirstFailed(slots: seq<Slot>) returns (f: nat)
    ensures IsFirstFailure(slots, f)
  {
    for k := 0 to |slots|
      invariant forall j | 0 <= j < k :: slots[j].Ok?
    {
      if slots[k].Err? { return k; }
    }
    return |slots|;
  }

  method NewBatches(n: nat) returns (batches: seq<DeferredScriptBatch>)
    ensures |batches| == n && Distinct(batches)
    ensures forall w | 0 <= w < n :: fresh(batches[w]) && batches[w].packets == []
  {
    batches := [];
    for w := 0 to n
      invariant |batches| == w && Distinct(batches)
      invariant forall v | 0 <= v < w :: fresh(batches[v]) && batches[v].packets == []
    {
      var batch := new DeferredScriptBatch();
      batches := batches + [batch];
    }
  }

  /** Phases one and two and the verdict: every slot, and what is to be reported. */
  method ValidateBatch(overlay: UtxoOverlay, cs: seq<Candidate>, prevalidated: bool, schedule: Schedule,
                       rules: BlockRules, ghost base: Utxos)
    returns (slots: seq<Slot>, error: Option<BlockError>)
    requires overlay.Valid() && overlay.View() == base && ValidSchedule(schedule, |cs|)
    requires Prevalidated(cs, prevalidated, rules) && BatchFresh(base, cs, prevalidated, rules)
    modifies overlay.shards
    ensures overlay.Valid() && overlay.View() == base
    ensures AllPrepared(slots, base, cs, prevalidated, rules)
    ensures match error
            case Some(e) => SeqConnect(base, cs, |cs|, prevalidated, rules) == Err(e)
            case None => SeqConnect(base, cs, |cs|, prevalidated, rules).Ok?
  {
    hide UtxoOverlay.Valid, UtxoOverlay.View, BatchFresh, Prevalidated, SlotPrepared, Handed, SeqConnect, Represents;
    hide Failures, Submitted, IsLeast, Claims, Arrives, Derives, Collected;
    var deltas := DeriveAll(cs, schedule.derive);
    DerivedAll(deltas, cs);
    var versions := BuildVersions(deltas, base, cs);
    var batches := NewBatches(schedule.workers);
    var filled, serial :=
      PrepareAll(versions, overlay, batches, cs, schedule.prepare, schedule.owner, prevalidated, rules, base);
    slots := seq(|cs|, k requires 0 <= k < |cs| && |filled| == |cs| && filled[k].Some? => filled[k].value);
    HandedIsValid(filled, batches, serial, cs, schedule.owner, rules);
    HandedIsCollected(filled, slots, batches, serial, cs, schedule.owner, rules);
    var f := FirstFailed(slots);
    var first := DrainAll(batches, serial, schedule.arrive, rules.tx);
    error := Reported(slots, f, first);
    BatchVerdict(slots, f, first, Failures(Submitted(batches) + serial, rules.tx), base, cs, prevalidated, rules);
  }

  lemma DerivedAll(deltas: seq<TxDelta>, cs: seq<Candidate>)
    requires |deltas| == |cs| && forall k | 0 <= k < |cs| :: Derives(deltas[k], cs[k])
    ensures forall k | 0 <= k < |cs| :: ToMap(deltas[k].created) == RawCreated(cs[k], |cs[k].block.txs|)
                                        && ToSet(deltas[k].spent) == Spent(cs[k].block.txs, |cs[k].block.txs|)
  {
    hide RawCreated, Spent, ToMap, ToSet;
  }

  lemma HandedIsValid(filled: seq<Option<Slot>>, batches: seq<DeferredScriptBatch>, serial: seq<Job>,
                      cs: seq<Candidate>, owner: seq<nat>, rules: BlockRules)
    requires Handed(filled, batches, serial, cs, owner, rules)
    ensures InOrder(serial) && forall w | 0 <= w < |batches| :: batches[w].Valid()
  {
  }

  /**
   Connects a batch.  Whatever the schedule and whatever the overlay has
   cached, the store ends as connecting the blocks one at a time leaves it,
   with each block's own undo records; or nothing changes and the error is the
   one sequential connection reports.
   */
  method ConnectBatch(store: ChainStore, overlay: UtxoOverlay, cs: seq<Candidate>, prevalidated: bool,
                      schedule: Schedule, rules: BlockRules)
    returns (error: Option<StoreError>)
    requires overlay.Valid() && overlay.View() == store.utxos && ValidSchedule(schedule, |cs|)
    requires Prevalidated(cs, prevalidated, rules) && BatchFresh(store.utxos, cs, prevalidated, rules)
    modifies store, overlay.shards
    ensures match BatchConnected(old(store.Value()), cs, prevalidated, rules)
            case Err(e) => error == Some(e) && store.Value() == old(store.Value())
            case Ok(next) => error == None && store.Value() == next
  {
    hide UtxoOverlay.Valid, UtxoOverlay.View, BatchFresh, Prevalidated, AllPrepared, SeqConnect, ValidSchedule, Chained;
    ghost var base := store.utxos;
    var slots, rejected := ValidateBatch(overlay, cs, prevalidated, schedule, rules, base);
    if rejected.Some? { return Some(BlockRejected(rejected.value)); }
    var ts, views := FinishSlots(slots, cs, prevalidated, rules, base);
    error := CommitConnectBatch(store, ts, views);
  }
}
