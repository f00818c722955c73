/**
 The batch pipeline itself: phase one derives raw deltas, phase two prepares
 every block and hands its scripts to the pool, phase three commits.  Which
 worker takes which block, and the order in which they finish, is arbitrary.
 */
module BatchDriver {
  import opened Basics
  import opened Coins
  import opened Transactions
  import opened Blocks
  import opened Overlay
  import opened Connect
  import opened Versions
  import opened Scripts
  import opened Delta
  import opened Batch

  /** Every index below `n` is claimed at most once, and `n` claims were made. */
  predicate Claims(order: seq<nat>, n: nat) {
    && |order| == n
    && (forall i | 0 <= i < n :: order[i] < n)
    && (forall i, j | 0 <= i < j < n :: order[i] != order[j])
  }

  function Upto(n: nat): (s: set<nat>)
    ensures |s| == n && forall k :: k in s <==> 0 <= k < n
  {
    if n == 0 then {} else Upto(n - 1) + {n - 1}
  }

  lemma {:induction false} DistinctCount(order: seq<nat>)
    requires forall i, j | 0 <= i < j < |order| :: order[i] != order[j]
    ensures |ToSet(order)| == |order|
  {
    if order != [] {
      var n := |order| - 1;
      DistinctCount(order[..n]);
      assert ToSet(order) == ToSet(order[..n]) + {order[n]};
    }
  }

  lemma SubsetOfSameSize<T>(a: set<T>, b: set<T>)
    requires a <= b && |a| == |b|
    ensures a == b
  {
    assert b == a + (b - a);
    assert |b| == |a| + |b - a|;
  }

  /** Once the claims run out, every block has been covered. */
  lemma ClaimsCover(order: seq<nat>, n: nat, k: nat)
    requires Claims(order, n) && k < n
    ensures k in order
  {
    DistinctCount(order);
    SubsetOfSameSize(ToSet(order), Upto(n));
    assert k in ToSet(order);
  }

  /** A run of the pipeline: claim orders, block owners, and packet arrival orders. */
  datatype Schedule = Schedule(derive: seq<nat>, prepare: seq<nat>, owner: seq<nat>, workers: nat,
                               arrive: (nat, nat) -> seq<nat>)

  ghost predicate ValidSchedule(s: Schedule, n: nat) {
    && Claims(s.derive, n) && Claims(s.prepare, n)
    && |s.owner| == n && (forall k | 0 <= k < n :: s.owner[k] < s.workers)
    && (forall w: nat, m: nat :: Arrives(s.arrive(w, m), m))
  }

  // ----- Phase one -----

  ghost predicate Derives(delta: TxDelta, c: Candidate) {
    && ToMap(delta.created) == RawCreated(c, |c.block.txs|)
    && ToSet(delta.spent) == Spent(c.block.txs, |c.block.txs|)
  }

  method DeriveAll(cs: seq<Candidate>, order: seq<nat>) returns (deltas: seq<TxDelta>)
    requires Claims(order, |cs|)
    ensures |deltas| == |cs| && forall k | 0 <= k < |cs| :: Derives(deltas[k], cs[k])
  {
    var slots: seq<Option<TxDelta>> := seq(|cs|, _ => None);
    for j := 0 to |order|
      invariant |slots| == |cs|
      invariant forall k | 0 <= k < |cs| :: slots[k].Some? <==> k in order[..j]
      invariant forall k | 0 <= k < |cs| && slots[k].Some? :: Derives(slots[k].value, cs[k])
    {
      hide Derives;
      assert slots[order[j]].None?;
      var delta := DeriveDelta(cs[order[j]]);
      assert Derives(delta, cs[order[j]]) by { ShowDerives(delta, cs[order[j]]); }
      slots := slots[order[j] := Some(delta)];
      assert order[..j + 1] == order[..j] + [order[j]];
    }
    forall k | 0 <= k < |cs| ensures slots[k].Some? { ClaimsCover(order, |cs|, k); }
    return seq(|cs|, k requires 0 <= k < |cs| && |slots| == |cs| && slots[k].Some? => slots[k].value);
  }

  lemma ShowDerives(delta: TxDelta, c: Candidate)
    requires ToMap(delta.created) == RawCreated(c, |c.block.txs|)
             && ToSet(delta.spent) == Spent(c.block.txs, |c.block.txs|)
    ensures Derives(delta, c)
  {
  }

  // ----- Phase two -----

  /** A failure belongs to a filled slot. */
  ghost predicate Owned(f: Failure, slots: seq<Option<Slot>>, cs: seq<Candidate>, rules: BlockRules)
    requires |slots| == |cs|
  {
    && f.order < |cs| && slots[f.order].Some? && Sized(slots[f.order].value, cs[f.order])
    && f in SlotFailures(slots[f.order].value, f.order, cs[f.order], rules)
  }

  predicate Sized(slot: Slot, c: Candidate) {
    slot.Ok? ==> |slot.value.done| == |c.block.txs|
  }

  /** The checks some worker was handed for block `k`. */
  ghost function Sink(batches: seq<DeferredScriptBatch>, serial: seq<Job>, owner: seq<nat>, k: nat): seq<Job>
    requires k < |owner| && owner[k] < |batches|
    reads batches
  {
    if |owner| > 1 then Flatten(batches[owner[k]].packets) else serial
  }

  /** Exactly the failing checks of the filled slots are with the workers. */
  ghost predicate Handed(slots: seq<Option<Slot>>, batches: seq<DeferredScriptBatch>, serial: seq<Job>,
                         cs: seq<Candidate>, owner: seq<nat>, rules: BlockRules)
    reads batches
  {
    && |slots| == |cs| == |owner| && (forall k | 0 <= k < |owner| :: owner[k] < |batches|)
    && (forall w | 0 <= w < |batches| :: batches[w].Valid()) && InOrder(serial)
    && (forall k | 0 <= k < |cs| && slots[k].Some? ::
          && Sized(slots[k].value, cs[k])
          && SlotFailures(slots[k].value, k, cs[k], rules) <= Failures(Sink(batches, serial, owner, k), rules.tx))
    && (forall w, f | 0 <= w < |batches| && f in Failures(Flatten(batches[w].packets), rules.tx) ::
          Owned(f, slots, cs, rules))
    && (forall f | f in Failures(serial, rules.tx) :: Owned(f, slots, cs, rules))
  }

  predicate Distinct(batches: seq<DeferredScriptBatch>) {
    forall v, w | 0 <= v < w < |batches| :: batches[v] != batches[w]
  }

  lemma JobFailuresKeyed(order: nat, c: Candidate, done: seq<Prepared>, rules: BlockRules)
    requires |done| == |c.block.txs|
    ensures forall f | f in Failures(JobsOf(order, c, done), rules.tx) :: f.order == order
  {
    hide Verdict;
  }

  /** Hands a prepared block's checks to its worker's batch, or collects them serially. */
  method HandScripts(slots: seq<Option<Slot>>, k: nat, prepared: PreparedBlock, batches: seq<DeferredScriptBatch>,
                     serial: seq<Job>, cs: seq<Candidate>, owner: seq<nat>, ghost rules: BlockRules)
    returns (serial': seq<Job>)
    requires Handed(slots, batches, serial, cs, owner, rules) && Distinct(batches)
    requires k < |cs| && slots[k].None? && |prepared.done| == |cs[k].block.txs|
    requires |cs| == 1 ==> serial == []
    modifies batches
    ensures Handed(slots[k := Some(Ok(prepared))], batches, serial', cs, owner, rules)
    ensures |cs| > 1 ==> serial' == serial
  {
    hide JobsOf, Failures, Flatten;
    var jobs := JobsOf(k, cs[k], prepared.done);
    ghost var slots' := slots[k := Some(Ok(prepared))];
    JobFailuresKeyed(k, cs[k], prepared.done, rules);
    assert SlotFailures(Ok(prepared), k, cs[k], rules) == Failures(jobs, rules.tx);
    forall f | f in Failures(jobs, rules.tx) ensures Owned(f, slots', cs, rules) {}
    forall f: Failure | Owned(f, slots, cs, rules) ensures Owned(f, slots', cs, rules) {}
    serial' := serial;
    if |cs| > 1 {
      FailuresOfConcat(Flatten(batches[owner[k]].packets), jobs, rules.tx);
      batches[owner[k]].Submit(jobs);
    } else {
      serial' := serial + jobs;
      assert serial' == jobs;
    }
  }

  lemma FailedHandsNothing(slots: seq<Option<Slot>>, k: nat, e: BlockError, batches: seq<DeferredScriptBatch>,
                           serial: seq<Job>, cs: seq<Candidate>, owner: seq<nat>, rules: BlockRules)
    requires Handed(slots, batches, serial, cs, owner, rules) && k < |cs| && slots[k].None?
    ensures Handed(slots[k := Some(Err(e))], batches, serial, cs, owner, rules)
  {
    hide Failures, Flatten, JobsOf;
    var slots' := slots[k := Some(Err(e))];
    forall f: Failure | Owned(f, slots, cs, rules) ensures Owned(f, slots', cs, rules) {}
  }

  /** Every filled slot holds what preparing its block gives. */
  ghost predicate Filled(slots: seq<Option<Slot>>, base: Utxos, cs: seq<Candidate>, prevalidated: bool,
                         rules: BlockRules)
    requires Prevalidated(cs, prevalidated, rules)
  {
    && |slots| == |cs|
    && forall k | 0 <= k < |cs| && slots[k].Some? :: SlotPrepared(slots[k].value, base, cs, k, prevalidated, rules)
  }

  /** Prepares block `k` against the versions its predecessors wrote. */
  method PrepareAt(versions: CoinVersions, overlay: UtxoOverlay, cs: seq<Candidate>, k: nat, prevalidated: bool,
                   rules: BlockRules, ghost base: Utxos)
    returns (slot: Slot)
    requires k < |cs| && Prevalidated(cs, prevalidated, rules)
    requires Represents(versions, base, cs, |cs|) && overlay.Valid() && overlay.View() == base
    modifies overlay.shards
    ensures overlay.Valid() && overlay.View() == base
    ensures SlotPrepared(slot, base, cs, k, prevalidated, rules)
  {
    hide UtxoOverlay.Valid, UtxoOverlay.View, Answer, BatchState, Prepare;
    var view := new BatchVersionView(versions, k, overlay);
    ghost var start := BatchState(base, cs, k);
    forall o ensures Answer(base, versions, o, k) == Get(start, o) {}
    slot := PrepareBlock(view, cs[k], prevalidated, rules, base, start);
  }

  method PrepareAll(versions: CoinVersions, overlay: UtxoOverlay, batches: seq<DeferredScriptBatch>, cs: seq<Candidate>,
                    order: seq<nat>, owner: seq<nat>, prevalidated: bool, rules: BlockRules, ghost base: Utxos)
    returns (filled: seq<Option<Slot>>, serial: seq<Job>)
    requires Prevalidated(cs, prevalidated, rules) && Claims(order, |cs|)
    requires |owner| == |cs| && (forall k | 0 <= k < |cs| :: owner[k] < |batches|)
    requires Represents(versions, base, cs, |cs|) && overlay.Valid() && overlay.View() == base
    requires Distinct(batches) && forall w | 0 <= w < |batches| :: batches[w].packets == []
    modifies overlay.shards, batches
    ensures overlay.Valid() && overlay.View() == base
    ensures Filled(filled, base, cs, prevalidated, rules) && Handed(filled, batches, serial, cs, owner, rules)
    ensures forall k | 0 <= k < |cs| :: filled[k].Some?
  {
    hide UtxoOverlay.Valid, UtxoOverlay.View, Represents, Handed, SlotPrepared;
    filled, serial := seq(|cs|, _ => None), [];
    NothingHanded(filled, batches, cs, owner, rules);
    for j := 0 to |order|
      invariant overlay.Valid() && overlay.View() == base
      invariant Filled(filled, base, cs, prevalidated, rules) && Handed(filled, batches, serial, cs, owner, rules)
      invariant forall k | 0 <= k < |cs| :: filled[k].Some? <==> k in order[..j]
      invariant |cs| == 1 && j == 0 ==> serial == []
    {
      var k := order[j];
      assert filled[k].None?;
      var slot := PrepareAt(versions, overlay, cs, k, prevalidated, rules, base);
      match slot {
        case Ok(prepared) =>
          SlotIsSized(slot, base, cs, k, prevalidated, rules);
          serial := HandScripts(filled, k, prepared, batches, serial, cs, owner, rules);
        case Err(e) => FailedHandsNothing(filled, k, e, batches, serial, cs, owner, rules);
      }
      filled := filled[k := Some(slot)];
      assert order[..j + 1] == order[..j] + [k];
    }
    forall k | 0 <= k < |cs| ensures filled[k].Some? { ClaimsCover(order, |cs|, k); }
  }

  lemma SlotIsSized(slot: Slot, base: Utxos, cs: seq<Candidate>, k: nat, prevalidated: bool, rules: BlockRules)
    requires k < |cs| && Prevalidated(cs, prevalidated, rules) && SlotPrepared(slot, base, cs, k, prevalidated, rules)
    ensures Sized(slot, cs[k])
  {
  }

  lemma NothingHanded(slots: seq<Option<Slot>>, batches: seq<DeferredScriptBatch>, cs: seq<Candidate>, owner: seq<nat>,
                      rules: BlockRules)
    requires |slots| == |cs| == |owner| && (forall k | 0 <= k < |owner| :: owner[k] < |batches|)
    requires (forall k | 0 <= k < |cs| :: slots[k].None?) && forall w | 0 <= w < |batches| :: batches[w].packets == []
    ensures Handed(slots, batches, [], cs, owner, rules)
  {
    assert Failures([], rules.tx) == {};
  }
}
