/**
 Connecting a batch of blocks in parallel: every block is prepared at once
 against the versioned view, scripts run in a pool, and the whole batch commits
 in one transaction.  The outcome, errors included, is that of connecting the
 blocks one after the other.
 */
module Batch {
  import opened Basics
  import opened Coins
  import opened Transactions
  import opened Blocks
  import opened Connect
  import opened Versions
  import opened Scripts
  import opened Delta

  // ----- Sequential connection -----

  predicate Prevalidated(cs: seq<Candidate>, prevalidated: bool, rules: BlockRules) {
    prevalidated ==> forall i | 0 <= i < |cs| :: StructureError(cs[i], rules) == None
  }

  /** The coins after some connected blocks, and what each of them did. */
  datatype Chain = Chain(view: Utxos, ready: seq<Ready>)

  /** Connects the first `n` blocks one after the other. */
  function SeqConnect(base: Utxos, cs: seq<Candidate>, n: nat, prevalidated: bool,
                      rules: BlockRules): (r: Result<Chain, BlockError>)
    requires n <= |cs| && Prevalidated(cs, prevalidated, rules)
    ensures r.Ok? ==> |r.value.ready| == n
  {
    if n == 0 then Ok(Chain(base, []))
    else match SeqConnect(base, cs, n - 1, prevalidated, rules)
      case Err(e) => Err(e)
      case Ok(chain) =>
        match ConnectOne(chain.view, cs[n - 1], prevalidated, rules)
        case Err(e) => Err(e)
        case Ok(ready) => Ok(Chain(ready.run.view, chain.ready + [ready]))
  }

  lemma {:induction false} SeqFailureIsFinal(base: Utxos, cs: seq<Candidate>, n: nat, m: nat, prevalidated: bool,
                                             rules: BlockRules)
    requires n <= m <= |cs| && Prevalidated(cs, prevalidated, rules)
    requires SeqConnect(base, cs, n, prevalidated, rules).Err?
    ensures SeqConnect(base, cs, m, prevalidated, rules) == SeqConnect(base, cs, n, prevalidated, rules)
  {
    hide ConnectOne;
    if n < m { SeqFailureIsFinal(base, cs, n, m - 1, prevalidated, rules); }
  }

  /** The freshness contract holds wherever sequential connection arrives. */
  ghost predicate BatchFresh(base: Utxos, cs: seq<Candidate>, prevalidated: bool, rules: BlockRules)
    requires Prevalidated(cs, prevalidated, rules)
  {
    forall n | 0 <= n < |cs| && SeqConnect(base, cs, n, prevalidated, rules).Ok? ::
      FreshCandidate(SeqConnect(base, cs, n, prevalidated, rules).value.view, cs[n])
  }

  /** What a connected block leaves can be read off its raw transactions. */
  lemma ConnectedIsSettled(view: Utxos, c: Candidate, prevalidated: bool, rules: BlockRules)
    requires prevalidated ==> StructureError(c, rules) == None
    requires FreshCandidate(view, c) && Prepare(view, c, prevalidated, rules).Ok?
    ensures Prepare(view, c, prevalidated, rules).value.run.view ==
            Settle(view, RawCreated(c, |c.block.txs|), Spent(c.block.txs, |c.block.txs|))
  {
    hide *;
    var n := |c.block.txs|;
    ReadyFacts(view, c, prevalidated, rules);
    var ready := Prepare(view, c, prevalidated, rules).value;
    RunSettles(view - ready.removed.Keys, c, n, rules);
    RawIsCreated(c, n);
    RemovedAreCreated(view, c);
    SettleHidesRemoved(view, ready.removed.Keys, Created(c, n), Spent(c.block.txs, n));
  }

  lemma RemovedAreCreated(view: Utxos, c: Candidate)
    requires Bip30(view, c).Ok?
    ensures Bip30(view, c).value <= Created(c, |c.block.txs|).Keys
  {
    hide Created, CreatedKeys;
    forall o | o in Bip30(view, c).value ensures o in Created(c, |c.block.txs|).Keys {
      CreatedIsBlocks(c, |c.block.txs|, o);
    }
  }

  lemma SettleHidesRemoved(view: Utxos, removed: set<OutPoint>, created: Utxos, spent: set<OutPoint>)
    requires removed <= created.Keys
    ensures Settle(view - removed, created, spent) == Settle(view, created, spent)
  {
    hide Settle;
    SameAnswers(Settle(view - removed, created, spent), Settle(view, created, spent));
  }

  /** One more block of a sequential connection. */
  lemma SeqStep(base: Utxos, cs: seq<Candidate>, k: nat, prevalidated: bool, rules: BlockRules)
    requires k < |cs| && Prevalidated(cs, prevalidated, rules) && BatchFresh(base, cs, prevalidated, rules)
    requires SeqConnect(base, cs, k + 1, prevalidated, rules).Ok?
    ensures SeqConnect(base, cs, k, prevalidated, rules).Ok?
    ensures var view := SeqConnect(base, cs, k, prevalidated, rules).value.view;
            var chain := SeqConnect(base, cs, k + 1, prevalidated, rules).value;
            && FreshCandidate(view, cs[k])
            && Prepare(view, cs[k], prevalidated, rules) == Ok(chain.ready[k])
            && chain.view == chain.ready[k].run.view
  {
    hide Prepare, FreshCandidate, ScriptFailure;
  }

  lemma BatchStarts(base: Utxos, cs: seq<Candidate>, prevalidated: bool, rules: BlockRules)
    requires Prevalidated(cs, prevalidated, rules)
    ensures BatchState(base, cs, 0) == base && SeqConnect(base, cs, 0, prevalidated, rules) == Ok(Chain(base, []))
  {
  }

  lemma BatchStep(base: Utxos, cs: seq<Candidate>, k: nat)
    requires k < |cs|
    ensures var c := cs[k];
            BatchState(base, cs, k + 1) ==
            Settle(BatchState(base, cs, k), RawCreated(c, |c.block.txs|), Spent(c.block.txs, |c.block.txs|))
  {
  }

  /** Every block sees exactly the coins its predecessors leave. */
  lemma {:induction false} BatchSeesSequential(base: Utxos, cs: seq<Candidate>, n: nat, prevalidated: bool,
                                               rules: BlockRules)
    requires n <= |cs| && Prevalidated(cs, prevalidated, rules) && BatchFresh(base, cs, prevalidated, rules)
    requires SeqConnect(base, cs, n, prevalidated, rules).Ok?
    ensures SeqConnect(base, cs, n, prevalidated, rules).value.view == BatchState(base, cs, n)
  {
    hide SeqConnect, BatchState, BatchFresh, Prepare, FreshCandidate, Settle, RawCreated, Spent;
    if n == 0 {
      BatchStarts(base, cs, prevalidated, rules);
    } else {
      SeqStep(base, cs, n - 1, prevalidated, rules);
      BatchSeesSequential(base, cs, n - 1, prevalidated, rules);
      ConnectedIsSettled(BatchState(base, cs, n - 1), cs[n - 1], prevalidated, rules);
      BatchStep(base, cs, n - 1);
    }
  }

  // ----- Script checks of a block -----

  /** The checks of a prepared block; the coinbase has none. */
  function JobsOf(order: nat, c: Candidate, done: seq<Prepared>): (jobs: seq<Job>)
    requires |done| == |c.block.txs|
    ensures |jobs| == if done == [] then 0 else |done| - 1
    ensures forall i | 0 <= i < |jobs| ::
              jobs[i] == Job(order, i + 1, c.block.txs[i + 1], done[i + 1].prevouts, c.deployment.flags)
    ensures InOrder(jobs)
  {
    seq(if done == [] then 0 else |done| - 1, i requires 0 <= i < |done| - 1 =>
      Job(order, i + 1, c.block.txs[i + 1], done[i + 1].prevouts, c.deployment.flags))
  }

  function AsFailure(order: nat, failure: Option<(nat, nat)>): Option<Failure> {
    match failure
    case None => None
    case Some((index, code)) => Some(Failure(order, index, code))
  }

  /** The least failing check of a block is the script failure sequential execution reports. */
  lemma ScriptFailureIsLeast(order: nat, c: Candidate, done: seq<Prepared>, rules: BlockRules)
    requires |done| == |c.block.txs|
    ensures IsLeast(Failures(JobsOf(order, c, done), rules.tx), AsFailure(order, ScriptFailure(c, done, 1, rules)))
  {
    LeastFrom(order, c, done, 0, rules);
  }

  lemma {:induction false} LeastFrom(order: nat, c: Candidate, done: seq<Prepared>, i: nat, rules: BlockRules)
    requires |done| == |c.block.txs|
    requires forall j | 0 <= j < i && j < |JobsOf(order, c, done)| :: Verdict(JobsOf(order, c, done)[j], rules.tx).None?
    ensures IsLeast(Failures(JobsOf(order, c, done), rules.tx), AsFailure(order, ScriptFailure(c, done, i + 1, rules)))
    decreases |done| - i
  {
    hide JobsOf;
    var jobs := JobsOf(order, c, done);
    if i < |jobs| {
      if Verdict(jobs[i], rules.tx).Some? {
        FirstIsLeast(jobs, i, rules.tx);
      } else {
        LeastFrom(order, c, done, i + 1, rules);
      }
    }
  }

  // ----- The verdict on a batch -----

  type Slot = Result<PreparedBlock, BlockError>

  ghost predicate AllPrepared(slots: seq<Slot>, base: Utxos, cs: seq<Candidate>, prevalidated: bool, rules: BlockRules)
    requires Prevalidated(cs, prevalidated, rules)
  {
    && |slots| == |cs|
    && forall k | 0 <= k < |cs| :: SlotPrepared(slots[k], base, cs, k, prevalidated, rules)
  }

  /** Slot `k` holds what preparing block `k` on the raw batch state gives. */
  ghost predicate SlotPrepared(slot: Slot, base: Utxos, cs: seq<Candidate>, k: nat, prevalidated: bool,
                               rules: BlockRules)
    requires k < |cs| && Prevalidated(cs, prevalidated, rules)
  {
    && Prepares(slot, BatchState(base, cs, k), cs[k], prevalidated, rules)
    && (slot.Ok? ==> |slot.value.done| == |cs[k].block.txs|)
  }

  /** The failing checks a slot handed to the pool. */
  ghost function SlotFailures(slot: Slot, k: nat, c: Candidate, rules: BlockRules): set<Failure>
    requires slot.Ok? ==> |slot.value.done| == |c.block.txs|
  {
    if slot.Ok? then Failures(JobsOf(k, c, slot.value.done), rules.tx) else {}
  }

  /** `f` is the first slot that failed, or their number. */
  predicate IsFirstFailure(slots: seq<Slot>, f: nat) {
    && f <= |slots|
    && (forall k | 0 <= k < f :: slots[k].Ok?)
    && (f < |slots| ==> slots[f].Err?)
  }

  /** `failures` are exactly the failing checks of the prepared slots. */
  ghost predicate Collected(failures: set<Failure>, slots: seq<Slot>, cs: seq<Candidate>, rules: BlockRules)
    requires |slots| == |cs| && forall k | 0 <= k < |cs| && slots[k].Ok? :: |slots[k].value.done| == |cs[k].block.txs|
  {
    && (forall k | 0 <= k < |cs| :: SlotFailures(slots[k], k, cs[k], rules) <= failures)
    && (forall f | f in failures :: f.order < |cs| && f in SlotFailures(slots[f.order], f.order, cs[f.order], rules))
  }

  /** What the batch reports: an earlier script failure, the first failed slot, or neither. */
  function Reported(slots: seq<Slot>, f: nat, first: Option<Failure>): Option<BlockError>
    requires f < |slots| ==> slots[f].Err?
  {
    if f >= |slots| then
      if first.Some? then Some(TxFailed(first.value.index, Script(first.value.code))) else None
    else if first.Some? && first.value.order < f then Some(TxFailed(first.value.index, Script(first.value.code)))
    else Some(slots[f].error)
  }

  /** A slot whose checks do not fail is a block that connects. */
  lemma SlotConnects(slot: Slot, view: Utxos, c: Candidate, k: nat, prevalidated: bool, rules: BlockRules)
    requires prevalidated ==> StructureError(c, rules) == None
    requires Prepares(slot, view, c, prevalidated, rules) && (slot.Ok? ==> |slot.value.done| == |c.block.txs|)
    ensures slot.Err? ==> ConnectOne(view, c, prevalidated, rules) == Err(slot.error)
    ensures slot.Ok? && SlotFailures(slot, k, c, rules) == {} ==> ConnectOne(view, c, prevalidated, rules).Ok?
    ensures forall f | IsLeast(SlotFailures(slot, k, c, rules), Some(f)) ::
              ConnectOne(view, c, prevalidated, rules) == Err(TxFailed(f.index, Script(f.code)))
  {
    hide Prepare, Failures, JobsOf;
    if slot.Ok? {
      var done := slot.value.done;
      ScriptFailureIsLeast(k, c, done, rules);
      forall f | IsLeast(SlotFailures(slot, k, c, rules), Some(f))
        ensures ConnectOne(view, c, prevalidated, rules) == Err(TxFailed(f.index, Script(f.code)))
      {
        LeastIsUnique(JobsOf(k, c, done), Some(f), AsFailure(k, ScriptFailure(c, done, 1, rules)), rules.tx);
      }
    }
  }

  /** While neither a slot nor a script has failed, sequential connection goes on. */
  lemma {:induction false} ConnectsBefore(slots: seq<Slot>, f: nat, first: Option<Failure>, failures: set<Failure>,
                                          n: nat, base: Utxos, cs: seq<Candidate>, prevalidated: bool,
                                          rules: BlockRules)
    requires Prevalidated(cs, prevalidated, rules) && BatchFresh(base, cs, prevalidated, rules)
    requires AllPrepared(slots, base, cs, prevalidated, rules) && IsFirstFailure(slots, f)
    requires Collected(failures, slots, cs, rules) && IsLeast(failures, first)
    requires n <= f && (first.Some? ==> n <= first.value.order)
    ensures SeqConnect(base, cs, n, prevalidated, rules).Ok?
  {
    hide ConnectOne, BatchState, BatchFresh, Prepares, SlotFailures;
    if n > 0 {
      var k := n - 1;
      ConnectsBefore(slots, f, first, failures, k, base, cs, prevalidated, rules);
      BatchSeesSequential(base, cs, k, prevalidated, rules);
      assert SlotPrepared(slots[k], base, cs, k, prevalidated, rules);
      assert SlotFailures(slots[k], k, cs[k], rules) == {} by {
        hide *;
        NoneBefore(slots, first, failures, k, cs, rules);
      }
      SlotConnects(slots[k], BatchState(base, cs, k), cs[k], k, prevalidated, rules);
    }
  }

  /** No check of a block before the least failure fails. */
  lemma NoneBefore(slots: seq<Slot>, first: Option<Failure>, failures: set<Failure>, k: nat, cs: seq<Candidate>,
                   rules: BlockRules)
    requires |slots| == |cs| && forall k | 0 <= k < |cs| && slots[k].Ok? :: |slots[k].value.done| == |cs[k].block.txs|
    requires Collected(failures, slots, cs, rules) && IsLeast(failures, first)
    requires k < |cs| && (first.Some? ==> k < first.value.order)
    ensures SlotFailures(slots[k], k, cs[k], rules) == {}
  {
    forall g | g in SlotFailures(slots[k], k, cs[k], rules) ensures false {
      assert g in failures && g.order == k;
      assert first.Some? ==> Before(g, first.value);
    }
  }

  /** The least failure is the least of its own block. */
  lemma LeastOfItsBlock(slots: seq<Slot>, first: Failure, failures: set<Failure>, cs: seq<Candidate>, rules: BlockRules)
    requires |slots| == |cs| && forall k | 0 <= k < |cs| && slots[k].Ok? :: |slots[k].value.done| == |cs[k].block.txs|
    requires Collected(failures, slots, cs, rules) && IsLeast(failures, Some(first))
    ensures first.order < |cs|
            && IsLeast(SlotFailures(slots[first.order], first.order, cs[first.order], rules), Some(first))
  {
    hide SlotFailures;
    assert SlotFailures(slots[first.order], first.order, cs[first.order], rules) <= failures;
  }

  /**
   Whatever was prepared when, the batch reports the error sequential
   connection reports, and nothing exactly when sequential connection succeeds.
   */
  lemma BatchVerdict(slots: seq<Slot>, f: nat, first: Option<Failure>, failures: set<Failure>,
                     base: Utxos, cs: seq<Candidate>, prevalidated: bool, rules: BlockRules)
    requires Prevalidated(cs, prevalidated, rules) && BatchFresh(base, cs, prevalidated, rules)
    requires AllPrepared(slots, base, cs, prevalidated, rules) && IsFirstFailure(slots, f)
    requires Collected(failures, slots, cs, rules) && IsLeast(failures, first)
    ensures match Reported(slots, f, first)
            case Some(e) => SeqConnect(base, cs, |cs|, prevalidated, rules) == Err(e)
            case None => SeqConnect(base, cs, |cs|, prevalidated, rules).Ok?
  {
    hide ConnectOne, BatchState, BatchFresh, Prepares, SlotFailures, IsLeast, Collected;
    if first.Some? { LeastOfItsBlock(slots, first.value, failures, cs, rules); }
    var n := if first.Some? && first.value.order < f then first.value.order else f;
    ConnectsBefore(slots, f, first, failures, n, base, cs, prevalidated, rules);
    if n < |cs| {
      BatchSeesSequential(base, cs, n, prevalidated, rules);
      assert SlotPrepared(slots[n], base, cs, n, prevalidated, rules);
      SlotConnects(slots[n], BatchState(base, cs, n), cs[n], n, prevalidated, rules);
      assert SeqConnect(base, cs, n + 1, prevalidated, rules) == Err(Reported(slots, f, first).value);
      SeqFailureIsFinal(base, cs, n + 1, |cs|, prevalidated, rules);
    }
  }
}
