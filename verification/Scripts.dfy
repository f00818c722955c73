/**
 Deferred script checks: jobs are packed into small work packets, run by any
 worker or inline when the queue is full, and their verdicts arrive in any
 order.  What is reported is always the least failing check.
 */
module Scripts {
  import opened Basics
  import opened Coins
  import opened Transactions

  const SCRIPT_VALIDATION_WORK_SIZE: nat := 16

  /** One transaction's script check, keyed by the batch order of its block and its position there. */
  datatype Job = Job(order: nat, index: nat, tx: Tx, prevouts: seq<Coin>, flags: nat)

  datatype Failure = Failure(order: nat, index: nat, code: nat)

  predicate Before(a: Failure, b: Failure) {
    a.order < b.order || (a.order == b.order && a.index < b.index)
  }

  predicate JobBefore(a: Job, b: Job) {
    a.order < b.order || (a.order == b.order && a.index < b.index)
  }

  /** Jobs in strictly increasing order, as a block's checks are submitted. */
  predicate InOrder(jobs: seq<Job>) {
    forall i, j | 0 <= i < j < |jobs| :: JobBefore(jobs[i], jobs[j])
  }

  function Verdict(job: Job, rules: Rules): Option<nat> {
    rules.scriptError(job.tx, job.prevouts, job.flags)
  }

  /** Everything that fails among some jobs. */
  ghost function Failures(jobs: seq<Job>, rules: Rules): set<Failure> {
    set i | 0 <= i < |jobs| && Verdict(jobs[i], rules).Some? ::
      Failure(jobs[i].order, jobs[i].index, Verdict(jobs[i], rules).value)
  }

  /** `r` is the least of `failures`, or there are none. */
  ghost predicate IsLeast(failures: set<Failure>, r: Option<Failure>) {
    match r
    case None => failures == {}
    case Some(f) => f in failures && forall g | g in failures :: f == g || !Before(g, f)
  }

  function Lesser(a: Option<Failure>, b: Option<Failure>): Option<Failure> {
    match (a, b)
    case (None, _) => b
    case (_, None) => a
    case (Some(f), Some(g)) => if Before(g, f) then b else a
  }

  /** The least of a union is the lesser of the two leasts. */
  lemma LeastOfUnion(a: set<Failure>, b: set<Failure>, r: Option<Failure>, s: Option<Failure>)
    requires IsLeast(a, r) && IsLeast(b, s)
    ensures IsLeast(a + b, Lesser(r, s))
  {
  }

  lemma FailuresOfConcat(a: seq<Job>, b: seq<Job>, rules: Rules)
    ensures Failures(a + b, rules) == Failures(a, rules) + Failures(b, rules)
  {
    hide Verdict;
    forall f | f in Failures(a + b, rules) ensures f in Failures(a, rules) + Failures(b, rules) {
      var i :| 0 <= i < |a + b| && Verdict((a + b)[i], rules).Some? &&
               f == Failure((a + b)[i].order, (a + b)[i].index, Verdict((a + b)[i], rules).value);
      if i < |a| { assert (a + b)[i] == a[i]; } else { assert (a + b)[i] == b[i - |a|]; }
    }
    forall f | f in Failures(a, rules) ensures f in Failures(a + b, rules) {
      var i :| 0 <= i < |a| && Verdict(a[i], rules).Some? &&
               f == Failure(a[i].order, a[i].index, Verdict(a[i], rules).value);
      assert (a + b)[i] == a[i];
    }
    forall f | f in Failures(b, rules) ensures f in Failures(a + b, rules) {
      var i :| 0 <= i < |b| && Verdict(b[i], rules).Some? &&
               f == Failure(b[i].order, b[i].index, Verdict(b[i], rules).value);
      assert (a + b)[|a| + i] == b[i];
    }
  }

  /** Runs a packet and stops at its first failing job. */
  method ExecutePacket(jobs: seq<Job>, rules: Rules) returns (r: Option<Failure>)
    requires InOrder(jobs)
    ensures IsLeast(Failures(jobs, rules), r)
  {
    for i := 0 to |jobs|
      invariant forall j | 0 <= j < i :: Verdict(jobs[j], rules).None?
    {
      var verdict := Verdict(jobs[i], rules);
      if verdict.Some? {
        r := Some(Failure(jobs[i].order, jobs[i].index, verdict.value));
        FirstIsLeast(jobs, i, rules);
        return;
      }
    }
    return None;
  }

  lemma FirstIsLeast(jobs: seq<Job>, i: nat, rules: Rules)
    requires InOrder(jobs) && i < |jobs| && Verdict(jobs[i], rules).Some?
    requires forall j | 0 <= j < i :: Verdict(jobs[j], rules).None?
    ensures IsLeast(Failures(jobs, rules), Some(Failure(jobs[i].order, jobs[i].index, Verdict(jobs[i], rules).value)))
  {
    hide Verdict;
    var first := Failure(jobs[i].order, jobs[i].index, Verdict(jobs[i], rules).value);
    forall f | f in Failures(jobs, rules) ensures f == first || !Before(f, first) {
      var j :| 0 <= j < |jobs| && Verdict(jobs[j], rules).Some? &&
               f == Failure(jobs[j].order, jobs[j].index, Verdict(jobs[j], rules).value);
      if j > i { assert JobBefore(jobs[i], jobs[j]); }
    }
  }

  /** All jobs of some packets. */
  ghost function Flatten(packets: seq<seq<Job>>): seq<Job> {
    if packets == [] then [] else Flatten(packets[..|packets| - 1]) + packets[|packets| - 1]
  }

  /** A producer's session: the packets it has handed to the pool. */
  class DeferredScriptBatch {
    var packets: seq<seq<Job>>

    constructor ()
      ensures packets == []
    {
      packets := [];
    }

    ghost predicate Valid()
      reads this
    {
      forall i | 0 <= i < |packets| :: InOrder(packets[i])
    }

    /** Packs one block's checks, sixteen to a packet. */
    method Submit(checks: seq<Job>)
      requires Valid() && InOrder(checks)
      modifies this
      ensures Valid() && Flatten(packets) == old(Flatten(packets)) + checks
      ensures old(packets) <= packets
      ensures forall i | |old(packets)| <= i < |packets| :: 1 <= |packets[i]| <= SCRIPT_VALIDATION_WORK_SIZE
    {
      hide Flatten;
      var jobs: seq<Job> := [];
      for i := 0 to |checks|
        invariant |jobs| <= i && |jobs| < SCRIPT_VALIDATION_WORK_SIZE && jobs == checks[i - |jobs|..i]
        invariant Valid() && old(packets) <= packets
        invariant Flatten(packets) + jobs == old(Flatten(packets)) + checks[..i]
        invariant forall k | |old(packets)| <= k < |packets| :: 1 <= |packets[k]| <= SCRIPT_VALIDATION_WORK_SIZE
      {
        assert Flatten(packets) + (jobs + [checks[i]]) == (Flatten(packets) + jobs) + [checks[i]];
        jobs := jobs + [checks[i]];
        assert checks[..i + 1] == checks[..i] + [checks[i]];
        assert Flatten(packets) + jobs == old(Flatten(packets)) + checks[..i + 1];
        if |jobs| == SCRIPT_VALIDATION_WORK_SIZE {
          Push(packets, jobs);
          packets, jobs := packets + [jobs], [];
        }
      }
      assert checks[..|checks|] == checks;
      if jobs != [] {
        Push(packets, jobs);
        packets := packets + [jobs];
      }
    }

    /**
     Collects one verdict per packet in whatever order they arrive and keeps
     the least failure.  `arrival` names each packet exactly once.
     */
    method Finish(arrival: seq<nat>, rules: Rules) returns (r: Option<Failure>)
      requires Valid() && |arrival| == |packets|
      requires forall i | 0 <= i < |arrival| :: arrival[i] < |packets|
      requires forall p | 0 <= p < |packets| :: p in arrival
      ensures IsLeast(Failures(Flatten(packets), rules), r)
    {
      r := None;
      ghost var seen: set<Failure> := {};
      for i := 0 to |arrival|
        invariant IsLeast(seen, r) && seen <= Failures(Flatten(packets), rules)
        invariant forall k | 0 <= k < i :: Failures(packets[arrival[k]], rules) <= seen
      {
        hide Failures, Flatten, IsLeast;
        var p := arrival[i];
        var verdict := ExecutePacket(packets[p], rules);
        LeastOfUnion(seen, Failures(packets[p], rules), r, verdict);
        PacketFailures(packets, p, rules);
        seen := seen + Failures(packets[p], rules);
        r := Lesser(r, verdict);
      }
      forall p | 0 <= p < |packets| ensures Failures(packets[p], rules) <= seen {
        assert p in arrival;
        var k :| 0 <= k < |arrival| && arrival[k] == p;
      }
      AllPackets(packets, |packets|, seen, rules);
      assert packets[..|packets|] == packets;
    }
  }

  lemma Push(packets: seq<seq<Job>>, jobs: seq<Job>)
    ensures Flatten(packets + [jobs]) == Flatten(packets) + jobs
  {
    assert (packets + [jobs])[..|packets|] == packets;
  }

  lemma {:induction false} PacketFailures(packets: seq<seq<Job>>, p: nat, rules: Rules)
    requires p < |packets|
    ensures Failures(packets[p], rules) <= Failures(Flatten(packets), rules)
  {
    var n := |packets| - 1;
    FailuresOfConcat(Flatten(packets[..n]), packets[n], rules);
    if p < n { PacketFailures(packets[..n], p, rules); }
  }

  lemma {:induction false} AllPackets(packets: seq<seq<Job>>, n: nat, seen: set<Failure>, rules: Rules)
    requires n <= |packets| && forall p | 0 <= p < n :: Failures(packets[p], rules) <= seen
    ensures Failures(Flatten(packets[..n]), rules) <= seen
  {
    if n > 0 {
      AllPackets(packets, n - 1, seen, rules);
      assert packets[..n][..n - 1] == packets[..n - 1];
      FailuresOfConcat(Flatten(packets[..n - 1]), packets[n - 1], rules);
    }
  }

  /** The checks handed to a list of batches. */
  ghost function Submitted(batches: seq<DeferredScriptBatch>): seq<Job>
    reads batches
  {
    if batches == [] then [] else Submitted(batches[..|batches| - 1]) + Flatten(batches[|batches| - 1].packets)
  }

  /** An order of arrival that names each of `n` packets exactly once. */
  predicate Arrives(arrival: seq<nat>, n: nat) {
    && |arrival| == n
    && (forall i | 0 <= i < n :: arrival[i] < n)
    && (forall p | 0 <= p < n :: p in arrival)
  }

  /** Waits for every batch and the serially collected checks; the least failure of all of them. */
  method DrainScriptBatches(batches: seq<DeferredScriptBatch>, arrivals: seq<seq<nat>>, serial: seq<Job>, rules: Rules)
    returns (first: Option<Failure>)
    requires |arrivals| == |batches| && InOrder(serial)
    requires forall i | 0 <= i < |batches| :: batches[i].Valid() && Arrives(arrivals[i], |batches[i].packets|)
    ensures IsLeast(Failures(Submitted(batches) + serial, rules), first)
  {
    hide Failures, IsLeast;
    first := None;
    NoFailures(rules);
    for i := 0 to |batches|
      invariant IsLeast(Failures(Submitted(batches[..i]), rules), first)
    {
      assert batches[..i + 1][..i] == batches[..i];
      var failure := batches[i].Finish(arrivals[i], rules);
      ghost var jobs := Flatten(batches[i].packets);
      FailuresOfConcat(Submitted(batches[..i]), jobs, rules);
      LeastOfUnion(Failures(Submitted(batches[..i]), rules), Failures(jobs, rules), first, failure);
      first := Lesser(first, failure);
    }
    assert batches[..|batches|] == batches;
    var failure := ExecutePacket(serial, rules);
    FailuresOfConcat(Submitted(batches), serial, rules);
    LeastOfUnion(Failures(Submitted(batches), rules), Failures(serial, rules), first, failure);
    first := Lesser(first, failure);
  }

  lemma NoFailures(rules: Rules)
    ensures IsLeast(Failures([], rules), None)
  {
  }

  /** Checks keyed differently have exactly one least failure, however they were scheduled. */
  lemma LeastIsUnique(jobs: seq<Job>, r: Option<Failure>, s: Option<Failure>, rules: Rules)
    requires forall i, j | 0 <= i < j < |jobs| :: (jobs[i].order, jobs[i].index) != (jobs[j].order, jobs[j].index)
    requires IsLeast(Failures(jobs, rules), r) && IsLeast(Failures(jobs, rules), s)
    ensures r == s
  {
    hide Verdict;
    if r.Some? && s.Some? {
      var i :| 0 <= i < |jobs| && Verdict(jobs[i], rules).Some? &&
               r.value == Failure(jobs[i].order, jobs[i].index, Verdict(jobs[i], rules).value);
      var j :| 0 <= j < |jobs| && Verdict(jobs[j], rules).Some? &&
               s.value == Failure(jobs[j].order, jobs[j].index, Verdict(jobs[j], rules).value);
      assert !Before(r.value, s.value) && !Before(s.value, r.value);
    }
  }
}
