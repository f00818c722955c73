/**
 The shared admission ledger: a token bucket with fractional carry, refilled on
 a monotonic nanosecond clock, and leases on candidate memory.
 */
module Admission {
  import opened Basics

  const U128_MAX: nat := 0xffff_ffff_ffff_ffff_ffff_ffff_ffff_ffff
  const STAGES: nat := 6
  const METADATA: nat := 1

  datatype Limits = Limits(burst: nat, rate: nat, candidateBytes: nat)

  predicate ValidLimits(limits: Limits) {
    limits.burst <= U64_MAX && limits.rate <= U64_MAX && limits.candidateBytes <= U64_MAX
  }

  function SaturatingU128(n: nat): nat {
    Min(n, U128_MAX)
  }

  function SaturatingU64(n: nat): nat {
    Min(n, U64_MAX)
  }

  // ----- The bucket -----

  /** Whole units and billionths of a unit. */
  datatype Bucket = Bucket(remaining: nat, fractional: nat)

  /** A full bucket carries no fraction. */
  predicate ValidBucket(b: Bucket, burst: nat) {
    b.remaining <= burst && b.fractional < NANOS && (b.remaining == burst ==> b.fractional == 0)
  }

  /** The exact level, in billionths. */
  function Level(b: Bucket): nat {
    b.remaining * NANOS + b.fractional
  }

  /** The ideal bucket: it gains `gain` billionths and never holds more than its burst. */
  function Ideal(level: nat, gain: nat, burst: nat): nat {
    Min(level + gain, burst * NANOS)
  }

  /** What a rate per second gains in some nanoseconds, in billionths. */
  function Gain(rate: nat, elapsed: nat): nat {
    rate * elapsed
  }

  lemma GainIs(rate: nat, elapsed: nat)
    ensures Gain(rate, elapsed) == rate * elapsed
  {
  }

  lemma GainAdds(rate: nat, a: nat, b: nat)
    ensures Gain(rate, a + b) == Gain(rate, a) + Gain(rate, b) && Gain(rate, 0) == 0
  {
  }

  /** Refilling with 128-bit and 64-bit saturating arithmetic. */
  function Refill(b: Bucket, burst: nat, gain: nat): Bucket {
    var accrued := SaturatingU128(SaturatingU128(gain) + b.fractional);
    var refill := if accrued / NANOS > U64_MAX then U64_MAX else accrued / NANOS;
    var remaining := Min(SaturatingU64(b.remaining + refill), burst);
    Bucket(remaining, if remaining == burst then 0 else accrued % NANOS)
  }

  /** Rounding and saturation never lose or invent anything: the refilled level is the ideal one. */
  lemma RefillIsIdeal(b: Bucket, burst: nat, gain: nat)
    requires ValidBucket(b, burst) && burst <= U64_MAX
    ensures ValidBucket(Refill(b, burst, gain), burst)
    ensures Level(Refill(b, burst, gain)) == Ideal(Level(b), gain, burst)
  {
    var exact := gain + b.fractional;
    var accrued := SaturatingU128(SaturatingU128(gain) + b.fractional);
    assert accrued == SaturatingU128(exact);
    if exact <= U128_MAX {
      assert exact == NANOS * (exact / NANOS) + exact % NANOS;
    } else {
      assert U128_MAX / NANOS > U64_MAX;
    }
  }

  /** Takes what is there, up to `amount`. */
  function Charge(b: Bucket, burst: nat, gain: nat, amount: nat): (r: (Bucket, nat))
    requires ValidBucket(b, burst) && burst <= U64_MAX
    ensures ValidBucket(r.0, burst) && r.1 <= amount
    ensures Level(r.0) + r.1 * NANOS == Ideal(Level(b), gain, burst)
    ensures r.1 == amount <==> amount * NANOS <= Ideal(Level(b), gain, burst)
    ensures r.1 < amount ==> r.0.remaining == 0
  {
    RefillIsIdeal(b, burst, gain);
    var full := Refill(b, burst, gain);
    var charged := Min(amount, full.remaining);
    (Bucket(full.remaining - charged, full.fractional), charged)
  }

  /** The level determines the bucket. */
  lemma LevelDetermines(a: Bucket, b: Bucket, burst: nat)
    requires ValidBucket(a, burst) && ValidBucket(b, burst) && Level(a) == Level(b)
    ensures a == b
  {
  }

  /** A poll between two charges is invisible: two refills are one of the joint gain. */
  lemma RefillsAdd(b: Bucket, burst: nat, gain: nat, more: nat, amount: nat)
    requires ValidBucket(b, burst) && burst <= U64_MAX
    ensures Charge(Charge(b, burst, gain, 0).0, burst, more, amount) == Charge(b, burst, gain + more, amount)
  {
    var polled := Charge(b, burst, gain, 0).0;
    var split, joint := Charge(polled, burst, more, amount), Charge(b, burst, gain + more, amount);
    RefillIsIdeal(polled, burst, more);
    RefillIsIdeal(b, burst, gain + more);
    LevelDetermines(Refill(polled, burst, more), Refill(b, burst, gain + more), burst);
  }

  /** The time passed; an earlier reading counts as none. */
  function Since(earlier: nat, now: nat): nat {
    if now >= earlier then now - earlier else 0
  }

  // ----- Runs -----

  datatype Request = Request(now: nat, amount: nat)

  predicate Monotonic(start: nat, requests: seq<Request>) {
    && (forall i | 0 <= i < |requests| :: start <= requests[i].now)
    && (forall i, j | 0 <= i <= j < |requests| :: requests[i].now <= requests[j].now)
  }

  /** The bucket after the first `n` requests. */
  function After(limits: Limits, b: Bucket, start: nat, requests: seq<Request>, n: nat): (r: Bucket)
    requires ValidLimits(limits) && ValidBucket(b, limits.burst) && Monotonic(start, requests) && n <= |requests|
    ensures ValidBucket(r, limits.burst)
  {
    if n == 0 then b
    else
      var before := After(limits, b, start, requests, n - 1);
      Charge(before, limits.burst, Gain(limits.rate, Elapsed(start, requests, n - 1)), requests[n - 1].amount).0
  }

  /** The time since the request before. */
  function Elapsed(start: nat, requests: seq<Request>, i: nat): nat
    requires Monotonic(start, requests) && i < |requests|
  {
    requests[i].now - if i == 0 then start else requests[i - 1].now
  }

  /** What request `i` is charged. */
  function ChargedAt(limits: Limits, b: Bucket, start: nat, requests: seq<Request>, i: nat): nat
    requires ValidLimits(limits) && ValidBucket(b, limits.burst) && Monotonic(start, requests) && i < |requests|
  {
    var before := After(limits, b, start, requests, i);
    Charge(before, limits.burst, Gain(limits.rate, Elapsed(start, requests, i)), requests[i].amount).1
  }

  /** Work charged from request `i` up to, not including, request `j`. */
  function ChargedBetween(limits: Limits, b: Bucket, start: nat, requests: seq<Request>, i: nat, j: nat): nat
    requires ValidLimits(limits) && ValidBucket(b, limits.burst) && Monotonic(start, requests) && i <= j <= |requests|
    decreases j
  {
    if i == j then 0
    else ChargedBetween(limits, b, start, requests, i, j - 1) + ChargedAt(limits, b, start, requests, j - 1)
  }

  /** Charged work and what is left are covered by one burst and the refill since the window opened. */
  lemma {:induction false} WindowLevel(limits: Limits, b: Bucket, start: nat, requests: seq<Request>, i: nat, j: nat)
    requires ValidLimits(limits) && ValidBucket(b, limits.burst) && Monotonic(start, requests) && i < j <= |requests|
    ensures ChargedBetween(limits, b, start, requests, i, j) * NANOS + Level(After(limits, b, start, requests, j))
            <= limits.burst * NANOS + Gain(limits.rate, requests[j - 1].now - requests[i].now)
    decreases j
  {
    hide Gain, Level, ValidBucket, Charge;
    var before := After(limits, b, start, requests, j - 1);
    var gain := Gain(limits.rate, Elapsed(start, requests, j - 1));
    var step := Charge(before, limits.burst, gain, requests[j - 1].amount);
    if j - 1 == i {
      GainAdds(limits.rate, 0, 0);
    } else {
      WindowLevel(limits, b, start, requests, i, j - 1);
      GainAdds(limits.rate, requests[j - 2].now - requests[i].now, Elapsed(start, requests, j - 1));
    }
  }

  /** In any window, the work charged is at most one burst plus the refill over its length. */
  lemma WindowBound(limits: Limits, b: Bucket, start: nat, requests: seq<Request>, i: nat, j: nat)
    requires ValidLimits(limits) && ValidBucket(b, limits.burst) && Monotonic(start, requests) && i < j <= |requests|
    ensures ChargedBetween(limits, b, start, requests, i, j) * 1_000_000_000
            <= limits.burst * 1_000_000_000 + limits.rate * (requests[j - 1].now - requests[i].now)
  {
    WindowLevel(limits, b, start, requests, i, j);
    hide Level, After, ChargedBetween, ValidBucket;
  }

  // ----- Polling -----

  /** The requests that ask for work; a request for none is a poll. */
  function Working(requests: seq<Request>): (r: seq<Request>)
    ensures |r| <= |requests|
  {
    if requests == [] then []
    else
      var n := |requests| - 1;
      Working(requests[..n]) + if requests[n].amount == 0 then [] else [requests[n]]
  }

  /** When a run ends. */
  function End(start: nat, requests: seq<Request>): nat {
    if requests == [] then start else requests[|requests| - 1].now
  }

  lemma MonotonicPrefix(start: nat, requests: seq<Request>, n: nat)
    requires Monotonic(start, requests) && n <= |requests|
    ensures Monotonic(start, requests[..n]) && start <= End(start, requests[..n])
    ensures n < |requests| ==> End(start, requests[..n]) <= requests[n].now
  {
  }

  lemma MonotonicAppend(start: nat, requests: seq<Request>, r: Request)
    requires Monotonic(start, requests) && End(start, requests) <= r.now
    ensures Monotonic(start, requests + [r])
  {
  }

  lemma {:induction false} WorkingIsMonotonic(start: nat, requests: seq<Request>)
    requires Monotonic(start, requests)
    ensures Monotonic(start, Working(requests)) && End(start, Working(requests)) <= End(start, requests)
  {
    hide Monotonic;
    if requests != [] {
      var n := |requests| - 1;
      MonotonicPrefix(start, requests, n);
      WorkingIsMonotonic(start, requests[..n]);
      MonotonicAppend(start, Working(requests[..n]), requests[n]);
      if requests[n].amount == 0 { assert Working(requests) == Working(requests[..n]); }
    }
  }

  /** The working requests before request `n` come first. */
  lemma {:induction false} WorkingPrefix(requests: seq<Request>, n: nat)
    requires n <= |requests|
    ensures Working(requests[..n]) <= Working(requests)
    ensures n < |requests| && requests[n].amount != 0 ==>
              |Working(requests[..n])| < |Working(requests)|
                && Working(requests)[|Working(requests[..n])|] == requests[n]
    decreases |requests|
  {
    var last := |requests| - 1;
    if n == |requests| {
      assert requests[..n] == requests;
    } else if n < last {
      WorkingPrefix(requests[..last], n);
      assert requests[..last][..n] == requests[..n];
    }
  }

  /** What comes later does not matter. */
  lemma {:induction false} AfterPrefix(limits: Limits, b: Bucket, start: nat, requests: seq<Request>, k: nat, n: nat)
    requires ValidLimits(limits) && ValidBucket(b, limits.burst) && Monotonic(start, requests) && n <= k <= |requests|
    ensures After(limits, b, start, requests, n) == After(limits, b, start, requests[..k], n)
    decreases n
  {
    hide Gain, ValidBucket, Charge;
    if n > 0 { AfterPrefix(limits, b, start, requests, k, n - 1); }
  }

  /** One more request, in terms of the requests before it. */
  lemma OneMoreRequest(limits: Limits, b: Bucket, start: nat, requests: seq<Request>, n: nat)
    requires ValidLimits(limits) && ValidBucket(b, limits.burst) && Monotonic(start, requests) && n < |requests|
    ensures Monotonic(start, requests[..n]) && End(start, requests[..n]) <= requests[n].now
    ensures var before := After(limits, b, start, requests[..n], n);
            var gain := Gain(limits.rate, requests[n].now - End(start, requests[..n]));
            && After(limits, b, start, requests, n + 1) == Charge(before, limits.burst, gain, requests[n].amount).0
            && ChargedAt(limits, b, start, requests, n) == Charge(before, limits.burst, gain, requests[n].amount).1
  {
    hide Gain, ValidBucket, Charge;
    MonotonicPrefix(start, requests, n);
    AfterPrefix(limits, b, start, requests, n, n);
    assert Elapsed(start, requests, n) == requests[n].now - End(start, requests[..n]);
  }

  /** A refill just before a charge is part of it. */
  lemma RefillFirst(limits: Limits, b: Bucket, idle: nat, more: nat, amount: nat)
    requires ValidLimits(limits) && ValidBucket(b, limits.burst)
    ensures var refilled := Charge(b, limits.burst, Gain(limits.rate, idle), 0).0;
            Charge(refilled, limits.burst, Gain(limits.rate, more), amount) ==
            Charge(b, limits.burst, Gain(limits.rate, idle + more), amount)
  {
    hide Gain, Charge;
    RefillsAdd(b, limits.burst, Gain(limits.rate, idle), Gain(limits.rate, more), amount);
    GainAdds(limits.rate, idle, more);
  }

  lemma Idle(limits: Limits, b: Bucket)
    requires ValidLimits(limits) && ValidBucket(b, limits.burst)
    ensures Charge(b, limits.burst, Gain(limits.rate, 0), 0).0 == b
  {
    LevelDetermines(Charge(b, limits.burst, 0, 0).0, b, limits.burst);
  }

  /** The bucket after all of a run. */
  function Final(limits: Limits, b: Bucket, start: nat, requests: seq<Request>): (r: Bucket)
    requires ValidLimits(limits) && ValidBucket(b, limits.burst) && Monotonic(start, requests)
    ensures ValidBucket(r, limits.burst)
  {
    After(limits, b, start, requests, |requests|)
  }

  /** A run leaves the bucket its working requests leave, refilled for the time since the last of them. */
  lemma {:induction false} PolledBucket(limits: Limits, b: Bucket, start: nat, requests: seq<Request>)
    requires ValidLimits(limits) && ValidBucket(b, limits.burst) && Monotonic(start, requests)
    ensures Monotonic(start, Working(requests)) && End(start, Working(requests)) <= End(start, requests)
    ensures Final(limits, b, start, requests) ==
            Charge(Final(limits, b, start, Working(requests)), limits.burst,
                   Gain(limits.rate, End(start, requests) - End(start, Working(requests))), 0).0
  {
    hide Gain, ValidBucket, ValidLimits, Charge, Monotonic, After, ChargedAt, Working;
    WorkingIsMonotonic(start, requests);
    if requests == [] {
      NoRequests(limits, b, start, requests);
    } else {
      var n := |requests| - 1;
      var earlier, last := requests[..n], requests[n];
      OneMoreRequest(limits, b, start, requests, n);
      PolledBucket(limits, b, start, earlier);
      var work := Working(earlier);
      RefillFirst(limits, Final(limits, b, start, work), End(start, earlier) - End(start, work),
                  last.now - End(start, earlier), last.amount);
      LastWorking(requests);
      if last.amount != 0 {
        assert Working(requests)[..|work|] == work;
        OneMoreRequest(limits, b, start, Working(requests), |work|);
        Idle(limits, Final(limits, b, start, Working(requests)));
      } else {
        assert Working(requests) == work;
      }
    }
  }

  lemma LastWorking(requests: seq<Request>)
    requires requests != []
    ensures var n := |requests| - 1;
            Working(requests) == Working(requests[..n]) + if requests[n].amount == 0 then [] else [requests[n]]
  {
  }

  lemma NoRequests(limits: Limits, b: Bucket, start: nat, requests: seq<Request>)
    requires ValidLimits(limits) && ValidBucket(b, limits.burst) && requests == []
    ensures Working(requests) == [] && Final(limits, b, start, []) == b
    ensures Charge(b, limits.burst, Gain(limits.rate, 0), 0).0 == b
  {
    hide Charge, Gain;
    Idle(limits, b);
  }

  /** A working request is charged what it is charged without any polls. */
  lemma ChargedWithoutPolls(limits: Limits, b: Bucket, start: nat, requests: seq<Request>, i: nat)
    requires ValidLimits(limits) && ValidBucket(b, limits.burst) && Monotonic(start, requests)
    requires i < |requests| && requests[i].amount != 0
    ensures Monotonic(start, Working(requests)) && |Working(requests[..i])| < |Working(requests)|
    ensures ChargedAt(limits, b, start, requests, i) ==
            ChargedAt(limits, b, start, Working(requests), |Working(requests[..i])|)
  {
    hide Gain, ValidBucket, ValidLimits, Charge, Monotonic, After, ChargedAt, Working;
    var earlier, work := requests[..i], Working(requests[..i]);
    WorkingIsMonotonic(start, requests);
    WorkingPrefix(requests, i);
    assert Working(requests)[..|work|] == work;
    OneMoreRequest(limits, b, start, requests, i);
    OneMoreRequest(limits, b, start, Working(requests), |work|);
    PolledBucket(limits, b, start, earlier);
    RefillFirst(limits, Final(limits, b, start, work), End(start, earlier) - End(start, work),
                requests[i].now - End(start, earlier), requests[i].amount);
  }

  /**
   Polling changes nothing: two runs that differ only in polls, inserted or
   dropped anywhere, charge every working request the same, and polls nothing.
   */
  lemma PollingChangesNothing(limits: Limits, b: Bucket, start: nat, requests: seq<Request>, polled: seq<Request>,
                              i: nat, j: nat)
    requires ValidLimits(limits) && ValidBucket(b, limits.burst)
    requires Monotonic(start, requests) && Monotonic(start, polled) && Working(requests) == Working(polled)
    requires i < |requests| && j < |polled| && requests[i].amount != 0
    ensures polled[j].amount == 0 ==> ChargedAt(limits, b, start, polled, j) == 0
    ensures polled[j].amount != 0 && |Working(requests[..i])| == |Working(polled[..j])| ==>
              polled[j] == requests[i]
              && ChargedAt(limits, b, start, polled, j) == ChargedAt(limits, b, start, requests, i)
  {
    hide Gain, ValidBucket, Charge, Working;
    if polled[j].amount != 0 && |Working(requests[..i])| == |Working(polled[..j])| {
      WorkingPrefix(requests, i);
      WorkingPrefix(polled, j);
      ChargedWithoutPolls(limits, b, start, requests, i);
      ChargedWithoutPolls(limits, b, start, polled, j);
    }
  }

  // ----- The ledger -----

  /** A lease on candidate memory. */
  class CandidateReservation {
    const bytes: nat

    constructor (bytes: nat)
      ensures this.bytes == bytes
    {
      this.bytes := bytes;
    }
  }

  /** The bytes of some leases. */
  ghost function Leased(leases: set<CandidateReservation>): nat {
    if leases == {} then 0
    else
      var lease :| lease in leases;
      lease.bytes + Leased(leases - {lease})
  }

  lemma {:induction false} LeasedRemove(leases: set<CandidateReservation>, lease: CandidateReservation)
    requires lease in leases
    ensures Leased(leases) == lease.bytes + Leased(leases - {lease})
    decreases leases
  {
    var other :| other in leases && Leased(leases) == other.bytes + Leased(leases - {other});
    if other != lease {
      LeasedRemove(leases - {other}, lease);
      LeasedRemove(leases - {lease}, other);
      assert leases - {other} - {lease} == leases - {lease} - {other};
    }
  }

  class AdmissionBudget {
    const limits: Limits
    var remaining: nat
    var updated: nat
    var fractional: nat
    var charged: seq<nat>
    var deferred: seq<nat>
    var candidateBytes: nat
    var peakCandidateBytes: nat
    ghost var leases: set<CandidateReservation>

    constructor (limits: Limits, now: nat)
      requires ValidLimits(limits)
      ensures Valid() && this.limits == limits && updated == now && leases == {}
      ensures Value() == Bucket(limits.burst, 0)
    {
      this.limits := limits;
      remaining, updated, fractional := limits.burst, now, 0;
      charged, deferred := seq(STAGES, _ => 0), seq(STAGES, _ => 0);
      candidateBytes, peakCandidateBytes, leases := 0, 0, {};
    }

    ghost function Value(): Bucket
      reads this
    {
      Bucket(remaining, fractional)
    }

    /** Reserved bytes are exactly the live leases, within the limit. */
    ghost predicate Valid()
      reads this
    {
      && ValidLimits(limits) && ValidBucket(Value(), limits.burst)
      && |charged| == |deferred| == STAGES
      && candidateBytes == Leased(leases) <= peakCandidateBytes <= limits.candidateBytes
    }

    /** Charges work; a refused charge still consumes what was left. */
    method ChargeWork(now: nat, stage: nat, amount: nat) returns (ok: bool)
      requires Valid() && stage < STAGES && amount <= U64_MAX
      modifies this
      ensures Valid() && updated == now
      ensures leases == old(leases) && peakCandidateBytes == old(peakCandidateBytes)
      ensures var elapsed := if now >= old(updated) then now - old(updated) else 0;
              var r := Charge(old(Value()), limits.burst, limits.rate * elapsed, amount);
              && Value() == r.0
              && ok == (r.1 == amount)
              && charged == old(charged)[stage := SaturatingU64(old(charged)[stage] + r.1)]
              && deferred == if ok then old(deferred)
                 else old(deferred)[stage := SaturatingU64(old(deferred)[stage] + 1)]
    {
      hide Gain, Refill, Leased;
      GainIs(limits.rate, Since(updated, now));
      RefillIsIdeal(Value(), limits.burst, Gain(limits.rate, Since(updated, now)));
      RefillNow(now);
      var taken := Min(amount, remaining);
      remaining := remaining - taken;
      charged := charged[stage := SaturatingU64(charged[stage] + taken)];
      ok := taken == amount;
      if !ok { deferred := deferred[stage := SaturatingU64(deferred[stage] + 1)]; }
    }

    /** Adds what accrued since the last charge. */
    method RefillNow(now: nat)
      modifies this`remaining, this`fractional, this`updated
      ensures updated == now
      ensures Value() == Refill(old(Value()), limits.burst, Gain(limits.rate, Since(old(updated), now)))
    {
      hide Gain;
      var accrued := SaturatingU128(SaturatingU128(Gain(limits.rate, Since(updated, now))) + fractional);
      updated := now;
      fractional := accrued % NANOS;
      var refill := if accrued / NANOS > U64_MAX then U64_MAX else accrued / NANOS;
      remaining := Min(SaturatingU64(remaining + refill), limits.burst);
      if remaining == limits.burst { fractional := 0; }
    }

    /** Reserves memory until the lease is released; refused exactly when the limit would be passed. */
    method ReserveCandidate(bytes: nat) returns (lease: CandidateReservation?)
      requires Valid()
      modifies this
      ensures Valid() && Value() == old(Value()) && updated == old(updated) && charged == old(charged)
      ensures lease != null <==> old(Leased(leases)) + bytes <= limits.candidateBytes
      ensures lease != null ==>
                fresh(lease) && lease.bytes == bytes && leases == old(leases) + {lease} && deferred == old(deferred)
      ensures peakCandidateBytes == if candidateBytes > old(peakCandidateBytes) then candidateBytes
                                    else old(peakCandidateBytes)
      ensures lease == null ==>
                leases == old(leases)
                  && deferred == old(deferred)[METADATA := SaturatingU64(old(deferred)[METADATA] + 1)]
    {
      var total := candidateBytes + bytes;
      if total > limits.candidateBytes {
        deferred := deferred[METADATA := SaturatingU64(deferred[METADATA] + 1)];
        return null;
      }
      candidateBytes := total;
      if peakCandidateBytes < total { peakCandidateBytes := total; }
      var granted := new CandidateReservation(bytes);
      ghost var held := leases;
      leases := leases + {granted};
      LeasedRemove(leases, granted);
      assert leases - {granted} == held;
      return granted;
    }

    /** Dropping a lease releases exactly its bytes. */
    method Release(lease: CandidateReservation)
      requires Valid() && lease in leases
      modifies this
      ensures Valid() && leases == old(leases) - {lease} && Value() == old(Value()) && updated == old(updated)
      ensures charged == old(charged) && deferred == old(deferred) && peakCandidateBytes == old(peakCandidateBytes)
      ensures candidateBytes == old(candidateBytes) - lease.bytes
    {
      LeasedRemove(leases, lease);
      candidateBytes := candidateBytes - lease.bytes;
      leases := leases - {lease};
    }
  }
}
