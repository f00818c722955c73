/** The subsidy schedule and the bound on everything it ever mints. */
module Subsidy {
  import opened Arith
  import opened Words

  const INITIAL_SUBSIDY: nat := 50 * 100_000_000
  const BITCOIN_HALVING_INTERVAL: nat := 210_000

  function Quotient(n: nat, d: nat): nat
    requires d > 0
  {
    n / d
  }

  function Halved(halvings: nat): nat {
    Quotient(INITIAL_SUBSIDY, Pow2(halvings))
  }

  /** The subsidy halves every `interval` blocks and ends after 64 halvings. */
  function BlockSubsidy(height: nat, interval: nat): nat
    requires interval != 0
  {
    var halvings := Quotient(height, interval);
    if halvings >= 64 then 0 else Halved(halvings)
  }

  /** Epoch `k` pays fifty coins halved `k` times, and from the sixty-fourth on nothing. */
  lemma EpochSubsidy(interval: nat, k: nat, r: nat)
    requires r < interval
    ensures BlockSubsidy(interval * k + r, interval) == if k < 64 then 5_000_000_000 / Pow2(k) else 0
  {
    hide Quotient, Halved;
    QuotientIs(interval * k + r, interval, k, r);
    HalvedIs(k);
  }

  lemma HalvedIs(k: nat)
    ensures Halved(k) == 5_000_000_000 / Pow2(k)
  {
  }

  /** All subsidies of the heights below `n`. */
  function Minted(n: nat, interval: nat): nat
    requires interval != 0
  {
    if n == 0 then 0 else Minted(n - 1, interval) + BlockSubsidy(n - 1, interval)
  }

  lemma QuotientIs(n: nat, d: nat, k: nat, r: nat)
    requires r < d && n == d * k + r
    ensures Quotient(n, d) == k
  {
    DivModUnique(n, d, k, r);
  }

  lemma RemainderOf(n: nat, d: nat) returns (r: nat)
    requires d > 0
    ensures r < d && n == d * Quotient(n, d) + r
  {
    r := n % d;
  }

  lemma HalfOfHalf(x: nat, p: nat, d: nat)
    requires p > 0 && d == 2 * p
    ensures 2 * Quotient(x, d) <= Quotient(x, p)
  {
    hide Quotient;
    var q := Quotient(x, d);
    var s := RemainderOf(x, d);
    Doubled(p, q, d);
    if s < p {
      QuotientIs(x, p, 2 * q, s);
    } else {
      assert p * (2 * q + 1) == p * (2 * q) + p;
      QuotientIs(x, p, 2 * q + 1, s - p);
    }
  }

  lemma Doubled(p: nat, q: int, d: nat)
    requires d == 2 * p
    ensures d * q == p * (2 * q)
  {
  }

  /** What is still to be minted at most, with `r` blocks of the current epoch done. */
  function Remaining(halvings: nat, r: nat, interval: nat): nat
    requires r < interval
  {
    (2 * interval - r) * Halved(halvings)
  }

  lemma EpochEnds(k: nat, interval: nat)
    ensures (2 * interval) * Halved(k + 1) <= interval * Halved(k)
  {
    hide Quotient;
    HalfOfHalf(INITIAL_SUBSIDY, Pow2(k), Pow2(k + 1));
    var h, g := Halved(k), Halved(k + 1);
    hide Halved;
    Doubled(interval, g, 2 * interval);
    assert interval * (h - 2 * g) == interval * h - interval * (2 * g);
  }

  /** Where the block at a height stands: its epoch and its place there. */
  predicate At(n: nat, interval: nat, k: nat, r: nat) {
    r < interval && n == interval * k + r
  }

  lemma RemainingStep(n: nat, interval: nat, k: nat, r: nat) returns (k': nat, r': nat)
    requires At(n, interval, k, r)
    ensures At(n + 1, interval, k', r')
    ensures BlockSubsidy(n, interval) + Remaining(k', r', interval) <= Remaining(k, r, interval)
  {
    hide Halved, Quotient;
    QuotientIs(n, interval, k, r);
    if r + 1 < interval {
      k', r' := k, r + 1;
      assert Halved(k) + (2 * interval - (r + 1)) * Halved(k) == (2 * interval - r) * Halved(k);
    } else {
      k', r' := k + 1, 0;
      assert interval * (k + 1) == interval * k + interval;
      EpochEnds(k, interval);
      assert (2 * interval - r) * Halved(k) == interval * Halved(k) + Halved(k);
    }
  }

  lemma {:induction false} MintedSoFar(n: nat, interval: nat) returns (k: nat, r: nat)
    requires interval != 0
    ensures At(n, interval, k, r)
    ensures Minted(n, interval) + Remaining(k, r, interval) <= 2 * interval * INITIAL_SUBSIDY
  {
    hide BlockSubsidy, Remaining;
    if n == 0 {
      k, r := 0, 0;
      FirstRemaining(interval);
    } else {
      k, r := MintedSoFar(n - 1, interval);
      k, r := RemainingStep(n - 1, interval, k, r);
    }
  }

  lemma FirstRemaining(interval: nat)
    requires interval != 0
    ensures Remaining(0, 0, interval) == 2 * interval * INITIAL_SUBSIDY
  {
    assert Halved(0) == INITIAL_SUBSIDY by { assert Pow2(0) == 1; }
  }

  /** However long the chain, subsidies never exceed twice the first interval's. */
  lemma MintedBounded(n: nat, interval: nat)
    requires interval != 0
    ensures Minted(n, interval) <= 2 * interval * INITIAL_SUBSIDY
  {
    var k, r := MintedSoFar(n, interval);
  }
}
