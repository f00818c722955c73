/** Bit vectors in 64-bit words: positions, counts, and the ranks kept per word. */
module BitRank {
  import opened Arith
  import opened Words

  type Word = w: nat | w < 0x1_0000_0000_0000_0000

  lemma SmallWidth()
    ensures Pow2(4) == 16
  {
  }

  lemma WordWidth()
    ensures Pow2(64) == 0x1_0000_0000_0000_0000
  {
    hide Pow2;
    SmallWidth();
    Pow2Sum(4, 4);
    Pow2Sum(8, 8);
    Pow2Sum(16, 16);
    Pow2Sum(32, 32);
  }

  // ----- One word -----

  /** The set bits of a word below position `k`. */
  function CountBelow(w: nat, k: nat): nat {
    if k == 0 then 0 else CountBelow(w, k - 1) + if TestBit(w, k - 1) then 1 else 0
  }

  lemma {:induction false} CountBelowShift(w: nat, k: nat)
    ensures CountBelow(w, k + 1) == w % 2 + CountBelow(w / 2, k)
  {
    if k > 0 {
      CountBelowShift(w, k - 1);
    }
  }

  /** `(w & ((1 << k) - 1)).count_ones()` counts the set bits below `k`. */
  lemma {:induction false} OnesOfLow(w: nat, k: nat)
    ensures CountOnes(w % Pow2(k)) == CountBelow(w, k)
  {
    if k > 0 {
      var p := Pow2(k - 1);
      LowHalf(w, p);
      OnesOfLow(w / 2, k - 1);
      CountBelowShift(w, k - 1);
      OnesStep(w % Pow2(k));
    }
  }

  lemma OnesStep(w: nat)
    ensures CountOnes(w) == w % 2 + CountOnes(w / 2)
  {
  }

  /** Reducing by a power of two keeps the lowest bit and reduces the rest. */
  lemma LowHalf(w: nat, p: nat)
    requires p >= 1
    ensures w % (2 * p) % 2 == w % 2 && w % (2 * p) / 2 == w / 2 % p
  {
    var q, r := w / 2 / p, w / 2 % p;
    assert w / 2 == p * q + r;
    assert w == (2 * p) * q + (2 * r + w % 2) by { assert 2 * (p * q) == (2 * p) * q; }
    DivModUnique(w, 2 * p, q, 2 * r + w % 2);
  }

  lemma OnesOfWord(w: Word)
    ensures CountOnes(w) == CountBelow(w, 64)
  {
    hide CountOnes, CountBelow, Pow2;
    WordWidth();
    OnesOfLow(w, 64);
  }

  // ----- Vectors -----

  predicate BitAt(bits: seq<Word>, p: nat)
    requires p < 64 * |bits|
  {
    TestBit(bits[p / 64], p % 64)
  }

  /** The set bits below position `p`. */
  function CountTo(bits: seq<Word>, p: nat): (n: nat)
    requires p <= 64 * |bits|
    ensures n <= p
  {
    if p == 0 then 0 else CountTo(bits, p - 1) + if BitAt(bits, p - 1) then 1 else 0
  }

  lemma {:induction false} CountInWord(bits: seq<Word>, w: nat, k: nat)
    requires w < |bits| && k <= 64
    ensures CountTo(bits, 64 * w + k) == CountTo(bits, 64 * w) + CountBelow(bits[w], k)
  {
    if k > 0 {
      CountInWord(bits, w, k - 1);
      assert (64 * w + (k - 1)) / 64 == w && (64 * w + (k - 1)) % 64 == k - 1;
    }
  }

  function SumOnes(bits: seq<Word>): nat {
    if bits == [] then 0 else SumOnes(bits[..|bits| - 1]) + CountOnes(bits[|bits| - 1])
  }

  /** Counting words counts positions. */
  lemma {:induction false} SumIsCount(bits: seq<Word>, w: nat)
    requires w <= |bits|
    ensures SumOnes(bits[..w]) == CountTo(bits, 64 * w)
  {
    hide CountBelow, CountOnes, BitAt;
    if w > 0 {
      SumIsCount(bits, w - 1);
      CountInWord(bits, w - 1, 64);
      OnesOfWord(bits[w - 1]);
      assert bits[..w][..w - 1] == bits[..w - 1];
    }
  }

  /** A set position is counted by every later one. */
  lemma {:induction false} CountStrict(bits: seq<Word>, p: nat, q: nat)
    requires p < q <= 64 * |bits| && BitAt(bits, p)
    ensures CountTo(bits, p) < CountTo(bits, q)
    decreases q
  {
    if q > p + 1 { CountStrict(bits, p, q - 1); }
  }

  /** Every rank belongs to a set position. */
  lemma {:induction false} Select(bits: seq<Word>, n: nat, r: nat) returns (p: nat)
    requires n <= 64 * |bits| && r < CountTo(bits, n)
    ensures p < n && BitAt(bits, p) && CountTo(bits, p) == r
  {
    if r == CountTo(bits, n - 1) {
      p := n - 1;
    } else {
      p := Select(bits, n - 1, r);
    }
  }

  /** The ranks kept per word. */
  predicate RanksOf(ranks: seq<nat>, bits: seq<Word>) {
    |ranks| == |bits| && forall w | 0 <= w < |bits| :: ranks[w] == SumOnes(bits[..w])
  }

  method BuildWordRanks(bits: seq<Word>) returns (ranks: seq<nat>)
    ensures RanksOf(ranks, bits)
  {
    ranks := [];
    var rank: nat := 0;
    for w := 0 to |bits|
      invariant |ranks| == w && rank == SumOnes(bits[..w])
      invariant forall v | 0 <= v < w :: ranks[v] == SumOnes(bits[..v])
    {
      ranks := ranks + [rank];
      rank := rank + CountOnes(bits[w]);
      assert bits[..w + 1][..w] == bits[..w];
    }
  }

  method CountAll(bits: seq<Word>) returns (total: nat)
    ensures total == CountTo(bits, 64 * |bits|)
  {
    total := 0;
    for w := 0 to |bits|
      invariant total == SumOnes(bits[..w])
    {
      total := total + CountOnes(bits[w]);
      assert bits[..w + 1][..w] == bits[..w];
    }
    SumIsCount(bits, |bits|);
  }

  /** A word rank and the ones below in the word give the count of a position. */
  lemma RankOfPosition(ranks: seq<nat>, bits: seq<Word>, p: nat)
    requires RanksOf(ranks, bits) && p < 64 * |bits|
    ensures ranks[p / 64] + CountOnes(bits[p / 64] % Pow2(p % 64)) == CountTo(bits, p)
  {
    hide CountTo, SumOnes, CountOnes, CountBelow, Pow2;
    assert p == 64 * (p / 64) + p % 64;
    SumIsCount(bits, p / 64);
    CountInWord(bits, p / 64, p % 64);
    OnesOfLow(bits[p / 64], p % 64);
  }
}
