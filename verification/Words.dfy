/**
 Unsigned machine words as natural numbers, with the bitwise operations the
 sources use spelled out as arithmetic on binary digits.
 */
module Words {
  function Pow2(n: nat): (r: nat)
    ensures r >= 1
  {
    if n == 0 then 1 else 2 * Pow2(n - 1)
  }

  lemma {:induction false} Pow2Sum(a: nat, b: nat)
    ensures Pow2(a + b) == Pow2(a) * Pow2(b)
  {
    if a > 0 {
      Pow2Sum(a - 1, b);
      assert Pow2(a + b) == 2 * Pow2(a - 1 + b);
    }
  }

  lemma {:induction false} Pow2Monotone(a: nat, b: nat)
    requires a <= b
    ensures Pow2(a) <= Pow2(b)
  {
    if a < b { Pow2Monotone(a, b - 1); }
  }

  /** `(w >> k) & 1 == 1` */
  predicate TestBit(w: nat, k: nat) {
    if k == 0 then w % 2 == 1 else TestBit(w / 2, k - 1)
  }

  /** `w | (1 << k)` */
  function SetBit(w: nat, k: nat): (r: nat) {
    if k == 0 then w - w % 2 + 1 else 2 * SetBit(w / 2, k - 1) + w % 2
  }

  /** `w & !mask` */
  function AndNot(w: nat, mask: nat): (r: nat)
    ensures r <= w
  {
    if w == 0 then 0
    else 2 * AndNot(w / 2, mask / 2) + (if w % 2 == 1 && mask % 2 == 0 then 1 else 0)
  }

  /** `w.count_ones()` */
  function CountOnes(w: nat): (r: nat)
    ensures r <= w
  {
    if w == 0 then 0 else w % 2 + CountOnes(w / 2)
  }

  lemma {:induction false} TestSetBit(w: nat, k: nat, j: nat)
    ensures TestBit(SetBit(w, k), j) <==> j == k || TestBit(w, j)
  {
    if j > 0 && k > 0 {
      TestSetBit(w / 2, k - 1, j - 1);
      assert SetBit(w, k) / 2 == SetBit(w / 2, k - 1);
    } else if j > 0 {
      assert SetBit(w, 0) / 2 == w / 2;
    }
  }

  lemma {:induction false} TestAndNot(w: nat, mask: nat, j: nat)
    ensures TestBit(AndNot(w, mask), j) <==> TestBit(w, j) && !TestBit(mask, j)
  {
    if w == 0 {
      TestZero(j);
    } else if j > 0 {
      TestAndNot(w / 2, mask / 2, j - 1);
      assert AndNot(w, mask) / 2 == AndNot(w / 2, mask / 2);
    }
  }

  lemma {:induction false} TestZero(j: nat)
    ensures !TestBit(0, j)
  {
    if j > 0 { TestZero(j - 1); }
  }

  /** Setting a bit below the width keeps the word inside the width. */
  lemma {:induction false} SetBitBound(w: nat, k: nat, width: nat)
    requires w < Pow2(width) && k < width
    ensures SetBit(w, k) < Pow2(width)
  {
    var half := Pow2(width - 1);
    assert Pow2(width) == 2 * half;
    if k > 0 {
      SetBitBound(w / 2, k - 1, width - 1);
    } else {
      assert w / 2 < half;
    }
  }
}
