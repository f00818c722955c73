/**
 Core's amount compression: trailing decimal zeros become an exponent.  The
 transform is a bijection on all numbers, and its machine form overflows only
 where the result itself does.
 */
module CoreAmount {
  import opened Basics
  import opened Arith
  import opened CoreCodec

  /** A number with `e` decimal zeros put on. */
  function Scaled(m: nat, e: nat): (n: nat)
    ensures n >= m
  {
    if e == 0 then m else 10 * Scaled(m, e - 1)
  }

  /** Strips up to nine trailing zeros, counting from `e`. */
  function Strip(n: nat, e: nat): (nat, nat)
    decreases 9 - e
  {
    if n % 10 == 0 && e < 9 then Strip(n / 10, e + 1) else (n, e)
  }

  /** The code of a stripped number. */
  function Pack(m: nat, e: nat): nat
    requires m > 0
  {
    if e < 9 then 1 + (m / 10 * 9 + m % 10 - 1) * 10 + e else 1 + (m - 1) * 10 + 9
  }

  function Compress(amount: nat): nat {
    if amount == 0 then 0
    else
      StripFacts(amount, 0);
      Pack(Strip(amount, 0).0, Strip(amount, 0).1)
  }

  /** The number a code stands for before its zeros are put back. */
  function Unpack(code: nat): (nat, nat)
    requires code > 0
  {
    var e, y := (code - 1) % 10, (code - 1) / 10;
    (if e < 9 then y / 9 * 10 + y % 9 + 1 else y + 1, e)
  }

  function Decompress(code: nat): nat {
    if code == 0 then 0 else Scaled(Unpack(code).0, Unpack(code).1)
  }

  /** Stripping keeps the number and ends at a non-zero digit or at nine zeros. */
  lemma {:induction false} StripFacts(n: nat, e: nat)
    requires n > 0 && e <= 9
    ensures var (m, x) := Strip(n, e);
            m > 0 && e <= x <= 9 && (m % 10 != 0 || x == 9) && n == Scaled(m, x - e)
    decreases 9 - e
  {
    if n % 10 == 0 && e < 9 {
      StripFacts(n / 10, e + 1);
    }
  }

  /** Zeros put on are stripped off again. */
  lemma {:induction false} StripOf(m: nat, k: nat, e: nat)
    requires m > 0 && e + k <= 9 && (m % 10 != 0 || e + k == 9)
    ensures Strip(Scaled(m, k), e) == (m, e + k)
    decreases k
  {
    if k > 0 { StripOf(m, k - 1, e + 1); }
  }

  lemma UnpackPack(m: nat, e: nat)
    requires m > 0 && e <= 9 && (m % 10 != 0 || e == 9)
    ensures Pack(m, e) > 0 && Unpack(Pack(m, e)) == (m, e)
  {
    if e < 9 {
      var y := m / 10 * 9 + m % 10 - 1;
      DivModUnique(Pack(m, e) - 1, 10, y, e);
      DivModUnique(y, 9, m / 10, m % 10 - 1);
    }
  }

  lemma PackUnpack(code: nat)
    requires code > 0
    ensures var (m, e) := Unpack(code);
            m > 0 && e <= 9 && (m % 10 != 0 || e == 9) && Pack(m, e) == code
  {
    var e, y := (code - 1) % 10, (code - 1) / 10;
    if e < 9 {
      var m := y / 9 * 10 + y % 9 + 1;
      assert m / 10 == y / 9 && m % 10 == y % 9 + 1;
    }
  }

  /** Compression is undone by decompression, for every amount. */
  lemma DecompressCompress(amount: nat)
    ensures Decompress(Compress(amount)) == amount
  {
    if amount > 0 {
      StripFacts(amount, 0);
      var (m, e) := Strip(amount, 0);
      UnpackPack(m, e);
    }
  }

  /** Decompression is undone by compression, for every code. */
  lemma CompressDecompress(code: nat)
    ensures Compress(Decompress(code)) == code
  {
    if code > 0 {
      PackUnpack(code);
      var (m, e) := Unpack(code);
      StripOf(m, e, 0);
    }
  }

  /** A code is at most nine times the amount, so money-range amounts never overflow. */
  lemma CompressFits(amount: nat)
    ensures Compress(amount) <= 9 * amount
    ensures amount <= MAX_MONEY ==> Compress(amount) <= U64_MAX
  {
    if amount > 0 {
      StripFacts(amount, 0);
      var (m, e) := Strip(amount, 0);
      assert m == m / 10 * 10 + m % 10;
      if e > 0 { assert amount == 10 * Scaled(m, e - 1); }
    }
  }

  // ----- Machine arithmetic -----

  lemma ReducedShift(n: int, k: int)
    ensures Reduced(n + k * (U64_MAX + 1)) == Reduced(n)
  {
    var m := U64_MAX + 1;
    DivModUnique(n + k * m, m, n / m + k, n % m);
  }

  lemma ReducedAdds(n: int, k: int)
    ensures Reduced(Reduced(n) + k) == Reduced(n + k)
  {
    ReducedShift(n + k, -(n / (U64_MAX + 1)));
  }

  lemma ReducedTimesTen(n: int)
    ensures Reduced(Reduced(n) * 10) == Reduced(n * 10)
  {
    ReducedShift(n * 10, -10 * (n / (U64_MAX + 1)));
  }

  /** The last expression of the compression, operation by operation. */
  function WrappedCode(tenth: nat, digit: nat, exponent: nat): nat {
    var inner := Reduced(Reduced(Reduced(tenth * 9) + digit) - 1);
    Reduced(Reduced(1 + Reduced(inner * 10)) + exponent)
  }

  lemma WrappedOnce(tenth: nat, digit: nat, exponent: nat)
    ensures WrappedCode(tenth, digit, exponent) == Reduced(1 + (tenth * 9 + digit - 1) * 10 + exponent)
  {
    hide Reduced;
    ReducedAdds(tenth * 9, digit);
    ReducedAdds(tenth * 9 + digit, -1);
    ReducedTimesTen(tenth * 9 + digit - 1);
    ReducedAdds((tenth * 9 + digit - 1) * 10, 1);
    ReducedAdds(1 + (tenth * 9 + digit - 1) * 10, exponent);
  }

  /** Unchecked 64-bit compression gives what 64 bits keep of the code. */
  method CompressAmount(amount: nat) returns (code: nat)
    requires amount <= U64_MAX
    ensures code == Reduced(Compress(amount))
  {
    hide Reduced, WrappedCode, Scaled;
    ReducedSmall(0);
    if amount == 0 { return 0; }
    StripFacts(amount, 0);
    var rest, exponent := amount, 0;
    while rest % 10 == 0 && exponent < 9
      invariant 0 < rest <= amount && exponent <= 9 && Strip(amount, 0) == Strip(rest, exponent)
      decreases 9 - exponent
    {
      rest, exponent := rest / 10, exponent + 1;
    }
    if exponent < 9 {
      WrappedOnce(rest / 10, rest % 10, exponent);
      code := WrappedCode(rest / 10, rest % 10, exponent);
    } else {
      TenToTheNinth(rest);
      code := 1 + (rest - 1) * 10 + 9;
      ReducedSmall(code);
    }
  }

  /**
   When compression is exact: 64 bits keep the code, and decompression returns
   the amount, exactly when the amount stands for some 64-bit code.
   */
  lemma CompressExactlyWhen(amount: nat)
    ensures Compress(amount) <= U64_MAX <==> exists code: nat :: code <= U64_MAX && Decompress(code) == amount
    ensures Decompress(Reduced(Compress(amount))) == amount <==> Compress(amount) <= U64_MAX
  {
    hide Compress, Decompress;
    DecompressCompress(amount);
    forall code: nat | Decompress(code) == amount ensures code == Compress(amount) { CompressDecompress(code); }
  }

  /** The largest amount overflows; a larger one than a ninth of the range need not. */
  lemma CompressOverflows()
    ensures Compress(U64_MAX) > U64_MAX
    ensures Decompress(Reduced(Compress(U64_MAX))) != U64_MAX
    ensures Compress(3_000_000_000_000_000_000) == 30_000_000_000 && 9 * 3_000_000_000_000_000_000 > U64_MAX
  {
    assert Strip(U64_MAX, 0) == (U64_MAX, 0);
    CompressExactlyWhen(U64_MAX);
    PackUnpack(30_000_000_000);
    StripOf(3_000_000_000, 9, 0);
    TenToTheNinth(3_000_000_000);
  }

  lemma TenToTheNinth(m: nat)
    ensures Scaled(m, 9) == 1_000_000_000 * m
  {
    assert Scaled(m, 1) == 10 * m;
    assert Scaled(m, 2) == 100 * m;
    assert Scaled(m, 4) == 10_000 * m;
    assert Scaled(m, 6) == 1_000_000 * m;
    assert Scaled(m, 8) == 100_000_000 * m;
  }

  /** Checked 64-bit decompression fails exactly when the amount does not fit. */
  method DecompressAmount(code: nat) returns (amount: Option<nat>)
    requires code <= U64_MAX
    ensures amount == if Decompress(code) <= U64_MAX then Some(Decompress(code)) else None
  {
    if code == 0 { return Some(0); }
    ghost var m, e := Unpack(code).0, Unpack(code).1;
    var exponent: nat, value: nat := (code - 1) % 10, (code - 1) / 10;
    var result: nat;
    if exponent < 9 {
      var digit := value % 9 + 1;
      value := value / 9;
      result := value * 10 + digit;
    } else {
      result := value + 1;
    }
    assert result == m <= U64_MAX;
    ghost var done := 0;
    while exponent > 0
      invariant exponent + done == e && result == Scaled(m, done) <= U64_MAX
    {
      assert Scaled(m, done + 1) == 10 * result;
      ScaledGrows(m, done + 1, e);
      if result * 10 > U64_MAX { return None; }
      result, exponent, done := result * 10, exponent - 1, done + 1;
    }
    return Some(result);
  }

  lemma {:induction false} ScaledGrows(m: nat, a: nat, b: nat)
    requires a <= b
    ensures Scaled(m, a) <= Scaled(m, b)
  {
    if a < b { ScaledGrows(m, a, b - 1); }
  }
}
