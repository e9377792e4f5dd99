/** Unsigned bitwise arithmetic on naturals: what the alignment helpers compute with `&`
    and `!` on `u64`. */
module Bits {
  import opened Bytes

  const TWO_64: nat := 0x1_0000_0000_0000_0000

  /** Bitwise AND (Rust's `&` on unsigned integers). */
  function And(a: nat, b: nat): nat
    decreases a
  {
    if a == 0 || b == 0 then 0
    else 2 * And(a / 2, b / 2) + (if a % 2 == 1 && b % 2 == 1 then 1 else 0)
  }

  /** Bitwise NOT of a 64-bit value (Rust's `!` on `u64`). */
  function Not64(a: u64): u64 {
    TWO_64 - 1 - a
  }

  /** 1, 2, 4, 8, ... */
  predicate IsPowerOf2(a: nat)
    decreases a
  {
    a == 1 || (a > 1 && a % 2 == 0 && IsPowerOf2(a / 2))
  }

  lemma {:induction false} AndSelf(a: nat)
    ensures And(a, a) == a
    decreases a
  {
    if a != 0 {
      AndSelf(a / 2);
    }
  }

  /** The test `a != 0 && a & (a - 1) == 0` holds exactly for the powers of two. */
  lemma {:induction false} PowerOf2Test(a: nat)
    ensures (a != 0 && And(a, a - 1) == 0) <==> IsPowerOf2(a)
    decreases a
  {
    if a > 1 {
      if a % 2 == 0 {
        assert (a - 1) / 2 == a / 2 - 1;
        PowerOf2Test(a / 2);
      } else {
        assert (a - 1) / 2 == a / 2 && (a - 1) % 2 == 0;
        AndSelf(a / 2);
      }
    }
  }

  lemma {:induction false} PowIsPowerOf2(k: nat)
    ensures IsPowerOf2(Pow(2, k))
  {
    if k > 0 {
      PowIsPowerOf2(k - 1);
    }
  }

  /** Every power of two is 2^k for some k. */
  lemma {:induction false} PowerOf2IsPow(a: nat) returns (k: nat)
    requires IsPowerOf2(a)
    ensures Pow(2, k) == a
    decreases a
  {
    if a == 1 {
      k := 0;
    } else {
      var j := PowerOf2IsPow(a / 2);
      k := j + 1;
    }
  }

  lemma {:induction false} PowMonotone(j: nat, k: nat)
    requires j <= k
    ensures Pow(2, j) <= Pow(2, k)
    decreases k
  {
    if j < k {
      PowMonotone(j, k - 1);
    }
  }

  /** Masking with the low n bits keeps a value below 2^n. */
  lemma {:induction false} AndLowMask(x: nat, n: nat)
    requires x < Pow(2, n)
    ensures And(x, Pow(2, n) - 1) == x
    decreases n
  {
    if x != 0 {
      var m := Pow(2, n) - 1;
      assert n > 0;
      assert m / 2 == Pow(2, n - 1) - 1 && m % 2 == 1;
      AndLowMask(x / 2, n - 1);
    }
  }

  lemma MulAtLeast(d: nat, t: nat)
    requires t >= 1
    ensures d * t >= d
  {
    assert d * t == d * (t - 1) + d;
  }

  /** Quotient and remainder are unique. */
  lemma ModUnique(x: nat, d: nat, a: nat, c: nat)
    requires 0 <= c < d && x == d * a + c
    ensures x % d == c && x / d == a
  {
    var q, s := x / d, x % d;
    assert x == d * q + s;
    if q < a {
      assert d * a == d * q + d * (a - q);
      MulAtLeast(d, a - q);
      assert false;
    } else if q > a {
      assert d * q == d * a + d * (q - a);
      MulAtLeast(d, q - a);
      assert false;
    }
  }

  /** x with its low k bits cleared, by shifting right and back left k times. */
  function ClearLow(x: nat, k: nat): nat {
    if k == 0 then x else 2 * ClearLow(x / 2, k - 1)
  }

  lemma {:induction false} ClearLowIsRoundDown(x: nat, k: nat)
    ensures ClearLow(x, k) == (x / Pow(2, k)) * Pow(2, k)
  {
    if k > 0 {
      var p := Pow(2, k - 1);
      var q, r := x / 2, x % 2;
      var a, b := q / p, q % p;
      ClearLowIsRoundDown(q, k - 1);
      assert ClearLow(q, k - 1) == a * p;
      assert ClearLow(x, k) == 2 * (a * p);
      assert Pow(2, k) == 2 * p;
      RoundDownStep(x, p, q, r, a, b);
    }
  }

  lemma RoundDownStep(x: nat, p: nat, q: nat, r: nat, a: nat, b: nat)
    requires p >= 1 && q == x / 2 && r == x % 2 && a == q / p && b == q % p
    ensures x / (2 * p) == a
    ensures 2 * (a * p) == a * (2 * p)
  {
    assert q == p * a + b;
    assert x == 2 * q + r;
    assert x == (2 * p) * a + (2 * b + r);
    ModUnique(x, 2 * p, a, 2 * b + r);
  }

  lemma {:induction false} ClearAllLow(x: nat, n: nat)
    requires x < Pow(2, n)
    ensures ClearLow(x, n) == 0
  {
    if n > 0 {
      LemmaDivBound(x, 2, Pow(2, n - 1));
      ClearAllLow(x / 2, n - 1);
    }
  }

  lemma HalveMask(n: nat, k: nat)
    requires 1 <= k <= n
    ensures Pow(2, n) - Pow(2, k) == 2 * (Pow(2, n - 1) - Pow(2, k - 1))
    ensures (Pow(2, n) - Pow(2, k)) / 2 == Pow(2, n - 1) - Pow(2, k - 1)
    ensures (Pow(2, n) - Pow(2, k)) % 2 == 0
  {
  }

  lemma AndEvenStep(x: nat, m: nat, k: nat, half: nat)
    requires x != 0 && m != 0 && m % 2 == 0 && m / 2 == half && k >= 1
    requires And(x / 2, half) == ClearLow(x / 2, k - 1)
    ensures And(x, m) == ClearLow(x, k)
  {
  }

  /** One bit of AndHighMask: the mask is even, so the low bit is cleared and the rest is
      the halved value masked with the halved mask. */
  lemma AndHighStep(x: nat, n: nat, k: nat)
    requires 1 <= k < n && x != 0 && Pow(2, k - 1) <= Pow(2, n - 1)
    requires And(x / 2, Pow(2, n - 1) - Pow(2, k - 1)) == ClearLow(x / 2, k - 1)
    ensures And(x, Pow(2, n) - Pow(2, k)) == ClearLow(x, k)
  {
    var m, half := Pow(2, n) - Pow(2, k), Pow(2, n - 1) - Pow(2, k - 1);
    PowMonotone(k, n - 1);
    HalveMask(n, k);
    assert m != 0;
    AndEvenStep(x, m, k, half);
  }

  /** Masking with the bits k..n-1 set clears the low k bits of a value below 2^n. */
  lemma {:induction false} AndHighMask(x: nat, n: nat, k: nat)
    requires k <= n && x < Pow(2, n)
    ensures Pow(2, k) <= Pow(2, n)
    ensures And(x, Pow(2, n) - Pow(2, k)) == ClearLow(x, k)
    decreases k
  {
    PowMonotone(k, n);
    if k == 0 {
      AndLowMask(x, n);
    } else if k == n {
      ClearAllLow(x, n);
    } else if x != 0 {
      LemmaDivBound(x, 2, Pow(2, n - 1));
      AndHighMask(x / 2, n - 1, k - 1);
      AndHighStep(x, n, k);
    } else {
      ClearAllLow(0, k);
    }
  }

  /** A bitwise AND is no larger than its first operand. */
  lemma {:induction false} AndBound(a: nat, b: nat)
    ensures And(a, b) <= a
    decreases a
  {
    if a != 0 && b != 0 {
      AndBound(a / 2, b / 2);
    }
  }

  lemma {:induction false} PowAdd(b: nat, j: nat, k: nat)
    ensures Pow(b, j + k) == Pow(b, j) * Pow(b, k)
    decreases j
  {
    if j > 0 {
      PowAdd(b, j - 1, k);
      MulLeftAssoc(b, Pow(b, j - 1), Pow(b, k));
    }
  }

  lemma MulLeftAssoc(a: nat, b: nat, c: nat)
    ensures a * (b * c) == (a * b) * c
  {
  }

  /** 2^32 and 2^64, and the same as powers of 256. */
  lemma PowTwo64()
    ensures Pow(2, 32) == 0x1_0000_0000 && Pow(256, 4) == 0x1_0000_0000
    ensures Pow(2, 64) == TWO_64 && Pow(256, 8) == TWO_64
  {
    assert Pow(2, 8) == 256;
    PowAdd(2, 8, 8);
    PowAdd(2, 16, 16);
    PowAdd(2, 32, 32);
    assert Pow(256, 2) == 65536;
    PowAdd(256, 2, 2);
    PowAdd(256, 4, 4);
  }

  /** Powers of two are strictly increasing, so the exponent of a smaller one is smaller. */
  lemma PowBelow(k: nat, n: nat)
    requires Pow(2, k) < Pow(2, n)
    ensures k < n
  {
    if n <= k {
      PowMonotone(n, k);
    }
  }
}
