/** Remainders and powers of two. */
module Arith {
  lemma MulApart(d: int, m: int)
    requires m > 0
    ensures d == 0 || d * m >= m || d * m <= -m
  {
    if d > 0 {
      assert (d - 1) * m >= 0;
    } else if d < 0 {
      assert (-d - 1) * m >= 0;
    }
  }

  lemma ModIs(x: int, m: int, q: int, r: int)
    requires m > 0 && 0 <= r < m && x == q * m + r
    ensures x % m == r
  {
    MulApart(x / m - q, m);
    assert (x / m - q) * m == r - x % m;
  }

  lemma ModShift(x: int, m: int)
    requires m > 0
    ensures (x + m) % m == x % m
  {
    ModIs(x + m, m, x / m + 1, x % m);
  }

  function Pow2(k: nat): (p: nat)
    ensures p > 0
  {
    if k == 0 then 1 else 2 * Pow2(k - 1)
  }

  lemma {:induction false} FiveNeverDivides(k: nat)
    ensures Pow2(k) % 5 != 0
  {
    if k > 0 {
      FiveNeverDivides(k - 1);
    }
  }

  /** Bitwise and. */
  function And(x: nat, y: nat): nat {
    if x == 0 || y == 0 then 0 else 2 * And(x / 2, y / 2) + (x % 2) * (y % 2)
  }

  /** Masking with a power of two less one is taking the remainder. */
  lemma {:induction false} AndMask(x: nat, d: nat)
    ensures And(x, Pow2(d) - 1) == x % Pow2(d)
    decreases d
  {
    if d == 0 {
      ModIs(x, 1, x, 0);
    } else if x == 0 {
      ModIs(0, Pow2(d), 0, 0);
    } else {
      var p := Pow2(d - 1);
      assert (2 * p - 1) / 2 == p - 1 && (2 * p - 1) % 2 == 1;
      AndMask(x / 2, d - 1);
      HalfMod(x, p);
    }
  }

  lemma HalfMod(x: nat, p: nat)
    requires p > 0
    ensures x % (2 * p) == 2 * (x / 2 % p) + x % 2
  {
    var q, r := x / 2 / p, x / 2 % p;
    assert x / 2 == q * p + r;
    assert x == q * (2 * p) + (2 * r + x % 2);
    ModIs(x, 2 * p, q, 2 * r + x % 2);
  }

  lemma {:induction false} Pow2Splits(d: nat, w: nat)
    requires d <= w
    ensures Pow2(w) == Pow2(d) * Pow2(w - d)
    decreases d
  {
    if d > 0 {
      Pow2Splits(d - 1, w - 1);
      assert Pow2(w) == 2 * (Pow2(d - 1) * Pow2(w - d)) == (2 * Pow2(d - 1)) * Pow2(w - d);
    }
  }

  lemma ModOfMod(x: int, m: nat, k: nat)
    requires m > 0 && k > 0
    ensures m * k > 0 && x % (m * k) % m == x % m
  {
    MulApart(k, m);
    assert m * k == k * m;
    var q, r := x / (m * k), x % (m * k);
    var q', r' := r / m, r % m;
    assert x == (q * k) * m + r by {
      assert q * (m * k) == (q * k) * m;
    }
    assert x == (q * k + q') * m + r' by {
      assert (q * k + q') * m == (q * k) * m + q' * m;
    }
    ModIs(x, m, q * k + q', r');
  }
}
