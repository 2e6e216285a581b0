/** Bit operations on natural numbers, as C applies them to unsigned integers,
    together with what masking with a run of ones means arithmetically. */
module Bits {

  function Pow2(n: nat): (r: nat)
    ensures r >= 1
  {
    if n == 0 then 1 else 2 * Pow2(n - 1)
  }

  lemma BytePowers()
    ensures Pow2(0) == 1 && Pow2(8) == 0x100 && Pow2(16) == 0x1_0000 && Pow2(24) == 0x100_0000
  {
  }

  /** Bitwise `x & y`. */
  function And(x: nat, y: nat): (r: nat)
    ensures r <= x && r <= y
  {
    if x == 0 || y == 0 then 0 else (if x % 2 + y % 2 == 2 then 1 else 0) + 2 * And(x / 2, y / 2)
  }

  /** Bitwise `x | y`. */
  function Or(x: nat, y: nat): (r: nat)
    ensures r >= x && r >= y
  {
    if x == 0 then y
    else if y == 0 then x
    else (if x % 2 + y % 2 == 0 then 0 else 1) + 2 * Or(x / 2, y / 2)
  }

  lemma {:induction false} Pow2Add(a: nat, b: nat)
    ensures Pow2(a + b) == Pow2(a) * Pow2(b)
  {
    if a == 0 {
    } else {
      Pow2Add(a - 1, b);
      assert Pow2(a + b) == 2 * Pow2((a - 1) + b);
      assert 2 * (Pow2(a - 1) * Pow2(b)) == (2 * Pow2(a - 1)) * Pow2(b);
    }
  }

  lemma HalfMod(x: nat, m: nat)
    requires m > 0
    ensures x % (2 * m) == x % 2 + 2 * (x / 2 % m)
  {
    var h := x / 2;
    var q, r := h / m, h % m;
    assert x == (2 * m) * q + (x % 2 + 2 * r) by {
      assert x == 2 * h + x % 2;
      assert h == m * q + r;
      assert 2 * (m * q) == (2 * m) * q;
    }
    DivModUnique(x, 2 * m, q, x % 2 + 2 * r);
  }

  lemma MulMonotone(w: nat, x: nat, y: nat)
    requires x <= y
    ensures w * x <= w * y && x * w <= y * w
  {
  }

  lemma MulAtLeast(m: int, d: int)
    requires m > 0 && d >= 1
    ensures m * d >= m
  {
  }

  lemma DivModUnique(x: int, m: int, q: int, r: int)
    requires m > 0 && 0 <= r < m && x == m * q + r
    ensures x / m == q && x % m == r
  {
    var q', r' := x / m, x % m;
    var d := q - q';
    assert m * d == r' - r by {
      assert x == m * q' + r';
      assert m * d == m * q - m * q';
    }
    if d >= 1 {
      MulAtLeast(m, d);
    } else if d <= -1 {
      MulAtLeast(m, -d);
    }
  }

  lemma HalfDiv(x: nat, m: nat)
    requires m > 0
    ensures x / 2 / m == x / (2 * m)
  {
    var q, r := x / 2 / m, x / 2 % m;
    assert x == (2 * m) * q + (2 * r + x % 2) by {
      assert x / 2 == m * q + r;
      assert (2 * m) * q == 2 * (m * q);
    }
    DivModUnique(x, 2 * m, q, 2 * r + x % 2);
  }

  /** `x & (2^a - 1)` keeps the low `a` bits. */
  lemma {:induction false} AndLow(x: nat, a: nat)
    ensures And(x, Pow2(a) - 1) == x % Pow2(a)
  {
    hide And;
    hide Pow2;
    if a == 0 {
      AndNone(x);
    } else {
      Pow2Doubles(a);
      AndLow(x / 2, a - 1);
      AndLowStep(x, Pow2(a - 1), Pow2(a), Pow2(a) - 1);
    }
  }

  lemma Pow2Doubles(a: nat)
    requires a > 0
    ensures Pow2(a) == 2 * Pow2(a - 1)
  {
  }

  lemma AndLowStep(x: nat, half: nat, whole: nat, ones: nat)
    requires half > 0 && whole == 2 * half && ones == whole - 1 && And(x / 2, half - 1) == x / 2 % half
    ensures And(x, ones) == x % whole
  {
    hide And;
    AndOdd(x, half - 1, ones);
    HalfMod(x, half);
  }

  lemma AndNone(x: nat)
    ensures And(x, Pow2(0) - 1) == 0 == x % Pow2(0)
  {
    hide And;
    assert Pow2(0) == 1;
    assert And(x, 0) <= 0;
  }

  lemma {:induction false} AndOdd(x: nat, m: nat, y: nat)
    requires y == 2 * m + 1
    ensures And(x, y) == x % 2 + 2 * And(x / 2, m)
  {
    assert y % 2 == 1 && y / 2 == m;
  }

  lemma {:induction false} AndDouble(x: nat, m: nat)
    ensures And(x, 2 * m) == 2 * And(x / 2, m)
  {
    assert 2 * m % 2 == 0 && 2 * m / 2 == m;
  }

  lemma MulDouble(c: int, p: int)
    ensures c * (2 * p) == 2 * (c * p)
  {
  }

  /** `x & ((2^a - 1) << b)` keeps the `a` bits above the low `b`. */
  lemma {:induction false} AndMask(x: nat, a: nat, b: nat)
    ensures And(x, (Pow2(a) - 1) * Pow2(b)) == x / Pow2(b) % Pow2(a) * Pow2(b)
  {
    var ones, p := Pow2(a) - 1, Pow2(b);
    if b == 0 {
      AndLow(x, a);
      assert ones * p == ones;
    } else {
      var h := Pow2(b - 1);
      var d := x / p % Pow2(a);
      calc {
        And(x, ones * p);
        { MulDouble(ones, h); }
        And(x, 2 * (ones * h));
        { AndDouble(x, ones * h); }
        2 * And(x / 2, ones * h);
        { AndMask(x / 2, a, b - 1); HalfDiv(x, h); }
        2 * (d * h);
        { MulDouble(d, h); }
        d * p;
      }
    }
  }

  lemma {:induction false} OrDouble(n: nat, y: nat)
    ensures Or(2 * n, y) == y % 2 + 2 * Or(n, y / 2)
  {
    assert 2 * n % 2 == 0 && 2 * n / 2 == n;
  }

  /** Bits that do not overlap are combined by `|` exactly as by addition. */
  lemma {:induction false} OrDisjoint(hi: nat, lo: nat, k: nat)
    requires lo < Pow2(k)
    ensures Or(hi * Pow2(k), lo) == hi * Pow2(k) + lo
  {
    if k == 0 {
    } else {
      var n := hi * Pow2(k - 1);
      assert hi * Pow2(k) == 2 * n by { MulDouble(hi, Pow2(k - 1)); }
      OrDisjoint(hi, lo / 2, k - 1);
      OrDouble(n, lo);
    }
  }
}
