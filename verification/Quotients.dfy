/** What the operators of `Bits` have to do with `*`, `/` and `%`. */
module Quotients {
  import opened Bits

  lemma {:induction false} TimesGrows(m: nat, t: nat)
    requires m > 0
    ensures m * t >= t
  {
  }

  lemma {:induction false} QuotientOf(q: nat, m: nat, r: nat)
    requires r < m
    ensures (q * m + r) / m == q && (q * m + r) % m == r
  {
    SameQuotient(q, m, r, (q * m + r) / m, (q * m + r) % m);
  }

  lemma {:induction false} SameQuotient(q: nat, m: nat, r: nat, d: nat, e: nat)
    requires r < m && e < m && q * m + r == d * m + e
    ensures d == q && e == r
  {
    if d < q {
      assert (q - d) * m == e - r;
      TimesGrows(q - d, m);
    } else if q < d {
      assert (d - q) * m == r - e;
      TimesGrows(d - q, m);
    }
  }

  lemma {:induction false} DivIsQuotient(a: nat, m: nat)
    requires m > 0
    ensures Div(a, m) == a / m && Mod(a, m) == a % m
  {
    hide Div, Mod, Mul;
    DivMod(a, m);
    MulIsTimes(Div(a, m), m);
    QuotientOf(Div(a, m), m, Mod(a, m));
  }

  lemma {:induction false} ShrIsQuotient(a: nat, n: nat)
    ensures Shr(a, n) == a / Pow2(n) && Low(a, n) == a % Pow2(n)
  {
    hide Shr, Low, Shl, Mul;
    Split(a, n);
    ShlIsMul(Shr(a, n), n);
    MulIsTimes(Shr(a, n), Pow2(n));
    QuotientOf(Shr(a, n), Pow2(n), Low(a, n));
  }

  // -------------------- divisors of a power of two --------------------

  lemma {:induction false} OddDivisor(m: nat, t: nat, n: nat)
    requires m * t == Pow2(n) && t % 2 == 1
    ensures t == 1
  {
    if n == 0 {
      FactorOfOne(m, t);
    } else {
      OddFactor(m, t);
      var q := m / 2;
      assert m * t == 2 * (q * t);
      OddDivisor(q, t, n - 1);
    }
  }

  lemma {:induction false} FactorOfOne(m: nat, t: nat)
    requires m * t == 1
    ensures t == 1
  {
    if m > 0 { TimesGrows(m, t); }
  }

  lemma {:induction false} OddFactor(m: nat, t: nat)
    requires (m * t) % 2 == 0 && t % 2 == 1
    ensures m % 2 == 0
  {
    var q := t / 2;
    assert m * t == 2 * (m * q) + m;
  }

  /** A divisor of a power of two that is at most a smaller one divides that too. */
  lemma {:induction false} DividesSmaller(m: nat, t: nat, n: nat, k: nat) returns (u: nat)
    requires m * t == Pow2(n) && m <= Pow2(k) && k <= n
    ensures m * u == Pow2(k)
  {
    if n == k {
      u := t;
    } else {
      EvenCofactor(m, t, n, k);
      Pow2Double(n - 1);
      hide Pow2;
      var q := t / 2;
      assert m * t == 2 * (m * q);
      u := DividesSmaller(m, q, n - 1, k);
    }
  }

  lemma {:induction false} EvenCofactor(m: nat, t: nat, n: nat, k: nat)
    requires m * t == Pow2(n) && m <= Pow2(k) && k < n
    ensures t % 2 == 0
  {
    Pow2Monotone(k, n);
    if t % 2 == 1 {
      OddDivisor(m, t, n);
      hide Pow2;
      assert false;
    }
  }
}
