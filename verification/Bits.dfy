/** Unsigned integers of the C++ runtime: shifts, masks, division and wrap-around.

Each operator is defined by recursion on bits (or, for division by a number that is no power of two, by repeated
subtraction), so every proof about it is linear. Module `Quotients` ties them back to `/` and `%`.
*/
module Bits {

  const WORD32: nat := 0x1_0000_0000
  const WORD64: nat := 0x1_0000_0000_0000_0000

  type Byte = b: int | 0 <= b < 256

  function Pow2(n: nat): (r: nat)
    ensures r >= 1
  {
    if n == 0 then 1 else 2 * Pow2(n - 1)
  }

  // `a << n`, without truncation
  function Shl(a: nat, n: nat): nat {
    if n == 0 then a else 2 * Shl(a, n - 1)
  }

  // `a >> n`
  function Shr(a: nat, n: nat): nat {
    if n == 0 then a else Shr(a / 2, n - 1)
  }

  // The `n` low bits of `a`, which is what `a & MAKE_MASK(n)` and a conversion to an `n`-bit type keep
  function Low(a: nat, n: nat): (r: nat)
    ensures r < Pow2(n)
    ensures r <= a
  {
    if n == 0 then 0 else a % 2 + 2 * Low(a / 2, n - 1)
  }

  // Bit `i` of `a`
  function Bit(a: nat, i: nat): nat {
    if i == 0 then a % 2 else Bit(a / 2, i - 1)
  }

  // `a & b`
  function And(a: nat, b: nat): nat {
    if a == 0 || b == 0 then 0 else 2 * And(a / 2, b / 2) + (if a % 2 == 1 && b % 2 == 1 then 1 else 0)
  }

  // `a | b`
  function Or(a: nat, b: nat): nat
    decreases a + b
  {
    if a == 0 then b else if b == 0 then a
    else 2 * Or(a / 2, b / 2) + (if a % 2 == 1 || b % 2 == 1 then 1 else 0)
  }

  // The `MAKE_MASK` macro
  function Mask(n: nat): nat { Pow2(n) - 1 }

  // 32-bit unsigned results
  function Wrap(a: nat): nat { a % WORD32 }
  function Not32(a: nat): nat { WORD32 - 1 - Wrap(a) }
  function Shl32(a: nat, n: nat): nat { Wrap(Shl(a, n)) }
  function Sub32(a: nat, b: nat): nat { (a - b) % WORD32 }

  // Unsigned `a * m`, `a / m` and `a % m`
  function Mul(a: nat, m: nat): nat {
    if a == 0 then 0 else m + Mul(a - 1, m)
  }

  function Div(a: nat, m: nat): nat
    requires m > 0
  {
    if a < m then 0 else 1 + Div(a - m, m)
  }

  function Mod(a: nat, m: nat): (r: nat)
    requires m > 0
    ensures r < m
  {
    if a < m then a else Mod(a - m, m)
  }

  /** `ceil(log2(n))` */
  function CLog2(n: nat): (r: nat)
    ensures n <= Pow2(r)
    ensures n > 1 ==> r >= 1 && Pow2(r - 1) < n
  {
    if n <= 1 then 0 else 1 + CLog2((n + 1) / 2)
  }

  predicate IsPow2(n: nat) { n == Pow2(CLog2(n)) }

  // -------------------- multiplication and division --------------------

  lemma {:induction false} MulIsTimes(a: nat, m: nat)
    ensures Mul(a, m) == a * m
  {
    if a == 0 {
    } else {
      MulIsTimes(a - 1, m);
    }
  }

  lemma {:induction false} MulPlus(a: nat, b: nat, m: nat)
    ensures Mul(a + b, m) == Mul(a, m) + Mul(b, m)
  {
    if a == 0 {
    } else {
      MulPlus(a - 1, b, m);
    }
  }

  lemma {:induction false} MulMonotone(a: nat, b: nat, m: nat)
    requires a <= b
    ensures Mul(a, m) <= Mul(b, m)
    ensures a < b ==> Mul(a, m) + m <= Mul(b, m)
  {
    if a == b {
    } else {
      MulMonotone(a, b - 1, m);
    }
  }

  lemma {:induction false} MulTwice(a: nat, m: nat)
    ensures Mul(Mul(a, m), 2) == Mul(a, m * 2) == 2 * Mul(a, m)
  {
    if a == 0 {
    } else {
      MulTwice(a - 1, m);
      MulPlus(m, Mul(a - 1, m), 2);
      MulByTwo(m);
    }
  }

  lemma {:induction false} MulByTwo(a: nat)
    ensures Mul(a, 2) == a * 2
  {
    if a == 0 {
    } else {
      MulByTwo(a - 1);
    }
  }

  lemma {:induction false} DivMod(a: nat, m: nat)
    requires m > 0
    ensures a == Mul(Div(a, m), m) + Mod(a, m)
  {
    if a < m {
    } else {
      DivMod(a - m, m);
    }
  }

  lemma {:induction false} DivModOf(q: nat, m: nat, r: nat)
    requires r < m
    ensures Div(Mul(q, m) + r, m) == q && Mod(Mul(q, m) + r, m) == r
  {
    if q == 0 {
    } else {
      DivModOf(q - 1, m, r);
    }
  }

  lemma {:induction false} DivBound(a: nat, m: nat, n: nat)
    requires m > 0 && a < Mul(n, m)
    ensures Div(a, m) < n
  {
    DivMod(a, m);
    if Div(a, m) >= n { MulMonotone(n, Div(a, m), m); }
  }

  // -------------------- powers of two --------------------

  lemma {:induction false} Pow2Monotone(m: nat, n: nat)
    requires m <= n
    ensures Pow2(m) <= Pow2(n)
    ensures m < n ==> 2 * Pow2(m) <= Pow2(n)
  {
    if m == n {
    } else {
      Pow2Monotone(m, n - 1);
    }
  }

  lemma {:induction false} Pow2Double(n: nat)
    ensures Pow2(n + 1) == 2 * Pow2(n)
  {
  }

  lemma {:induction false} Pow2Add(m: nat, n: nat)
    ensures Shl(Pow2(m), n) == Pow2(m + n)
  {
    if n == 0 {
    } else {
      Pow2Add(m, n - 1);
    }
  }

  lemma {:induction false} SmallPow2()
    ensures Pow2(1) == 2 && Pow2(2) == 4 && Pow2(3) == 8 && Pow2(4) == 16 && Pow2(5) == 32
  {
  }

  lemma {:induction false} LogOfPow2(k: nat)
    ensures CLog2(Pow2(k)) == k
  {
    var r := CLog2(Pow2(k));
    if k == 0 {
      assert Pow2(0) == 1;
    } else {
      Pow2Double(k - 1);
      hide Pow2, CLog2;
      if r < k { Pow2Monotone(r, k - 1); }
      if r > k { Pow2Monotone(k, r - 1); }
    }
  }

  lemma {:induction false} Pow2Values()
    ensures Pow2(12) == 4096 && Pow2(23) == 0x80_0000
    ensures Pow2(16) == 0x1_0000 && Pow2(17) == 0x2_0000 && Pow2(18) == 0x4_0000 && Pow2(29) == 0x2000_0000
    ensures Pow2(30) == 0x4000_0000 && Pow2(31) == 0x8000_0000 && Pow2(32) == WORD32
  {
    assert Pow2(8) == 256;
    assert Pow2(12) == 4096 && Pow2(16) == 0x1_0000;
    assert Pow2(20) == 0x10_0000;
    assert Pow2(23) == 0x80_0000 && Pow2(24) == 0x100_0000;
    assert Pow2(28) == 0x1000_0000;
    assert Pow2(32) == WORD32;
  }

  // -------------------- shifting --------------------

  lemma {:induction false} Split(a: nat, n: nat)
    ensures a == Shl(Shr(a, n), n) + Low(a, n)
  {
    if n == 0 {
    } else {
      Split(a / 2, n - 1);
    }
  }

  lemma {:induction false} Join(q: nat, n: nat, r: nat)
    requires r < Pow2(n)
    ensures Shr(Shl(q, n) + r, n) == q && Low(Shl(q, n) + r, n) == r
  {
    if n == 0 {
    } else {
      Join(q, n - 1, r / 2);
    }
  }

  lemma {:induction false} ShlAdd(a: nat, m: nat, n: nat)
    ensures Shl(Shl(a, m), n) == Shl(a, m + n)
  {
    if n == 0 {
    } else {
      ShlAdd(a, m, n - 1);
    }
  }

  lemma {:induction false} ShrAdd(a: nat, m: nat, n: nat)
    ensures Shr(Shr(a, m), n) == Shr(a, m + n)
  {
    if m == 0 {
    } else {
      ShrAdd(a / 2, m - 1, n);
    }
  }

  lemma {:induction false} ShlPlus(a: nat, b: nat, n: nat)
    ensures Shl(a + b, n) == Shl(a, n) + Shl(b, n)
  {
    if n == 0 {
    } else {
      ShlPlus(a, b, n - 1);
    }
  }

  lemma {:induction false} ShlMonotone(a: nat, b: nat, n: nat)
    requires a <= b
    ensures Shl(a, n) <= Shl(b, n)
    ensures a < b ==> Shl(a, n) + Pow2(n) <= Shl(b, n)
  {
    if n == 0 {
    } else {
      ShlMonotone(a, b, n - 1);
    }
  }

  lemma {:induction false} ShrMonotone(a: nat, b: nat, n: nat)
    requires a <= b
    ensures Shr(a, n) <= Shr(b, n)
  {
    if n == 0 {
    } else {
      ShrMonotone(a / 2, b / 2, n - 1);
    }
  }

  lemma {:induction false} ShlBound(a: nat, m: nat, n: nat)
    requires a < Pow2(m)
    ensures Shl(a, n) + Pow2(n) <= Pow2(m + n)
  {
    if n == 0 {
    } else {
      ShlBound(a, m, n - 1);
    }
  }

  lemma {:induction false} ShrBound(a: nat, m: nat, n: nat)
    ensures a < Pow2(m + n) <==> Shr(a, n) < Pow2(m)
  {
    if n == 0 {
    } else {
      ShrBound(a / 2, m, n - 1);
    }
  }

  lemma {:induction false} LowSmall(a: nat, n: nat)
    requires a < Pow2(n)
    ensures Low(a, n) == a && Shr(a, n) == 0
  {
    if n == 0 {
    } else {
      LowSmall(a / 2, n - 1);
    }
  }

  // The low `m + n` bits are the low `n` bits below the next `m`.
  lemma {:induction false} LowSplit(a: nat, m: nat, n: nat)
    ensures Low(a, m + n) == Shl(Low(Shr(a, n), m), n) + Low(a, n)
  {
    if n == 0 {
    } else {
      LowSplit(a / 2, m, n - 1);
    }
  }

  lemma {:induction false} LowShl(a: nat, m: nat, n: nat)
    ensures Low(Shl(a, n), m + n) == Shl(Low(a, m), n)
  {
    if n == 0 {
    } else {
      LowShl(a, m, n - 1);
    }
  }

  lemma {:induction false} LowPlusMultiple(a: nat, q: nat, n: nat)
    ensures Low(a + Shl(q, n), n) == Low(a, n) && Shr(a + Shl(q, n), n) == Shr(a, n) + q
  {
    Split(a, n);
    ShlPlus(Shr(a, n), q, n);
    Join(Shr(a, n) + q, n, Low(a, n));
  }

  // Adding below the end of the aligned block leaves the bits above unchanged.
  lemma {:induction false} AddWithin(a: nat, k: nat, n: nat)
    requires Low(a, n) + k < Pow2(n)
    ensures Shr(a + k, n) == Shr(a, n) && Low(a + k, n) == Low(a, n) + k
  {
    Split(a, n);
    Join(Shr(a, n), n, Low(a, n) + k);
  }

  lemma {:induction false} ShlIsMul(a: nat, n: nat)
    ensures Shl(a, n) == Mul(a, Pow2(n))
  {
    if a > 0 {
      ShlIsMul(a - 1, n);
      ShlPlus(1, a - 1, n);
      Pow2IsShl(n);
    } else {
      ShlOfZero(n);
    }
  }

  lemma {:induction false} Pow2IsShl(n: nat)
    ensures Pow2(n) == Shl(1, n)
  {
    if n == 0 {
    } else {
      Pow2IsShl(n - 1);
    }
  }

  lemma {:induction false} ShlOfZero(n: nat)
    ensures Shl(0, n) == 0
  {
    if n == 0 {
    } else {
      ShlOfZero(n - 1);
    }
  }

  lemma {:induction false} WrapIsLow(a: nat)
    ensures Wrap(a) == Low(a, 32) && Pow2(32) == WORD32
  {
    Pow2Values();
    Split(a, 32);
    ShlIsMul(Shr(a, 32), 32);
    MulIsTimes(Shr(a, 32), WORD32);
  }

  // -------------------- masking and combining --------------------

  lemma {:induction false} AndMask(a: nat, n: nat)
    ensures And(a, Mask(n)) == Low(a, n) == And(Mask(n), a)
  {
    if n == 0 {
    } else {
      AndMask(a / 2, n - 1);
    }
  }

  // `a & ~MAKE_MASK(n)` on `w`-bit operands
  lemma {:induction false} AndHighMask(a: nat, n: nat, w: nat)
    requires n <= w && a < Pow2(w)
    ensures Mask(n) <= Mask(w)
    ensures And(Mask(w) - Mask(n), a) == a - Low(a, n)
  {
    hide And, Low, Pow2;
    Pow2Monotone(n, w);
    if n == 0 {
      AndAllMask(a, w);
    } else {
      Pow2Double(w - 1);
      MaskDouble(n, w);
      AndHighMask(a / 2, n - 1, w - 1);
      AndHighStep(a, n, Mask(w - 1) - Mask(n - 1));
    }
  }

  lemma {:induction false} AndAllMask(a: nat, w: nat)
    requires a < Pow2(w)
    ensures And(Mask(w) - Mask(0), a) == a - Low(a, 0)
  {
    assert Mask(0) == 0 && Low(a, 0) == 0;
    hide And, Low, Pow2;
    AndMask(a, w);
    LowSmall(a, w);
  }

  lemma {:induction false} AndHighStep(a: nat, n: nat, m: nat)
    requires n > 0 && And(m, a / 2) == a / 2 - Low(a / 2, n - 1)
    ensures And(2 * m, a) == a - Low(a, n)
  {
    LowUnfold(a, n);
    AndEven(m, a);
    hide And, Low, Pow2;
  }

  lemma {:induction false} AndEven(m: nat, a: nat)
    ensures And(2 * m, a) == 2 * And(m, a / 2)
  {
    hide Pow2;
  }

  lemma {:induction false} MaskDouble(n: nat, w: nat)
    requires 0 < n <= w
    ensures Mask(n) == 2 * Mask(n - 1) + 1 && Mask(w) == 2 * Mask(w - 1) + 1
  {
  }

  lemma {:induction false} LowUnfold(a: nat, n: nat)
    requires n > 0
    ensures Low(a, n) == a % 2 + 2 * Low(a / 2, n - 1)
  {
  }

  // `(~MAKE_MASK(w) & a) >> w`
  lemma {:induction false} HighField(a: nat, w: nat)
    requires a < WORD32 && w <= 32
    ensures Shr(And(Not32(Mask(w)), a), w) == Shr(a, w)
  {
    hide And, Pow2;
    WrapIsLow(Mask(w));
    AndHighMask(a, w, 32);
    LowSmall(Mask(w), 32);
    Split(a, w);
    Join(Shr(a, w), w, 0);
  }

  lemma {:induction false} OrDisjoint(a: nat, n: nat, b: nat)
    requires b < Pow2(n)
    ensures Or(Shl(a, n), b) == Shl(a, n) + b == Or(b, Shl(a, n))
  {
    if n == 0 {
    } else {
      OrDisjoint(a, n - 1, b / 2);
    }
  }

  // Setting bit `n` of a value below `2^(n+1)`
  lemma {:induction false} OrBit(a: nat, n: nat)
    requires a < Pow2(n + 1)
    ensures Or(a, Pow2(n)) == Low(a, n) + Pow2(n)
  {
    if n == 0 {
    } else {
      OrBit(a / 2, n - 1);
    }
  }

  lemma {:induction false} OrBound(a: nat, b: nat, n: nat)
    requires a < Pow2(n) && b < Pow2(n)
    ensures Or(a, b) < Pow2(n)
  {
    if n == 0 {
    } else {
      OrBound(a / 2, b / 2, n - 1);
    }
  }

  // -------------------- single bits --------------------

  lemma {:induction false} EqualBits(a: nat, b: nat, n: nat)
    requires a < Pow2(n) && b < Pow2(n)
    requires forall i: nat :: i < n ==> Bit(a, i) == Bit(b, i)
    ensures a == b
  {
    if n == 0 {
    } else {
      assert Bit(a, 0) == Bit(b, 0);
      forall i: nat | i < n - 1
        ensures Bit(a / 2, i) == Bit(b / 2, i)
      {
        assert Bit(a, i + 1) == Bit(b, i + 1);
      }
      EqualBits(a / 2, b / 2, n - 1);
    }
  }

  lemma {:induction false} BitOfShr(a: nat, n: nat, i: nat)
    ensures Bit(Shr(a, n), i) == Bit(a, n + i)
  {
    if n == 0 {
    } else {
      BitOfShr(a / 2, n - 1, i);
    }
  }

  lemma {:induction false} BitOfLow(a: nat, n: nat, i: nat)
    ensures Bit(Low(a, n), i) == if i < n then Bit(a, i) else 0
  {
    if n == 0 {
      BitOfZero(i);
    } else if i > 0 {
      BitOfLow(a / 2, n - 1, i - 1);
    }
  }

  lemma {:induction false} BitOfZero(i: nat)
    ensures Bit(0, i) == 0
  {
    if i == 0 {
    } else {
      BitOfZero(i - 1);
    }
  }

  lemma {:induction false} BitOfPow2(k: nat, i: nat)
    ensures Bit(Pow2(k), i) == if i == k then 1 else 0
  {
    if k == 0 {
      if i > 0 { BitOfZero(i - 1); }
    } else if i > 0 {
      BitOfPow2(k - 1, i - 1);
    }
  }

  lemma {:induction false} BelowBlock(q: nat, d: nat, s: nat, r: nat)
    requires q < Pow2(d) && r < Pow2(s)
    ensures Shl(q, s) + r < Pow2(d + s)
  {
    hide Shl, Pow2;
    ShlMonotone(q + 1, Pow2(d), s);
    ShlMonotone(q, q + 1, s);
    Pow2Add(d, s);
  }

  lemma {:induction false} WrapRest(q: nat, r: nat)
    requires r < WORD32
    ensures Wrap(q * WORD32 + r) == r
  {
  }

  lemma {:induction false} Pow2Of64()
    ensures Pow2(32) == WORD32 && Pow2(64) == WORD64
  {
    Pow2Values();
    hide Pow2;
    Pow2Add(32, 32);
    ShlIsMul(WORD32, 32);
    MulIsTimes(WORD32, WORD32);
  }
}
