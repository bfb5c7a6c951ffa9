/** Results beyond the largest finite number: what section 7.4 of IEEE 754-2008 asks for, and when
    u128_normalize_round, f80_mul and f80_add give it. */
module Float80Overflow {
  import opened Powers
  import opened Rounding
  import opened Float80
  import opened Float80Rounding
  import opened Float80Normalize
  import opened Float80Mul
  import opened Float80Add
  import opened Float80FarAdd
  import opened Float80Sum
  import opened Float80Mixed

  /** The last place of the largest finite numbers, in the units of Mag. */
  const TOP_UNIT: nat := Pow2(EXP_MAX + W - 1)

  function Largest(sign: bool): F80 {
    WordPowers();
    F80(TWO64 - 1, EXP_MAX, sign)
  }

  /** Infinity when rounding with unbounded exponents passes the largest number by a unit, and the
      largest number otherwise. The magnitude is n / 2^k. */
  function Overflowed(mode: Mode, sign: bool, n: nat, k: nat): F80 {
    if mode == Nearest then
      if 2 * n >= 2 * Shl(MaxMag(), k) + Shl(TOP_UNIT, k) then Inf(sign) else Largest(sign)
    else if Away(mode, sign) then Inf(sign)
    else Largest(sign)
  }

  lemma {:induction false} OverflowedScale(mode: Mode, sign: bool, n: nat, k: nat)
    ensures Overflowed(mode, sign, Shl(n, k), k) == Overflowed(mode, sign, n, 0)
  {
    hide Shl, MaxMag, Pow2;
    var m, u := MaxMag(), TOP_UNIT;
    ShlAdd(n, n, k);
    ShlAdd(m, m, k);
    ShlAdd(m + m, u, k);
    ShlNone(m);
    ShlNone(u);
    if n + n < m + m + u { ShlLt(n + n, m + m + u, k); } else { ShlLe(m + m + u, n + n, k); }
  }

  lemma TopBinade()
    ensures Shl(TWO64, EXP_MAX + W - 1) == MaxMag() + TOP_UNIT
  {
    ShlOne(EXP_MAX + W - 1);
    ShlAdd(TWO64 - 1, 1, EXP_MAX + W - 1);
  }

  /** Past the top binade. */
  lemma FarOver(s: U128, exp: int, sign: bool, mode: Mode)
    requires s != 0 && exp + BIAS - U128Clz(s) > EXP_MAX
    ensures Shl(s, exp + BIAS - 1) >= MaxMag() + TOP_UNIT
    ensures NormalizeRound(s, exp, sign, mode) == Overflowed(mode, sign, Shl(s, exp + BIAS - 1), 0) <==>
      !(s == TWO127 && mode != Nearest && !Away(mode, sign))
  {
    hide Shl, Pow2, MaxMag, U128Clz;
    var z := U128Clz(s);
    var e := exp + BIAS - z;
    WordPowers();
    ShiftedUp(s);
    WordInBinade(Shl(s, z), e);
    ShlShl(s, z, e - 1);
    TopBinade();
    ShlDouble(TWO63, EXP_MAX + W - 1);
    ShlShl(TWO63, e - EXP_MAX - 1, EXP_MAX + W);
    ShlLe(TWO63, Shl(TWO63, e - EXP_MAX - 1), EXP_MAX + W);
    ShlNone(MaxMag());
    ShlNone(TOP_UNIT);
  }

  /** Within the top binade, past its last number. */
  lemma NearOver(s: U128, exp: int, sign: bool, mode: Mode)
    requires s != 0 && exp + BIAS - U128Clz(s) == EXP_MAX && Shl(s, exp + BIAS - 1) > MaxMag()
    ensures NormalizeRound(s, exp, sign, mode) == Overflowed(mode, sign, Shl(s, exp + BIAS - 1), 0)
  {
    hide Shl, Pow2, MaxMag, U128Clz, NormalizeRound, Mag;
    var n := Shl(s, exp + BIAS - 1);
    var e, q, r := NormalizeRounds(s, exp, sign, mode);
    TopBinade();
    ShlNone(MaxMag());
    ShlNone(TOP_UNIT);
    OverRounds(mode, sign, n, q);
    OverEncoded(r, q);
  }

  lemma OverRounds(mode: Mode, sign: bool, n: nat, q: nat)
    requires Rounds(mode, sign, n, EXP_MAX + W - 1, q) && MaxMag() < n < MaxMag() + TOP_UNIT && q <= TWO64
    ensures q == if (mode == Nearest && 2 * n >= 2 * MaxMag() + TOP_UNIT) || (mode != Nearest && Away(mode, sign)) then TWO64 else TWO64 - 1
  {
    hide Shl, Pow2;
    WordPowers();
    TopBinade();
    var k := EXP_MAX + W - 1;
    assert MaxMag() == Shl(TWO64 - 1, k);
    if q < TWO64 - 1 {
      ShlLt(q, TWO64 - 1, k);
    }
  }

  lemma OverEncoded(r: F80, q: nat)
    requires Encodes(r, EXP_MAX, q) && (q == TWO64 || q == TWO64 - 1)
    ensures r == if q == TWO64 then Inf(r.sign) else Largest(r.sign)
  {
    hide Shl, Pow2;
    WordPowers();
    if q == TWO64 {
      ShlDouble(TWO63, EXP_MAX + W - 1);
      if TWO63 < r.signif { ShlLt(TWO63, r.signif, EXP_MAX + W); }
    } else {
      if r.signif < q { ShlLt(r.signif, q, EXP_MAX + W - 1); }
    }
  }

  /** u128_normalize_round on a number past the largest one is right except for a significand of
      exactly 2^127, which it takes to be an infinity also where that is not asked for. */
  lemma NormalizeOver(s: U128, exp: int, sign: bool, mode: Mode)
    requires exp + BIAS >= 1 && Shl(s, exp + BIAS - 1) > MaxMag()
    ensures NormalizeRound(s, exp, sign, mode) == Overflowed(mode, sign, Shl(s, exp + BIAS - 1), 0) <==>
      !(s == TWO127 && exp + BIAS > EXP_MAX && mode != Nearest && !Away(mode, sign))
  {
    hide Shl, Pow2, MaxMag, U128Clz, NormalizeRound, Overflowed;
    OverNormal(s, exp);
    var e := exp + BIAS - U128Clz(s);
    if s == TWO127 { ClzTopWord(); }
    if e > EXP_MAX {
      FarOver(s, exp, sign, mode);
    } else {
      if e < EXP_MAX { BelowTop(s, exp); }
      NearOver(s, exp, sign, mode);
    }
  }

  /** Such a number is not below the normal range. */
  lemma OverNormal(s: U128, exp: int)
    requires exp + BIAS >= 1 && Shl(s, exp + BIAS - 1) > MaxMag()
    ensures s != 0 && exp + BIAS - U128Clz(s) >= 1
  {
    hide Shl, Pow2, U128Clz;
    var k, z := exp + BIAS - 1, U128Clz(s);
    ShlOne(k);
    if k + 1 - z < 1 {
      ShlLt(s, Pow2(W2 - z), k);
      ShlPow2(W2 - z, k);
      Pow2Mono(W2 - z + k, W2 - 1);
      MaxAboveTop();
    }
  }

  lemma MaxAboveTop()
    ensures TWO127 <= MaxMag()
  {
    hide Shl, Pow2;
    WordPowers();
    ShlLe(TWO63, TWO64 - 1, EXP_MAX + W - 1);
    ShlShl(TWO63, W, EXP_MAX - 1);
    assert Shl(Shl(TWO63, W), EXP_MAX - 1) >= Shl(TWO63, W);
  }

  lemma BelowTop(s: U128, exp: int)
    requires s != 0 && 1 <= exp + BIAS - U128Clz(s) < EXP_MAX
    ensures Shl(s, exp + BIAS - 1) <= MaxMag()
  {
    hide Shl, Pow2, U128Clz;
    var z := U128Clz(s);
    var e := exp + BIAS - z;
    WordPowers();
    ShiftedUp(s);
    WordInBinade(Shl(s, z), e);
    ShlShl(s, z, e - 1);
    ShlDouble(TWO63, e + W - 1);
    ShlShl(TWO63, EXP_MAX - 1 - e, e + W);
    ShlLe(TWO63, Shl(TWO63, EXP_MAX - 1 - e), e + W);
    ShlLe(TWO63, TWO64 - 1, EXP_MAX + W - 1);
  }

  // Products

  /** The factors of a power of two are powers of two. */
  lemma {:induction false} PowerFactors(x: nat, y: nat, n: nat) returns (i: nat)
    requires x * y == Pow2(n)
    ensures i <= n && x == Pow2(i) && y == Pow2(n - i)
    decreases n
  {
    hide Pow2;
    FactorsPositive(x, y);
    PowerSteps(n);
    if n == 0 {
      OneFactor(x, y);
      i := 0;
    } else if x % 2 == 0 {
      HalveProduct(x / 2, y, Pow2(n - 1));
      i := PowerFactors(x / 2, y, n - 1);
      i := i + 1;
      PowerSteps(i);
    } else {
      OddFactor(x, y);
      HalveProduct(y / 2, x, Pow2(n - 1));
      i := PowerFactors(x, y / 2, n - 1);
      PowerSteps(n - i);
    }
  }

  lemma PowerSteps(n: nat)
    ensures Pow2(n) == if n == 0 then 1 else 2 * Pow2(n - 1)
  {
  }

  lemma FactorsPositive(x: nat, y: nat)
    requires x * y >= 1
    ensures x >= 1 && y >= 1
  {
  }

  lemma OneFactor(x: nat, y: nat)
    requires x * y == 1 && x >= 1 && y >= 1
    ensures x == 1 && y == 1
  {
    if x > 1 { MulLe(2, x, y); }
    if y > 1 { MulLe(2, y, x); }
  }

  lemma HalveProduct(h: nat, y: nat, p: nat)
    requires (2 * h) * y == 2 * p || y * (2 * h) == 2 * p
    ensures h * y == p && y * h == p
  {
    DoubleProduct(h, y);
  }

  lemma OddFactor(x: nat, y: nat)
    requires x % 2 == 1 && (x * y) % 2 == 0
    ensures y % 2 == 0
  {
    var h := x / 2;
    assert x * y == (2 * h) * y + y;
    DoubleProduct(h, y);
  }

  /** No product of two significands is exactly 2^127. */
  lemma NotTop(x: U64, y: U64)
    ensures x * y != TWO127
  {
    if x * y == TWO127 {
      var i := PowerFactors(x, y, W2 - 1);
      if i >= W { Pow2Mono(W, i); } else { Pow2Mono(W, W2 - 1 - i); }
    }
  }

  /** A product beyond the largest finite number is what overflow asks for, in every mode. */
  lemma MulOverflow(a: F80, b: F80, mode: Mode)
    requires Finite(a) && Finite(b) && Mag(a) * Mag(b) > Shl(MaxMag(), PRODUCT_SCALE)
    ensures Mul(a, b, mode) == Overflowed(mode, a.sign != b.sign, Mag(a) * Mag(b), PRODUCT_SCALE)
  {
    hide NormalizeRound, U128Clz, Shl, Pow2, Low, MaxMag, Overflowed, Mag;
    ProductFits(a.signif, b.signif);
    var s: U128 := a.signif * b.signif;
    var exp, sign := UnbiasDenormal(a.exp) + UnbiasDenormal(b.exp) + 1, a.sign != b.sign;
    ExactProduct(a, b);
    assert Mul(a, b, mode) == NormalizeRound(s, exp, sign, mode);
    MaxIsNormal();
    ProductNonzero(s, Scale(a.exp) + Scale(b.exp) + W2 - 2);
    ProductInRange(s, Scale(a.exp) + Scale(b.exp));
    var n := Shl(s, exp + BIAS - 1);
    ShlShl(s, exp + BIAS - 1, PRODUCT_SCALE);
    if n <= MaxMag() { ShlLe(n, MaxMag(), PRODUCT_SCALE); }
    NotTop(a.signif, b.signif);
    NormalizeOver(s, exp, sign, mode);
    OverflowedScale(mode, sign, n, PRODUCT_SCALE);
  }

  lemma MaxIsNormal()
    ensures Shl(TWO127, PRODUCT_SCALE) <= Shl(MaxMag(), PRODUCT_SCALE)
  {
    hide Shl, MaxMag;
    MaxAboveTop();
    ShlLe(TWO127, MaxMag(), PRODUCT_SCALE);
  }

  // Sums

  /** Two to the 16384th, in the units of Mag, in terms of a 128-bit significand. */
  lemma TopAt(e: nat, sum: nat)
    requires 1 <= e <= EXP_MAX
    ensures sum < TWO128 ==> Shl(sum, e - 1) < MaxMag() + TOP_UNIT
    ensures TWO128 <= sum < 2 * TWO128 ==> (Shl(sum, e - 1) == MaxMag() + TOP_UNIT <==> sum == TWO128 && e == EXP_MAX)
  {
    hide Shl, Pow2, MaxMag;
    WordPowers();
    TopBinade();
    ShlShl(TWO64, W, EXP_MAX - 1);
    ShlShl(TWO128, EXP_MAX - e, e - 1);
    if sum < TWO128 {
      ShlLt(sum, TWO128, e - 1);
      ShlLe(TWO128, Shl(TWO128, EXP_MAX - e), e - 1);
    } else if e < EXP_MAX && sum < 2 * TWO128 {
      ShlLt(sum, 2 * TWO128, e - 1);
      DoubledBelow(EXP_MAX - e, e - 1);
    } else if sum > TWO128 {
      ShlLt(TWO128, sum, e - 1);
    }
  }

  lemma DoubledBelow(d: nat, k: nat)
    requires d >= 1
    ensures Shl(2 * TWO128, k) <= Shl(Shl(TWO128, d), k)
  {
    assert Shl(TWO128, d) == 2 * Shl(TWO128, d - 1);
    ShlLe(2 * TWO128, Shl(TWO128, d), k);
  }

  predicate TowardZero(mode: Mode, sign: bool) { mode != Nearest && !Away(mode, sign) }

  /** A sum of 128-bit significands past the largest number, with its carry. */
  lemma MagnitudesOverflow(big: U128, small: U128, e: nat, sign: bool, mode: Mode)
    requires 1 <= e <= EXP_MAX && Shl(big + small, e - 1) > MaxMag() && (big + small >= TWO128 ==> (big + small) % 2 == 0)
    ensures AddMagnitudes(big, small, Unbias(e), sign, mode) == Overflowed(mode, sign, Shl(big + small, e - 1), 0) <==>
      !(Shl(big + small, e - 1) == MaxMag() + TOP_UNIT && TowardZero(mode, sign))
  {
    hide NormalizeRound, Shl, Pow2, MaxMag, Overflowed, CarryIn;
    var sum := big + small;
    TopAt(e, sum);
    if sum < TWO128 {
      NormalizeOver(sum, Unbias(e), sign, mode);
    } else {
      CarryExact(sum, mode, e - 1);
      NormalizeOver(sum / 2, Unbias(e) + 1, sign, mode);
      WordPowers();
    }
  }

  /** Exponents that differ by at most 64. */
  lemma NearOverflow(a: F80, b: F80, mode: Mode, small: nat)
    requires LosslesslyAligned(a, b, mode, small) && a.sign == b.sign && Mag(a) + Mag(b) > MaxMag()
    ensures AddOrdered(a, b, mode) == Overflowed(mode, a.sign, Mag(a) + Mag(b), 0) <==>
      !(Mag(a) + Mag(b) == MaxMag() + TOP_UNIT && TowardZero(mode, a.sign))
  {
    hide AddMagnitudes, Aligned, Shl, Pow2, Shr, Low, MaxMag, Overflowed;
    var big, u := Shl(a.signif, W), Scale(a.exp) - 1;
    BigMag(a);
    BigMag(b);
    Widen(a.signif);
    ShlAdd(big, small, u);
    MagnitudesOverflow(big, small, Scale(a.exp), a.sign, mode);
  }

  /** Exponents that differ by more: only the largest number can be taken further. */
  lemma FarOverflow(a: F80, b: F80, mode: Mode)
    requires Normal(a) && Normal(b) && a.exp > b.exp + W && a.sign == b.sign && Mag(a) + Mag(b) > MaxMag()
    ensures AddOrdered(a, b, mode) == Overflowed(mode, a.sign, Mag(a) + Mag(b), 0) <==> !RoundedTwice(a, b, mode)
    ensures Mag(a) + Mag(b) < MaxMag() + TOP_UNIT
  {
    hide AddOrdered, Aligned, Shl, Pow2, MaxMag, RoundedTwice, Mag;
    OnlyLargest(a, b);
    var q, r := FarLikeRounded(a, b, mode);
    LikeAgree(a, b, mode);
    FarUnit(a.exp - b.exp);
    UpHere(mode, a.sign, a.exp - b.exp, b.signif);
    UpHere(mode, a.sign, W, Aligned(b, a.exp - b.exp, mode));
    OverEncoded(r, q);
    WordPowers();
    assert 2 * (Mag(a) + Mag(b)) < 2 * MaxMag() + TOP_UNIT;
    ShlNone(MaxMag());
    ShlNone(TOP_UNIT);
  }

  /** The largest significand goes up by one or stays. */
  lemma UpHere(mode: Mode, sign: bool, k: nat, b: nat)
    ensures UpResult(mode, sign, TWO64 - 1, k, b) == TWO64 || UpResult(mode, sign, TWO64 - 1, k, b) == TWO64 - 1
    ensures b != 0 && 2 * b < Pow2(k) ==>
      (UpResult(mode, sign, TWO64 - 1, k, b) == TWO64 <==> mode != Nearest && Away(mode, sign))
  {
  }

  lemma OnlyLargest(a: F80, b: F80)
    requires Normal(a) && Normal(b) && a.exp > b.exp + W && Mag(a) + Mag(b) > MaxMag()
    ensures a == Largest(a.sign) && Mag(a) == MaxMag() && 2 * Mag(b) < TOP_UNIT && 2 * b.signif < Pow2(a.exp - b.exp)
  {
    hide Shl, Pow2, MaxMag;
    StepSize(a, b);
    Pow2Mono(a.exp + W - 1, EXP_MAX + W - 1);
    FarUnit(a.exp - b.exp);
    FarLarger(a, b);
    LargestAlone(a, b);
  }

  /** A number that a much smaller one takes past the largest is the largest. */
  lemma LargestAlone(a: F80, b: F80)
    requires Normal(a) && Finite(b) && Mag(a) + Mag(b) > MaxMag() && Mag(b) < Mag(a) && 2 * Mag(b) < TOP_UNIT
    ensures a == Largest(a.sign) && Mag(a) == MaxMag()
  {
    hide Shl, Pow2, Mag;
    if a.exp < EXP_MAX { BelowMax(a, b); }
    var k := EXP_MAX + W - 1;
    assert Mag(a) == Shl(a.signif, k) by { MagOf(a); }
    ShlOne(k);
    ShlAdd(a.signif, 1, k);
    if a.signif < TWO64 - 1 { ShlLe(a.signif + 1, TWO64 - 1, k); }
  }

  lemma MagOf(a: F80)
    ensures Mag(a) == Shl(a.signif, Scale(a.exp) + W - 1)
  {
  }

  /** A denormal, too, can only take the largest number further. */
  lemma MixedOverflow(a: F80, b: F80, mode: Mode)
    requires Mixed(a, b) && a.sign == b.sign && Mag(a) + Mag(b) > MaxMag()
    ensures AddOrdered(a, b, mode) == Overflowed(mode, a.sign, Mag(a) + Mag(b), 0)
    ensures Mag(a) + Mag(b) < MaxMag() + TOP_UNIT && a.exp == EXP_MAX
  {
    hide AddOrdered, Aligned, Shl, Pow2, MaxMag, Mag;
    MixedLarger(a, b);
    DenormalSmall(b);
    LargestAlone(a, b);
    var q, r := FarLikeRounded(a, b, mode);
    AlignedFar(b, a.exp, mode);
    WordPowers();
    assert q == if mode != Nearest && Away(mode, a.sign) then TWO64 else TWO64 - 1;
    OverEncoded(r, q);
    ShlNone(MaxMag());
    ShlNone(TOP_UNIT);
  }

  lemma DenormalSmall(b: F80)
    requires Finite(b) && b.exp == EXP_DENORMAL
    ensures 2 * Mag(b) < TOP_UNIT
  {
    hide Shl, Pow2;
    ShlLt(b.signif, TWO63, W);
    WordPowers();
    Pow2Mono(W2, EXP_MAX + W - 1);
  }

  lemma OrderedOverflow(a: F80, b: F80, mode: Mode)
    requires Finite(a) && Finite(b) && a.exp >= b.exp && a.sign == b.sign && Mag(a) + Mag(b) > MaxMag()
    ensures AddOrdered(a, b, mode) == Overflowed(mode, a.sign, Mag(a) + Mag(b), 0) <==>
      !RoundedTwice(a, b, mode) && !(Mag(a) + Mag(b) == MaxMag() + TOP_UNIT && TowardZero(mode, a.sign))
  {
    hide AddOrdered, Aligned, Shl, Pow2, MaxMag, Overflowed;
    FiniteBelowMax(a);
    MagZero(b);
    if !SameScale(a, b) {
      MixedOverflow(a, b, mode);
    } else if a.exp - b.exp <= W {
      var small := Aligns(a, b, mode);
      NearOverflow(a, b, mode, small);
    } else {
      FarOverflow(a, b, mode);
    }
  }

  /** A sum beyond the largest finite number is what overflow asks for if and only if the operands
      do not round twice, and it is not 2^16384 exactly in a mode that rounds toward zero. */
  lemma AddOverflow(a: F80, b: F80, mode: Mode)
    requires Finite(a) && Finite(b) && Abs(Value(a) + Value(b)) > MaxMag()
    ensures var n := Abs(Value(a) + Value(b));
      Add(a, b, mode) == Overflowed(mode, a.sign, n, 0) <==>
        !Misrounds(a, b, mode) && !(n == MaxMag() + TOP_UNIT && TowardZero(mode, a.sign))
  {
    hide AddOrdered, RoundedTwice, MaxMag, Shl, Pow2, Low, Overflowed, Mag;
    FiniteBelowMax(a);
    FiniteBelowMax(b);
    assert a.sign == b.sign;
    if a.exp < b.exp { OrderedOverflow(b, a, mode); } else { OrderedOverflow(a, b, mode); }
  }
}
