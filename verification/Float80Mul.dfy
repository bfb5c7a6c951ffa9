/** f80_mul returns the correctly rounded product. */
module Float80Mul {
  import opened Powers
  import opened Rounding
  import opened Float80
  import opened Float80Rounding
  import opened Float80Normalize

  /** The product of two magnitudes is in units of 2^-33018, which are finer than the units
      of Mag by this power of two. */
  const PRODUCT_SCALE: nat := BIAS + W2 - 2

  function Product(a: F80, b: F80): int { WithSign(a.sign != b.sign, Mag(a) * Mag(b)) }

  /** The product of significands, as the exact product of magnitudes. */
  lemma ExactProduct(a: F80, b: F80)
    ensures Mag(a) * Mag(b) == Shl(a.signif * b.signif, Scale(a.exp) + Scale(b.exp) + W2 - 2)
  {
    ShlMul(a.signif, Scale(a.exp) + W - 1, b.signif, Scale(b.exp) + W - 1);
  }

  /** For all finite operands, zeros excepted and denormals included, and in every mode, the
      result is the exact product correctly rounded whenever that product is in the normal
      range: at least 2^-16382 and at most the largest finite number. */
  lemma MulCorrect(a: F80, b: F80, mode: Mode)
    requires Finite(a) && Finite(b)
    requires Shl(TWO127, PRODUCT_SCALE) <= Mag(a) * Mag(b) <= Shl(MaxMag(), PRODUCT_SCALE)
    ensures CorrectlyRounded(mode, Product(a, b), PRODUCT_SCALE, Mul(a, b, mode))
  {
    hide CorrectlyRounded, NormalizeRound, U128Clz, Shl, Pow2, Low;
    ProductFits(a.signif, b.signif);
    var s: U128 := a.signif * b.signif;
    var exp := UnbiasDenormal(a.exp) + UnbiasDenormal(b.exp) + 1;
    ExactProduct(a, b);
    assert Mul(a, b, mode) == NormalizeRound(s, exp, a.sign != b.sign, mode);
    ProductNonzero(s, Scale(a.exp) + Scale(b.exp) + W2 - 2);
    ProductInRange(s, Scale(a.exp) + Scale(b.exp));
    assert Shl(Shl(s, exp + BIAS - 1), PRODUCT_SCALE) == Mag(a) * Mag(b) by {
      ShlShl(s, exp + BIAS - 1, PRODUCT_SCALE);
    }
    assert Shl(s, exp + BIAS - 1) <= MaxMag() by {
      if Shl(s, exp + BIAS - 1) > MaxMag() { ShlLt(MaxMag(), Shl(s, exp + BIAS - 1), PRODUCT_SCALE); }
    }
    NormalizeCorrect(s, exp, a.sign != b.sign, mode, PRODUCT_SCALE);
  }

  lemma ProductNonzero(s: nat, n: nat)
    requires Shl(TWO127, PRODUCT_SCALE) <= Shl(s, n)
    ensures s != 0
  {
    ShlOne(n);
  }

  /** A product of at least 2^-16382 has a normal exponent after normalisation. */
  lemma ProductInRange(s: U128, scales: nat)
    requires s != 0 && Shl(TWO127, PRODUCT_SCALE) <= Shl(s, scales + W2 - 2)
    ensures scales - U128Clz(s) >= BIAS
  {
    var z := U128Clz(s);
    ShlPow2(W2 - 1, PRODUCT_SCALE);
    ShlLt(s, Pow2(W2 - z), scales + W2 - 2);
    ShlPow2(W2 - z, scales + W2 - 2);
    if W2 - z + (scales + W2 - 2) <= W2 - 1 + PRODUCT_SCALE {
      Pow2Mono(W2 - z + (scales + W2 - 2), W2 - 1 + PRODUCT_SCALE);
    }
  }

  /** A zero significand comes out as a zero, or with a normal exponent that it cannot have. */
  lemma NormalizeNothing(exp: int, sign: bool, mode: Mode)
    requires exp - W2 <= Unbias(EXP_MAX)
    ensures NormalizeRound(0, exp, sign, mode) == F80(0, if exp - W2 < Unbias(EXP_MIN) then 0 else exp - W2 + BIAS, sign)
  {
    hide Shl, Shr, Low, Pow2;
    ShlOne(if exp - W2 < Unbias(EXP_MIN) then if exp > Unbias(EXP_MIN) then exp - Unbias(EXP_MIN) else 0 else W2);
    ShiftNothing(if exp > Unbias(EXP_MIN) then 0 else Unbias(EXP_MIN) - exp, sign, mode);
    LowSmall(0, W2);
    ShiftNothing(W, sign, mode);
  }

  lemma ShiftNothing(n: nat, sign: bool, mode: Mode)
    ensures ShiftRightRound(0, n, sign, mode) == 0
  {
    hide Shl, Shr, Low, Pow2;
    LowSmall(0, n);
    if n > 0 { LowSmall(0, n - 1); }
    LowSmall(0, W);
  }

  /** Zero times a finite number is a zero exactly when the other operand is below 2^127 in
      magnitude: from there on f80_mul gives a number with a non-zero exponent and a zero
      significand, which is not a supported encoding. */
  lemma MulZero(a: F80, b: F80, mode: Mode)
    requires IsZero(a) && Finite(b)
    ensures IsZero(Mul(a, b, mode)) <==> Unbias(b.exp) < W2 - 1
    ensures IsZero(Mul(a, b, mode)) <==> IsSupported(Mul(a, b, mode))
    ensures Mul(a, b, mode).sign == (a.sign != b.sign)
  {
    hide NormalizeRound, Low, Pow2;
    WordPowers();
    NormalizeNothing(UnbiasDenormal(a.exp) + UnbiasDenormal(b.exp) + 1, a.sign != b.sign, mode);
  }
}
