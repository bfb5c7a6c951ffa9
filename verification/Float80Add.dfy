/** When f80_add returns the correctly rounded sum. */
module Float80Add {
  import opened Powers
  import opened Rounding
  import opened Float80
  import opened Float80Rounding
  import opened Float80Normalize

  /** The operands' exponent fields measure the same scale. This leaves out a non-zero
      denormal with a normal number, which f80_add aligns by their raw exponents. */
  predicate SameScale(a: F80, b: F80) {
    (a.exp == EXP_DENORMAL) == (b.exp == EXP_DENORMAL) || a.signif == 0 || b.signif == 0
  }

  /** Of operands a and b with a's exponent larger by 65, the sums that round-to-nearest gets
      wrong. The shifted b is first rounded to a half unit of 2^-64 ulp and lands on a tie of
      the final rounding that the exact sum is not on. */
  predicate RoundedTwice(a: F80, b: F80, mode: Mode) {
    && mode == Nearest
    && a.exp == b.exp + W + 1
    && (|| (b.signif == TWO64 - 1 && a.signif % 2 == 1)
        || (a.sign != b.sign && a.signif == TWO63 && b.signif == TWO63 + 1))
  }

  // Sums without loss: exponents that differ by at most 64

  lemma ShiftExact(s: U128, d: nat, q: nat, sign: bool, mode: Mode)
    requires s == Shl(q, d) && d < W2
    ensures ShiftRightRound(s, d, sign, mode) == q
  {
    ShrUnique(s, d, q, 0);
    if d > 0 {
      ShrStep(s, d - 1);
      LowSmall(0, W);
    }
  }

  lemma AlignedExact(b: F80, d: nat, mode: Mode)
    requires d <= W
    ensures Aligned(b, d, mode) == Shl(b.signif, W - d)
  {
    Widen(b.signif);
    ShlShl(b.signif, W - d, d);
    ShiftExact(Shl(b.signif, W), d, Shl(b.signif, W - d), b.sign, mode);
  }

  lemma AlignedZero(b: F80, d: nat, mode: Mode)
    requires b.signif == 0
    ensures Aligned(b, d, mode) == 0
  {
    ShlOne(W);
    LowSmall(0, d);
    if d > 0 { LowSmall(0, d - 1); }
    LowSmall(0, W);
  }

  /** A sum below the normal range is a whole number of denormal units, and is exact. */
  lemma NormalizeDenormal(s: U128, exp: int, sign: bool, mode: Mode, q: nat)
    requires s != 0 && exp + BIAS >= 1 && exp + BIAS - U128Clz(s) < 1
    requires Shl(s, exp + BIAS - 1) == Shl(q, W)
    ensures var r := NormalizeRound(s, exp, sign, mode); 
      Finite(r) && r.signif == q && r.exp == 0 && r.sign == sign && Mag(r) == Shl(s, exp + BIAS - 1)
  {
    var z, n := U128Clz(s), exp + BIAS - 1;
    var t := Shl(s, n);
    assert t < TWO127 by {
      ShlPow2(W2 - z, n);
      ShlLt(s, Pow2(W2 - z), n);
      Pow2Mono(W2 - z + n, W2 - 1);
    }
    LowSmall(t, W2);
    ShiftExact(t, W, q, sign, mode);
    assert NormalizeRound(s, exp, sign, mode) == RoundTo64(t, 0, sign, mode);
    RoundTo64Mag(t, 0, sign, mode);
    assert q < TWO63 by {
      WordPowers();
      if q >= TWO63 { ShlLe(TWO63, q, W); }
    }
  }

  lemma ExactCorrect(mode: Mode, r: F80)
    requires Finite(r)
    ensures CorrectlyRounded(mode, Value(r), 0, r)
  {
  }

  /** An exact sum, in the normal range or below it, is correctly rounded. */
  lemma SumCorrect(s: U128, exp: int, sign: bool, mode: Mode, q: nat)
    requires s != 0 && exp + BIAS >= 1
    requires Shl(s, exp + BIAS - 1) == Shl(q, W) && Shl(s, exp + BIAS - 1) <= MaxMag()
    ensures CorrectlyRounded(mode, WithSign(sign, Shl(s, exp + BIAS - 1)), 0, NormalizeRound(s, exp, sign, mode))
  {
    hide NormalizeRound, CorrectlyRounded;
    if exp + BIAS - U128Clz(s) >= 1 {
      NormalizeCorrect(s, exp, sign, mode, 0);
    } else {
      NormalizeDenormal(s, exp, sign, mode, q);
      ExactCorrect(mode, NormalizeRound(s, exp, sign, mode));
    }
  }

  /** What alignment gives for b without loss: small, in the units of a's 128-bit significand. */
  ghost predicate LosslesslyAligned(a: F80, b: F80, mode: Mode, small: nat) {
    && Finite(a) && Finite(b) && a.exp >= b.exp
    && Aligned(b, a.exp - b.exp, mode) == small
    && Mag(b) == Shl(small, Scale(a.exp) - 1)
    && (small == 0 <==> b.signif == 0)
    && (Shl(a.signif, W) + small >= TWO128 ==> small % 2 == 0)
  }

  lemma Aligns(a: F80, b: F80, mode: Mode) returns (small: nat)
    requires Finite(a) && Finite(b) && a.exp >= b.exp
    requires b.signif == 0 || (SameScale(a, b) && a.exp - b.exp <= W)
    ensures LosslesslyAligned(a, b, mode, small)
  {
    hide Aligned, Shr, Low, Pow2;
    var d := a.exp - b.exp;
    if b.signif == 0 {
      small := 0;
      AlignedZero(b, d, mode);
      ShlOne(Scale(b.exp) + W - 1);
      ShlOne(Scale(a.exp) - 1);
      Widen(a.signif);
    } else {
      small := Shl(b.signif, W - d);
      AlignedExact(b, d, mode);
      ZeroAligned(a, b);
      ShlShl(b.signif, W - d, Scale(a.exp) - 1);
      Widen(a.signif);
      if d < W { assert small == 2 * Shl(b.signif, W - d - 1); } else { assert small == b.signif; }
    }
  }

  lemma ZeroAligned(a: F80, b: F80)
    requires Finite(a) && Finite(b) && a.exp >= b.exp && SameScale(a, b) && b.signif != 0
    ensures Scale(a.exp) == Scale(b.exp) + (a.exp - b.exp)
  {
  }

  /** A significand in the high word, as the magnitude it stands for. */
  lemma BigMag(a: F80)
    ensures Shl(a.signif, W) % 2 == 0
    ensures Mag(a) == Shl(Shl(a.signif, W), Scale(a.exp) - 1)
    ensures Mag(a) == Shl(Shl(a.signif, Scale(a.exp) - 1), W)
  {
    assert Shl(a.signif, W) == 2 * Shl(a.signif, W - 1);
    ShlShl(a.signif, W, Scale(a.exp) - 1);
    ShlShl(a.signif, Scale(a.exp) - 1, W);
  }

  /** A non-zero sum never rounds to zero, nor changes sign, even when it overflows. */
  lemma SumSign(s: U128, exp: int, sign: bool, mode: Mode, q: nat)
    requires s != 0 && exp + BIAS >= 1 && Shl(s, exp + BIAS - 1) == Shl(q, W)
    ensures var r := NormalizeRound(s, exp, sign, mode); r.sign == sign && !IsZero(r)
  {
    hide NormalizeRound, Shl, U128Clz;
    var e := exp + BIAS - U128Clz(s);
    if e < 1 {
      NormalizeDenormal(s, exp, sign, mode, q);
      ShlOne(W);
    } else if e <= EXP_MAX {
      var e', q', r := NormalizeRounds(s, exp, sign, mode);
    } else {
      NormalizeOverflow(s, exp, sign, mode);
    }
  }

  lemma NormalizeOverflow(s: U128, exp: int, sign: bool, mode: Mode)
    requires exp + BIAS - U128Clz(s) > EXP_MAX
    ensures var r := NormalizeRound(s, exp, sign, mode); r.sign == sign && !IsZero(r) && IsSupported(r)
  {
    WordPowers();
  }

  lemma AddMagnitudesSign(big: U128, small: U128, exp: int, sign: bool, mode: Mode, q: nat)
    requires big + small != 0 && exp + BIAS >= 1 && (big + small >= TWO128 ==> (big + small) % 2 == 0)
    requires Shl(big + small, exp + BIAS - 1) == Shl(q, W)
    ensures var r := AddMagnitudes(big, small, exp, sign, mode); r.sign == sign && !IsZero(r)
  {
    hide NormalizeRound, Shl;
    var sum := big + small;
    if sum < TWO128 {
      SumSign(sum, exp, sign, mode, q);
    } else {
      CarryExact(sum, mode, exp + BIAS - 1);
      SumSign(CarryIn(sum - TWO128, mode), exp + 1, sign, mode, q);
    }
  }

  lemma AddMagnitudesCorrect(big: U128, small: U128, exp: int, sign: bool, mode: Mode, q: nat)
    requires big + small != 0 && exp + BIAS >= 1 && (big + small >= TWO128 ==> (big + small) % 2 == 0)
    requires Shl(big + small, exp + BIAS - 1) == Shl(q, W) && Shl(big + small, exp + BIAS - 1) <= MaxMag()
    ensures CorrectlyRounded(mode, WithSign(sign, Shl(big + small, exp + BIAS - 1)), 0,
                             AddMagnitudes(big, small, exp, sign, mode))
  {
    hide NormalizeRound, CorrectlyRounded;
    var sum := big + small;
    if sum < TWO128 {
      SumCorrect(sum, exp, sign, mode, q);
    } else {
      CarryExact(sum, mode, exp + BIAS - 1);
      SumCorrect(CarryIn(sum - TWO128, mode), exp + 1, sign, mode, q);
    }
  }

  /** An even sum loses nothing when its carry is shifted in. */
  lemma CarryExact(sum: nat, mode: Mode, u: nat)
    requires TWO128 <= sum < 2 * TWO128 && sum % 2 == 0
    ensures CarryIn(sum - TWO128, mode) == sum / 2
    ensures Shl(sum / 2, u + 1) == Shl(sum, u)
  {
    WordPowers();
    var half := (sum - TWO128) / 2;
    assert Shl(half, 1) == 2 * Shl(half, 0);
    ShiftExact(sum - TWO128, 1, half, false, mode);
    ShlDouble(sum / 2, u);
  }

  lemma SubMagnitudesCorrect(big: U128, small: U128, exp: int, sign: bool, mode: Mode, p: nat, q: nat)
    requires big != small && exp + BIAS >= 1
    requires Shl(big, exp + BIAS - 1) == Shl(p, W) && Shl(small, exp + BIAS - 1) == Shl(q, W)
    requires Abs(Shl(p, W) - Shl(q, W)) <= MaxMag()
    ensures SubMagnitudes(big, small, exp, sign, mode).sign == (sign != (big < small))
    ensures !IsZero(SubMagnitudes(big, small, exp, sign, mode))
    ensures CorrectlyRounded(mode, WithSign(sign, Shl(p, W)) + WithSign(!sign, Shl(q, W)), 0,
                             SubMagnitudes(big, small, exp, sign, mode))
    ensures big < small <==> Shl(p, W) < Shl(q, W)
  {
    hide NormalizeRound, CorrectlyRounded, Shl, Pow2;
    if big > small {
      DifferenceUp(big, small, exp + BIAS - 1, p, q);
      SumCorrect(big - small, exp, sign, mode, p - q);
      SumSign(big - small, exp, sign, mode, p - q);
    } else {
      DifferenceUp(small, big, exp + BIAS - 1, q, p);
      SumCorrect(small - big, exp, !sign, mode, q - p);
      SumSign(small - big, exp, !sign, mode, q - p);
    }
  }

  lemma DifferenceUp(x: nat, y: nat, u: nat, p: nat, q: nat)
    requires x > y && Shl(x, u) == Shl(p, W) && Shl(y, u) == Shl(q, W)
    ensures Shl(x - y, u) == Shl(x, u) - Shl(y, u) > 0
    ensures p > q && Shl(p - q, W) == Shl(x - y, u)
  {
    ShlLt(y, x, u);
    ShlAdd(x - y, y, u);
    if p <= q { ShlLe(p, q, W); }
    ShlAdd(p - q, q, W);
  }

  /** Like signs. */
  lemma LikeSum(a: F80, b: F80, mode: Mode, small: nat)
    requires LosslesslyAligned(a, b, mode, small) && a.sign == b.sign
    requires a.signif != 0 || b.signif != 0
    ensures AddOrdered(a, b, mode).sign == a.sign && !IsZero(AddOrdered(a, b, mode))
    ensures Mag(a) + Mag(b) <= MaxMag() ==> CorrectlyRounded(mode, Value(a) + Value(b), 0, AddOrdered(a, b, mode))
  {
    hide AddMagnitudes, CorrectlyRounded, Aligned, Shl, Pow2, Shr, Low;
    var big, u, exp := Shl(a.signif, W), Scale(a.exp) - 1, UnbiasDenormal(a.exp);
    var p, q := Shl(a.signif, u), Shl(b.signif, Scale(b.exp) - 1);
    BigMag(a);
    BigMag(b);
    Widen(a.signif);
    assert Shl(big + small, u) == Mag(a) + Mag(b) by { ShlAdd(big, small, u); }
    assert Shl(p + q, W) == Mag(a) + Mag(b) by { ShlAdd(p, q, W); }
    assert AddOrdered(a, b, mode) == AddMagnitudes(big, small, exp, a.sign, mode);
    AddMagnitudesSign(big, small, exp, a.sign, mode, p + q);
    if Mag(a) + Mag(b) <= MaxMag() { AddMagnitudesCorrect(big, small, exp, a.sign, mode, p + q); }
  }

  /** Unlike signs, and not exact opposites. */
  lemma UnlikeSum(a: F80, b: F80, mode: Mode, small: nat)
    requires LosslesslyAligned(a, b, mode, small) && a.sign != b.sign
    requires Mag(a) != Mag(b) && Abs(Mag(a) - Mag(b)) <= MaxMag()
    ensures AddOrdered(a, b, mode).sign == (a.sign != (Mag(a) < Mag(b))) && !IsZero(AddOrdered(a, b, mode))
    ensures CorrectlyRounded(mode, Value(a) + Value(b), 0, AddOrdered(a, b, mode))
  {
    hide SubMagnitudes, CorrectlyRounded, Aligned, Shl, Pow2, Shr, Low;
    var big, u, exp := Shl(a.signif, W), Scale(a.exp) - 1, UnbiasDenormal(a.exp);
    var p, q := Shl(a.signif, u), Shl(b.signif, Scale(b.exp) - 1);
    BigMag(a);
    BigMag(b);
    Widen(a.signif);
    assert AddOrdered(a, b, mode) == SubMagnitudes(big, small, exp, a.sign, mode);
    SubMagnitudesCorrect(big, small, exp, a.sign, mode, p, q);
  }

  /** Exact opposites, and zeros. */
  lemma ZeroSum(a: F80, b: F80, mode: Mode, small: nat)
    requires LosslesslyAligned(a, b, mode, small) && Value(a) + Value(b) == 0
    ensures IsZero(AddOrdered(a, b, mode))
    ensures AddOrdered(a, b, mode).sign == if a.signif != 0 then mode == Down else a.sign && b.sign
  {
    hide NormalizeRound, Shl, Aligned, Pow2, Low;
    var big, u, exp := Shl(a.signif, W), Scale(a.exp) - 1, UnbiasDenormal(a.exp);
    BigMag(a);
    Widen(a.signif);
    if a.sign == b.sign {
      assert a.signif == 0 && big == 0 && small == 0;
      assert AddOrdered(a, b, mode) == NormalizeRound(0, exp, a.sign, mode);
      NormalizeZero(exp, a.sign, mode);
    } else {
      assert AddOrdered(a, b, mode) == SubMagnitudes(big, small, exp, a.sign, mode);
      ShlOne(W);
      if big < small { ShlLt(big, small, u); }
      if small < big { ShlLt(small, big, u); }
    }
  }

  lemma NormalizeZero(exp: int, sign: bool, mode: Mode)
    requires exp + BIAS == 1
    ensures NormalizeRound(0, exp, sign, mode) == Zero(sign)
  {
    LowSmall(0, W2);
    LowSmall(0, W);
    LowSmall(0, W - 1);
  }
}
