/** f80_add on a normal number and a denormal. It aligns them by their raw exponents, which puts the
    denormal at half of its value; here is what it then returns. */
module Float80Mixed {
  import opened Powers
  import opened Rounding
  import opened Float80
  import opened Float80Rounding
  import opened Float80Normalize
  import opened Float80Add
  import opened Float80FarAdd
  import opened Float80Sum

  predicate Mixed(a: F80, b: F80) { Normal(a) && Finite(b) && b.exp == EXP_DENORMAL && b.signif != 0 }

  /** Half of a denormal, or with h = 1 all of it, in the units of Mag. */
  function PartMag(b: F80, h: nat): nat { Shl(b.signif, W - 1 + h) }

  function PartValue(b: F80, h: nat): int { WithSign(b.sign, PartMag(b, h)) }

  function HalfValue(b: F80): int { PartValue(b, 0) }

  /** The denormal is shifted out although the mode rounds it up: its bits below the guard bit are
      all past the 64 that are looked at. */
  predicate MixedLost(a: F80, b: F80, mode: Mode) {
    Away(mode, b.sign) && W < a.exp < W2 && b.signif < Pow2(a.exp - W - 1)
  }

  lemma HalfLarger(a: F80, b: F80)
    requires Mixed(a, b)
    ensures 0 < 2 * PartMag(b, 0) == Mag(b) < Mag(a) <= MaxMag()
  {
    hide Shl, MaxMag;
    MixedLarger(a, b);
    FiniteBelowMax(a);
    MagZero(b);
    ShlDoubles(b.signif, W - 1);
  }

  // Exponents up to 64: the alignment is exact

  lemma NearAligned(a: F80, b: F80, mode: Mode)
    requires Mixed(a, b) && a.exp <= W
    ensures var big, small := Shl(a.signif, W), Aligned(b, a.exp, mode);
      && 0 < small && 2 * small <= TWO127 <= big < TWO128
      && Shl(small, a.exp - 1) == PartMag(b, 0) && Shl(big, a.exp - 1) == Mag(a)
      && (big + small >= TWO128 ==> (big + small) % 2 == 0)
  {
    hide Shl, Aligned, Pow2;
    WordPowers();
    Widen(a.signif);
    AlignedExact(b, a.exp, mode);
    MixedAligned(b, a.exp, mode);
    ShlShl(b.signif, W - a.exp, a.exp - 1);
    ShlLe(TWO63, a.signif, W);
    BigMag(a);
    if a.exp < W { ShlDoubles(b.signif, W - a.exp - 1); } else { ShlNone(b.signif); }
  }

  lemma NearLike(a: F80, b: F80, mode: Mode)
    requires Mixed(a, b) && a.exp <= W && a.sign == b.sign && Mag(a) + PartMag(b, 0) <= MaxMag()
    ensures CorrectlyRounded(mode, Value(a) + HalfValue(b), 0, AddOrdered(a, b, mode))
  {
    hide Shl, Aligned, Pow2, CorrectlyRounded, NormalizeRound, MaxMag, U128Clz, CarryIn, PartMag, Low;
    var big, small, exp := Shl(a.signif, W), Aligned(b, a.exp, mode), UnbiasDenormal(a.exp);
    NearAligned(a, b, mode);
    var sum := big + small;
    ShlAdd(big, small, a.exp - 1);
    assert AddOrdered(a, b, mode) == AddMagnitudes(big, small, exp, a.sign, mode);
    if sum < TWO128 {
      TopCorrect(sum, exp, a.sign, mode);
    } else {
      CarryExact(sum, mode, a.exp - 1);
      WordPowers();
      TopCorrect(sum / 2, exp + 1, a.sign, mode);
    }
  }

  lemma TopCorrect(s: U128, exp: int, sign: bool, mode: Mode)
    requires TWO127 <= s && exp + BIAS >= 1 && Shl(s, exp + BIAS - 1) <= MaxMag()
    ensures CorrectlyRounded(mode, WithSign(sign, Shl(s, exp + BIAS - 1)), 0, NormalizeRound(s, exp, sign, mode))
  {
    hide Shl, Pow2, CorrectlyRounded, NormalizeRound, MaxMag, U128Clz;
    HighClz(s);
    NormalizeCorrect(s, exp, sign, mode, 0);
    ShlNone(Shl(s, exp + BIAS - 1));
  }

  lemma NearUnlike(a: F80, b: F80, mode: Mode)
    requires Mixed(a, b) && a.exp <= W && a.sign != b.sign
    ensures IsSupported(AddOrdered(a, b, mode)) ==> CorrectlyRounded(mode, Value(a) + HalfValue(b), 0, AddOrdered(a, b, mode))
  {
    hide Shl, Aligned, Pow2, CorrectlyRounded, NormalizeRound, MaxMag, U128Clz, PartMag, Low;
    var big, small, exp := Shl(a.signif, W), Aligned(b, a.exp, mode), UnbiasDenormal(a.exp);
    NearAligned(a, b, mode);
    HalfLarger(a, b);
    var s := big - small;
    ShlAdd(s, small, a.exp - 1);
    assert AddOrdered(a, b, mode) == NormalizeRound(s, exp, a.sign, mode);
    HighClz(s);
    if a.exp > U128Clz(s) {
      NormalizeCorrect(s, exp, a.sign, mode, 0);
      ShlNone(Shl(s, a.exp - 1));
    } else {
      ShlNone(s);
      FirstCorrect(s, exp, a.sign, mode);
    }
  }

  /** Just below the smallest normal number. */
  lemma FirstCorrect(s: U128, exp: int, sign: bool, mode: Mode)
    requires 0 < s < TWO127 <= 2 * s && exp + BIAS == 1 && U128Clz(s) == 1
    ensures IsSupported(NormalizeRound(s, exp, sign, mode)) ==> CorrectlyRounded(mode, WithSign(sign, s), 0, NormalizeRound(s, exp, sign, mode))
  {
    hide Shl, Shr, Low, U128Clz, CorrectlyRounded, RoundTo64, Rounds;
    LowSmall(s, W2);
    var r := NormalizeRound(s, exp, sign, mode);
    assert r == RoundTo64(s, EXP_DENORMAL, sign, mode);
    RoundTo64Mag(s, 0, sign, mode);
    ShiftByWordRounds(s, sign, mode);
    if IsSupported(r) { GridRounds(mode, s, 0, r, ShiftRightRound(s, W, sign, mode), 1); }
  }

  // Larger exponents

  /** What is left of the denormal, and when nothing is. */
  lemma FarAligned(b: F80, d: nat, mode: Mode)
    requires Finite(b) && b.exp == EXP_DENORMAL && b.signif != 0 && d > W
    ensures Aligned(b, d, mode) <= Pow2(W - 2)
    ensures Away(mode, b.sign) ==> (Aligned(b, d, mode) == 0 <==> d < W2 && b.signif < Pow2(d - W - 1))
  {
    hide Shl, Shr, Low, Pow2;
    AlignedFar(b, d, mode);
    QuarterWord();
    if d < W2 {
      Widen(b.signif);
      FarShift(b.signif, d);
      FarShift(b.signif, d - 1);
      HalfQuotient(b.signif, d - W);
      LowShifted(Low(b.signif, d - W - 1));
      ShrStep(b.signif, d - W - 1);
      ShrZero(b.signif, d - W - 1);
    }
  }

  lemma LowShifted(x: nat)
    ensures Low(Shl(x, W), W) == 0
  {
    ShrUnique(Shl(x, W), W, x, 0);
  }

  lemma HalfQuotient(b: nat, m: nat)
    requires b < TWO63 && m >= 1
    ensures Shr(b, m) < Pow2(W - 2)
  {
    assert Shr(b, m) == Shr(b / 2, m - 1);
    assert TWO63 == 2 * Pow2(W - 2);
  }

  lemma ShrZero(x: nat, n: nat)
    ensures Shr(x, n) == 0 <==> x < Pow2(n)
  {
    hide Shl, Shr, Low, Pow2;
    ShrLow(x, n);
    ShlOne(n);
    if x < Pow2(n) { LowSmall(x, n); }
  }

  /** The sum in units of the denormal's part, and the unit of the larger number. */
  lemma FarUnits(a: F80, b: F80, h: nat)
    requires Mixed(a, b) && h <= 1 && a.exp > W + h
    ensures Mag(a) == Shl(Shl(a.signif, a.exp - h), W - 1 + h)
    ensures 4 * b.signif < Pow2(a.exp - h) && 2 * b.signif < Pow2(a.exp - h - 1)
    ensures 0 < PartMag(b, h) < Mag(a) <= MaxMag()
  {
    hide Shl, MaxMag;
    ShlShl(a.signif, a.exp - h, W - 1 + h);
    WordPowers();
    Pow2Mono(W, a.exp - h - 1);
    HalfLarger(a, b);
    assert PartMag(b, h) == if h == 0 then PartMag(b, 0) else Mag(b);
  }

  lemma LikePart(a: F80, b: F80, mode: Mode, h: nat)
    requires Mixed(a, b) && h <= 1 && a.exp > W + h && a.sign == b.sign
    ensures UpResult(mode, a.sign, a.signif, W, Aligned(b, a.exp, mode)) ==
      if MixedLost(a, b, mode) then a.signif else UpResult(mode, a.sign, a.signif, a.exp - h, b.signif)
  {
    hide Aligned, Shl, Pow2, MaxMag, PartMag, Mag;
    FarAligned(b, a.exp, mode);
    FarUnits(a, b, h);
    QuarterWord();
    WordPowers();
  }

  lemma FarLikePart(a: F80, b: F80, mode: Mode, h: nat)
    requires Mixed(a, b) && h <= 1 && a.exp > W + h && a.sign == b.sign && Mag(a) + PartMag(b, h) <= MaxMag()
    ensures CorrectlyRounded(mode, Value(a) + PartValue(b, h), 0, AddOrdered(a, b, mode)) <==> !MixedLost(a, b, mode)
  {
    hide AddOrdered, Aligned, Shl, Pow2, Rounds, CorrectlyRounded, MaxMag, UpResult;
    var e := a.exp;
    var q, r := FarLikeRounded(a, b, mode);
    LikePart(a, b, mode, h);
    FarUnits(a, b, h);
    if MixedLost(a, b, mode) {
      assert Mag(r) == Mag(a);
      LostWrong(mode, Value(a) + PartValue(b, h), r);
    } else {
      ShlAdd(Shl(a.signif, e - h), b.signif, W - 1 + h);
      UpRounds(mode, a.sign, a.signif, e - h, b.signif);
      LikeRange(a.signif, b.signif, e - h);
      FarCorrect(mode, Shl(a.signif, e - h) + b.signif, e - h, h, e, q, r);
    }
  }

  /** A number on the wrong side of the exact one. */
  lemma LostWrong(mode: Mode, x: int, r: F80)
    requires (mode == Up && Value(r) < x) || (mode == Down && x < Value(r))
    ensures !CorrectlyRounded(mode, x, 0, r)
  {
    assert Scaled(r, 0) == Value(r);
    if Finite(r) { assert !Unbeaten(mode, x, 0, r, r); }
  }

  lemma UnlikePart(a: F80, b: F80, mode: Mode, h: nat)
    requires Mixed(a, b) && h <= 1 && a.exp > W + h && a.sign != b.sign
    ensures DownResult(mode, a.sign, a.signif, W, Nudge(b, a.exp, mode)) ==
      if MixedLost(a, b, mode) then a.signif else DownResult(mode, a.sign, a.signif, a.exp - h, b.signif)
  {
    hide Aligned, Shl, Pow2, MaxMag, PartMag, Mag;
    FarAligned(b, a.exp, mode);
    FarUnits(a, b, h);
    QuarterWord();
    WordPowers();
  }

  lemma FarUnlikePart(a: F80, b: F80, mode: Mode, h: nat)
    requires Mixed(a, b) && h <= 1 && a.exp > W + h && a.sign != b.sign && a.signif > TWO63
    ensures CorrectlyRounded(mode, Value(a) + PartValue(b, h), 0, AddOrdered(a, b, mode)) <==> !MixedLost(a, b, mode)
  {
    hide AddOrdered, Aligned, Shl, Pow2, Rounds, CorrectlyRounded, MaxMag, Nudge, DownResult;
    var e := a.exp;
    var q, r := FarUnlikeRounded(a, b, mode);
    UnlikePart(a, b, mode, h);
    FarUnits(a, b, h);
    if MixedLost(a, b, mode) {
      assert Mag(r) == Mag(a);
      LostWrong(mode, Value(a) + PartValue(b, h), r);
    } else {
      DownRounds(mode, a.sign, a.signif, e - h, b.signif);
      DownRange(a.signif, b.signif, e - h);
      ShlAdd(Shl(a.signif, e - h) - b.signif, b.signif, W - 1 + h);
      FarCorrect(mode, Shl(a.signif, e - h) - b.signif, e - h, h, e, q, r);
    }
  }

  /** What is subtracted from a power of two, before and after the alignment. */
  lemma CancelPart(a: F80, b: F80, mode: Mode, h: nat)
    requires Mixed(a, b) && h <= 1 && a.exp > W + h && a.sign != b.sign
    ensures DownResult(mode, a.sign, TWO64, W, 2 * Nudge(b, a.exp, mode)) ==
      if MixedLost(a, b, mode) then TWO64 else DownResult(mode, a.sign, TWO64, a.exp - h - 1, b.signif)
  {
    hide Aligned, Shl, Pow2, MaxMag, PartMag, Mag;
    FarAligned(b, a.exp, mode);
    FarUnits(a, b, h);
    QuarterWord();
    WordPowers();
  }

  lemma FarCancelPart(a: F80, b: F80, mode: Mode, h: nat)
    requires Mixed(a, b) && h <= 1 && a.exp > W + h && a.sign != b.sign && a.signif == TWO63
    ensures CorrectlyRounded(mode, Value(a) + PartValue(b, h), 0, AddOrdered(a, b, mode)) <==> !MixedLost(a, b, mode)
  {
    hide AddOrdered, Aligned, Shl, Pow2, Rounds, CorrectlyRounded, MaxMag, Nudge, DownResult;
    var e := a.exp;
    var q, r := CancelRounded(a, b, mode);
    CancelPart(a, b, mode, h);
    FarUnits(a, b, h);
    WordPowers();
    if MixedLost(a, b, mode) {
      ShlDouble(TWO63, e + W - 2);
      assert Mag(r) == Mag(a);
      LostWrong(mode, Value(a) + PartValue(b, h), r);
    } else {
      CancelCorrect(a, b, mode, h, q, r);
    }
  }

  lemma CancelCorrect(a: F80, b: F80, mode: Mode, h: nat, q: nat, r: F80)
    requires Mixed(a, b) && h <= 1 && a.exp > W + h && a.sign != b.sign && a.signif == TWO63 && r.sign == a.sign
    requires Encodes(r, a.exp - 1, q) && q == DownResult(mode, a.sign, TWO64, a.exp - h - 1, b.signif)
    ensures CorrectlyRounded(mode, Value(a) + PartValue(b, h), 0, r)
  {
    hide Shl, Pow2, Rounds, CorrectlyRounded, MaxMag, DownResult, Encodes;
    var k := a.exp - h - 1;
    FarUnits(a, b, h);
    WordPowers();
    ShlDouble(TWO63, k);
    DownRounds(mode, a.sign, TWO64, k, b.signif);
    DownRange(TWO64, b.signif, k);
    ShlAdd(Shl(TWO63, k + 1) - b.signif, b.signif, W - 1 + h);
    FarCorrect(mode, Shl(TWO63, k + 1) - b.signif, k, h, a.exp - 1, q, r);
  }

  lemma FarPart(a: F80, b: F80, mode: Mode, h: nat)
    requires Mixed(a, b) && h <= 1 && a.exp > W + h && Abs(Value(a) + PartValue(b, h)) <= MaxMag()
    ensures CorrectlyRounded(mode, Value(a) + PartValue(b, h), 0, AddOrdered(a, b, mode)) <==> !MixedLost(a, b, mode)
  {
    hide AddOrdered, Shl, Pow2, CorrectlyRounded, MaxMag, MixedLost;
    if a.sign == b.sign { FarLikePart(a, b, mode, h); }
    else if a.signif > TWO63 { FarUnlikePart(a, b, mode, h); }
    else { FarCancelPart(a, b, mode, h); }
  }

  // The theorems

  /** For a normal number a and a denormal b, f80_add returns a + b/2 correctly rounded, if and only
      if that result is a supported encoding and b is not lost in the alignment. */
  lemma MixedRounds(a: F80, b: F80, mode: Mode)
    requires Mixed(a, b) && Abs(Value(a) + HalfValue(b)) <= MaxMag()
    ensures Add(a, b, mode) == Add(b, a, mode)
    ensures CorrectlyRounded(mode, Value(a) + HalfValue(b), 0, Add(a, b, mode)) <==> !Unsupportable(a, b, mode) && !MixedLost(a, b, mode)
  {
    hide AddOrdered, Shl, Pow2, CorrectlyRounded, MaxMag, Low;
    MixedUnsupported(a, b, mode);
    assert Add(a, b, mode) == AddOrdered(a, b, mode);
    if a.exp > W {
      FarPart(a, b, mode, 0);
    } else if a.sign == b.sign {
      NearLike(a, b, mode);
    } else {
      NearUnlike(a, b, mode);
      CorrectSupported(mode, Value(a) + HalfValue(b), AddOrdered(a, b, mode));
    }
  }

  lemma CorrectSupported(mode: Mode, x: int, r: F80)
    ensures CorrectlyRounded(mode, x, 0, r) ==> IsSupported(r)
  {
  }

  /** From an exponent field of 66 on, half of a denormal rounds like all of it, so the sum itself is
      correctly rounded if and only if the denormal is not lost. */
  lemma MixedCorrect(a: F80, b: F80, mode: Mode)
    requires Mixed(a, b) && a.exp > W + 1 && Abs(Value(a) + Value(b)) <= MaxMag()
    ensures CorrectlyRounded(mode, Value(a) + Value(b), 0, Add(a, b, mode)) <==> !MixedLost(a, b, mode)
  {
    hide AddOrdered, Shl, Pow2, CorrectlyRounded, MaxMag, Low;
    assert Add(a, b, mode) == AddOrdered(a, b, mode) && PartValue(b, 1) == Value(b);
    FarPart(a, b, mode, 1);
  }

  /** What f80_add returns for all finite operands, in every mode and for every exponent difference.
      Operands on the same scale, whose sum does not exceed the largest finite number, give it
      correctly rounded if and only if they are not in the Misrounds family. Of a normal number and
      a denormal it returns the sum with half of the denormal, under the conditions above. The sign
      of the result, and whether it is zero, are those of the exact sum, also when it overflows; a
      zero sum has the sign that section 6.3 of IEEE 754-2008 asks for if and only if it is not one
      of two zeros of opposite signs in round-down. */
  lemma AddRounds(a: F80, b: F80, mode: Mode)
    requires Finite(a) && Finite(b)
    ensures SameScale(a, b) && Abs(Value(a) + Value(b)) <= MaxMag() ==>
      (CorrectlyRounded(mode, Value(a) + Value(b), 0, Add(a, b, mode)) <==> !Misrounds(a, b, mode))
    ensures !SameScale(a, b) ==> Mixed(a, b) || Mixed(b, a)
    ensures Mixed(a, b) && Abs(Value(a) + HalfValue(b)) <= MaxMag() ==>
      (CorrectlyRounded(mode, Value(a) + HalfValue(b), 0, Add(a, b, mode)) <==> !Unsupportable(a, b, mode) && !MixedLost(a, b, mode))
    ensures Mixed(b, a) && Abs(Value(b) + HalfValue(a)) <= MaxMag() ==>
      (CorrectlyRounded(mode, Value(b) + HalfValue(a), 0, Add(a, b, mode)) <==> !Unsupportable(b, a, mode) && !MixedLost(b, a, mode))
    ensures HasSignOf(Add(a, b, mode), Value(a) + Value(b))
    ensures Value(a) + Value(b) == 0 ==>
      (Add(a, b, mode).sign == ZeroSign(a, b, mode) <==> !(IsZero(a) && IsZero(b) && a.sign != b.sign && mode == Down))
  {
    hide Add, CorrectlyRounded, MaxMag, Shl, Pow2, Misrounds, Unsupportable, MixedLost, ZeroSign, HalfValue;
    AddSign(a, b, mode);
    if SameScale(a, b) { AddCorrect(a, b, mode); }
    if Mixed(a, b) {
      MixedLarger(a, b);
      if Abs(Value(a) + HalfValue(b)) <= MaxMag() { MixedRounds(a, b, mode); }
    }
    if Mixed(b, a) {
      MixedLarger(b, a);
      if Abs(Value(b) + HalfValue(a)) <= MaxMag() { MixedRounds(b, a, mode); }
    }
  }

  /** The smallest normal number plus two of the smallest denormals comes out one of them short. */
  lemma HalfExample()
    ensures exists a, b :: Mixed(a, b) && Value(Add(a, b, Nearest)) == Value(a) + Value(b) - Shl(1, W) && !CorrectlyRounded(Nearest, Value(a) + Value(b), 0, Add(a, b, Nearest))
  {
    hide CorrectlyRounded, Add, Shl, Pow2, MaxMag;
    LargeWord();
    var a, b := F80(TWO63, 1, false), F80(2, 0, false);
    var half, whole, r := F80(TWO63 + 1, 1, false), F80(TWO63 + 2, 1, false), Add(a, b, Nearest);
    ShlAdd(TWO63, 1, W);
    ShlAdd(TWO63 + 1, 1, W);
    ShlDoubles(1, W - 1);
    ShlDouble(1, W - 1);
    ShlAdd(1, 1, W);
    FiniteBelowMax(half);
    MixedRounds(a, b, Nearest);
    OnlyExact(half, r);
    NotNearest(Value(a) + Value(b), r, whole);
  }

  lemma LargeWord()
    ensures TWO63 > 2 && TWO63 + 2 < TWO64
  {
    WordPowers();
    assert Pow2(W - 1) == 4 * Pow2(W - 3);
  }

  /** A representable number is correctly rounded only to itself. */
  lemma OnlyExact(f: F80, r: F80)
    requires Finite(f) && CorrectlyRounded(Nearest, Value(f), 0, r)
    ensures Value(r) == Value(f)
  {
    assert Unbeaten(Nearest, Value(f), 0, r, f);
    assert Scaled(f, 0) == Value(f) && Scaled(r, 0) == Value(r);
  }

  /** Rounding up gets the sum with a denormal that is too small wrong. */
  lemma LostSumExample()
    ensures exists a, b :: Mixed(a, b) && !CorrectlyRounded(Up, Value(a) + Value(b), 0, Add(a, b, Up))
  {
    hide CorrectlyRounded, Add, Shl, MaxMag;
    LargeWord();
    var a, b := F80(TWO63, W + 2, false), F80(1, 0, false);
    assert Pow2(1) == 2 * Pow2(0);
    MixedLarger(a, b);
    BelowMax(a, b);
    MixedCorrect(a, b, Up);
  }
}
