/** Products below the normal range. u128_normalize_round shifts them down to the exponent of the
    denormals and then rounds once more to 64 bits; here is exactly when that is correct rounding. */
module Float80Tiny {
  import opened Powers
  import opened Rounding
  import opened Float80
  import opened Float80Rounding
  import opened Float80Normalize
  import opened Float80Mul

  // Two roundings

  /** The word shifted right by k, and the result by 64 bits, each time with rounding. */
  function TinyRound(s: U128, k: nat, sign: bool, mode: Mode): nat {
    var y := ShiftRightRound(s, k, sign, mode);
    ShiftFits(s, k, sign, mode);
    ShiftRightRound(y, W, sign, mode)
  }

  lemma ShiftFits(s: U128, k: nat, sign: bool, mode: Mode)
    ensures ShiftRightRound(s, k, sign, mode) < TWO128
    ensures k > 0 ==> ShiftRightRound(s, k, sign, mode) <= TWO127
  {
    hide Shl, Low, Pow2;
    WordPowers();
    if k > 0 {
      ShlOne(k);
      ShrStep(s, 0);
      ShrHalf(s, k);
    }
  }

  /** The products that two roundings get wrong. Rounding to nearest, the first one reaches or
      leaves a tie of the second. Rounding away, the rest that decides the first one is cut to 64
      bits, and what is left of a small word can be all zero. */
  predicate DroppedTwice(s: nat, k: nat, sign: bool, mode: Mode) {
    var low, top, rest := Low(Shr(s, k), W), Shr(Shr(s, k), W), Low(s, k);
    k >= 1 &&
    (|| (mode == Nearest && low == TWO63 - 1 && top % 2 == 1 && 2 * rest >= Pow2(k))
     || (mode == Nearest && low == TWO63 && top % 2 == 0 && 0 < 2 * rest <= Pow2(k))
     || (Away(mode, sign) && k < W2 && 0 < s < Pow2(k - 1) && Low(s, W) == 0))
  }

  /** The word in parts: t units of the result, low units of the first shift, and the rest. */
  lemma WordParts(s: nat, k: nat)
    ensures var x, rest := Shr(s, k), Low(s, k);
      var t, low := Shr(x, W), Low(x, W);
      && x == Shl(t, W) + low && low < TWO64 && rest < Pow2(k)
      && s == Shl(t, k + W) + (Shl(low, k) + rest)
      && (x % 2 == low % 2)
  {
    hide Shr, Low, Pow2;
    var x := Shr(s, k);
    var t, low := Shr(x, W), Low(x, W);
    ShrLow(s, k);
    ShrLow(x, W);
    ShlAdd(Shl(t, W), low, k);
    ShlShl(t, W, k);
    assert Shl(t, W) == 2 * Shl(t, W - 1);
  }

  /** How the two lower parts compare with half a unit of the result. */
  lemma HalfUnit(low: nat, k: nat, rest: nat)
    requires low < TWO64 && rest < Pow2(k)
    ensures Pow2(k + W) == 2 * Shl(TWO63, k) && Shl(low, k) + rest < Pow2(k + W)
    ensures low < TWO63 ==> Shl(low, k) + rest < Shl(TWO63, k)
    ensures low > TWO63 ==> Shl(low, k) > Shl(TWO63, k)
  {
    hide Shl, Pow2;
    WordPowers();
    ShlPow2(W, k);
    ShlAdd(TWO63, TWO63, k);
    ShlLt(low, TWO64, k);
    if low < TWO63 { ShlLt(low, TWO63, k); }
    if low > TWO63 { ShlLt(TWO63, low, k); }
  }

  /** Whether the first rounding goes up. */
  predicate Bumped(s: nat, k: nat, sign: bool, mode: Mode)
    requires k >= 1
  {
    Increments(Shr(s, k - 1) % 2, Low(Low(s, k - 1), W), Shr(s, k) % 2 == 0, sign, mode)
  }

  lemma Guard(s: nat, k: nat)
    requires k >= 1
    ensures Low(s, k) == Low(s, k - 1) + (if Shr(s, k - 1) % 2 == 1 then Pow2(k - 1) else 0)
    ensures Shr(s, k - 1) % 2 == 1 <==> 2 * Low(s, k) >= Pow2(k)
    ensures 2 * Low(s, k) == Pow2(k) <==> Shr(s, k - 1) % 2 == 1 && Low(s, k - 1) == 0
  {
    hide Shr, Low;
    ShrStep(s, k - 1);
  }

  /** A first shift by more than 64 bits leaves less than half a unit of the second. */
  lemma FarShift(s: U128, k: nat)
    requires k > W
    ensures Shr(s, k) < TWO63
  {
    hide Shr, Low;
    ShlOne(k);
    ShlPow2(W - 1, k);
    Pow2Mono(W2, W - 1 + k);
    ShrBounds(s, k, 0, TWO63);
  }

  /** What the second rounding makes of the first one's result. */
  lemma TinyPicks(s: U128, k: nat, sign: bool, mode: Mode)
    requires 1 <= k < W2
    ensures var x := Shr(s, k);
      TinyRound(s, k, sign, mode) == Pick(mode, sign, Shr(x, W), Low(x, W) + (if Bumped(s, k, sign, mode) then 1 else 0), TWO64)
  {
    hide Shl, Shr, Low, Pow2, Increments, Rounds;
    var x, y := Shr(s, k), ShiftRightRound(s, k, sign, mode);
    ShiftFits(s, k, sign, mode);
    ShrLow(x, W);
    var rest := Low(x, W) + (if Bumped(s, k, sign, mode) then 1 else 0);
    assert y == Shl(Shr(x, W), W) + rest;
    ShiftByWordRounds(y, sign, mode);
    Picks(mode, sign, y, W, Shr(x, W), rest, ShiftRightRound(y, W, sign, mode));
  }

  lemma NearestTwice(s: U128, k: nat, sign: bool)
    requires 1 <= k < W2
    ensures var x, d := Shr(s, k), Pow2(k + W);
      TinyRound(s, k, sign, Nearest) == Pick(Nearest, sign, Shr(x, W), Shl(Low(x, W), k) + Low(s, k), d) <==> !DroppedTwice(s, k, sign, Nearest)
  {
    hide Shl, Shr, Low, Pow2, TinyRound;
    WordParts(s, k);
    HalfUnit(Low(Shr(s, k), W), k, Low(s, k));
    TinyPicks(s, k, sign, Nearest);
    Guard(s, k);
    WordPowers();
    var low := Low(Shr(s, k), W);
    if low == TWO63 {
      if k > W { FarShift(s, k); }
      LowSmaller(s, k - 1);
    }
  }

  /** Nothing is cut off a rest of at most 64 bits. */
  lemma LowSmaller(s: nat, k: nat)
    ensures k <= W ==> Low(Low(s, k), W) == Low(s, k)
  {
    if k <= W {
      Pow2Mono(k, W);
      LowSmall(Low(s, k), W);
    }
  }

  lemma AwayTwice(s: U128, k: nat, sign: bool, mode: Mode)
    requires 1 <= k < W2 && Away(mode, sign)
    ensures var x, d := Shr(s, k), Pow2(k + W);
      TinyRound(s, k, sign, mode) == Pick(mode, sign, Shr(x, W), Shl(Low(x, W), k) + Low(s, k), d) <==> !DroppedTwice(s, k, sign, mode)
  {
    hide Shl, Shr, Low, Pow2, TinyRound;
    WordParts(s, k);
    HalfUnit(Low(Shr(s, k), W), k, Low(s, k));
    TinyPicks(s, k, sign, mode);
    Guard(s, k);
    CutToNothing(s, k);
    ShlOne(k);
  }

  /** When something is dropped and none of it is seen. */
  lemma CutToNothing(s: U128, k: nat)
    requires 1 <= k < W2
    ensures (Low(Shr(s, k), W) == 0 && Shr(s, k - 1) % 2 == 0 && Low(Low(s, k - 1), W) == 0 && Low(s, k) > 0)
       <==> 0 < s < Pow2(k - 1) && Low(s, W) == 0
  {
    hide Shl, Shr, Low, Pow2;
    Guard(s, k);
    if 0 < s < Pow2(k - 1) {
      Pow2Mono(k - 1, k);
      LowSmall(s, k - 1);
      LowSmall(s, k);
      LowSmall(0, W);
    } else if Low(Shr(s, k), W) == 0 && Shr(s, k - 1) % 2 == 0 && Low(Low(s, k - 1), W) == 0 && Low(s, k) > 0 {
      LowSmaller(s, k - 1);
      assert k - 1 > W;
      FarShift(s, k);
      WordPowers();
      LowSmall(Shr(s, k), W);
      ShrLow(s, k);
      ShlOne(k);
    }
  }

  lemma ChopTwice(s: U128, k: nat, sign: bool, mode: Mode)
    requires 1 <= k < W2 && mode != Nearest && !Away(mode, sign)
    ensures var x, d := Shr(s, k), Pow2(k + W);
      TinyRound(s, k, sign, mode) == Pick(mode, sign, Shr(x, W), Shl(Low(x, W), k) + Low(s, k), d)
  {
    hide Shl, Shr, Low, Pow2, TinyRound;
    WordParts(s, k);
    HalfUnit(Low(Shr(s, k), W), k, Low(s, k));
    TinyPicks(s, k, sign, mode);
  }

  lemma ShiftedOut(s: U128, k: nat, sign: bool, mode: Mode)
    requires k >= W2
    ensures var x, d := Shr(s, k), Pow2(k + W);
      TinyRound(s, k, sign, mode) == Pick(mode, sign, Shr(x, W), Shl(Low(x, W), k) + Low(s, k), d) && !DroppedTwice(s, k, sign, mode)
  {
    hide Shl, Shr, Low, Pow2;
    Pow2Mono(W2, k);
    LowSmall(s, k);
    LowSmall(0, W);
    ShlOne(k);
    ShlOne(W);
    WordParts(s, k);
    HalfUnit(Low(Shr(s, k), W), k, Low(s, k));
    WordPowers();
    var y := ShiftRightRound(s, k, sign, mode);
    ShiftByWordRounds(y, sign, mode);
    Picks(mode, sign, y, W, 0, y, ShiftRightRound(y, W, sign, mode));
    ShlLt(0, TWO63, k);
    ShlLe(2, TWO63, k);
    ShlDouble(1, k);
    assert 2 * s < Pow2(k + W) by { TwiceFits(s, k); }
  }

  lemma TwiceFits(s: U128, k: nat)
    requires k >= W2
    ensures 2 * s < Pow2(k + W)
  {
    Pow2Mono(W2 + 1, k + W);
    assert Pow2(W2 + 1) == 2 * Pow2(W2);
  }

  /** Rounding twice gives what rounding once gives, but for the products named above. */
  lemma TinyExact(s: U128, k: nat, sign: bool, mode: Mode)
    ensures Rounds(mode, sign, s, k + W, TinyRound(s, k, sign, mode)) <==> !DroppedTwice(s, k, sign, mode)
  {
    hide Shl, Shr, Low, Pow2, TinyRound, Rounds, DroppedTwice, Pick;
    var x := Shr(s, k);
    if k == 0 {
      NotTwice(s, sign, mode);
    } else {
      WordParts(s, k);
      HalfUnit(Low(Shr(s, k), W), k, Low(s, k));
      Picks(mode, sign, s, k + W, Shr(x, W), Shl(Low(x, W), k) + Low(s, k), TinyRound(s, k, sign, mode));
      if k >= W2 {
        ShiftedOut(s, k, sign, mode);
      } else if mode == Nearest {
        NearestTwice(s, k, sign);
      } else if Away(mode, sign) {
        AwayTwice(s, k, sign, mode);
      } else {
        ChopTwice(s, k, sign, mode);
        ChopNever(s, k, sign, mode);
      }
    }
  }

  lemma NotTwice(s: U128, sign: bool, mode: Mode)
    ensures Rounds(mode, sign, s, W, TinyRound(s, 0, sign, mode)) && !DroppedTwice(s, 0, sign, mode)
  {
    ShiftByWordRounds(s, sign, mode);
  }

  lemma ChopNever(s: U128, k: nat, sign: bool, mode: Mode)
    requires mode != Nearest && !Away(mode, sign)
    ensures !DroppedTwice(s, k, sign, mode)
  {
  }

  // Denormal results

  /** The float80 that q denormal units stand for. */
  function Denormal(q: nat, sign: bool): (r: F80)
    requires q <= TWO63
  {
    WordPowers();
    if q == TWO63 then F80(q, 1, sign) else F80(q, 0, sign)
  }

  lemma DenormalMag(q: nat, sign: bool)
    requires q <= TWO63
    ensures var r := Denormal(q, sign); Finite(r) && Mag(r) == Shl(q, W) && r.signif == q && r.sign == sign
  {
    WordPowers();
  }

  /** Among whole numbers of denormal units one is correctly rounded if and only if it is the one
      that rounding selects. */
  lemma DenormalRounds(mode: Mode, sign: bool, n: nat, k: nat, q: nat, p: nat)
    requires n != 0 && q <= TWO63 && p <= TWO63 && Rounds(mode, sign, n, W + k, p)
    ensures CorrectlyRounded(mode, WithSign(sign, n), k, Denormal(q, sign)) <==> q == p
  {
    hide CorrectlyRounded, Rounds, Shl, Pow2, Denormal;
    DenormalMag(q, sign);
    DenormalMag(p, sign);
    GridRounds(mode, n, k, Denormal(p, sign), p, 1);
    if CorrectlyRounded(mode, WithSign(sign, n), k, Denormal(q, sign)) {
      Rivals(mode, sign, n, k, q, p);
      OneChoice(mode, sign, n, W + k, q, p);
    }
  }

  lemma Rivals(mode: Mode, sign: bool, n: nat, k: nat, q: nat, p: nat)
    requires q <= TWO63 && p <= TWO63
    requires CorrectlyRounded(mode, WithSign(sign, n), k, Denormal(q, sign)) && CorrectlyRounded(mode, WithSign(sign, n), k, Denormal(p, sign))
    ensures var x, y := WithSign(sign, Shl(q, W + k)), WithSign(sign, Shl(p, W + k));
      NoBetter(mode, WithSign(sign, n), x, y, q % 2 == 0) && NoBetter(mode, WithSign(sign, n), y, x, p % 2 == 0)
  {
    hide Shl, Denormal, NoBetter;
    DenormalMag(q, sign);
    DenormalMag(p, sign);
    ShlShl(q, W, k);
    ShlShl(p, W, k);
    assert Unbeaten(mode, WithSign(sign, n), k, Denormal(q, sign), Denormal(p, sign));
    assert Unbeaten(mode, WithSign(sign, n), k, Denormal(p, sign), Denormal(q, sign));
  }

  lemma Distinct(q: nat, p: nat, u: nat)
    requires q != p
    ensures Abs(Shl(q, u) - Shl(p, u)) >= Pow2(u)
    ensures Abs(Shl(q, u) - Shl(p, u)) >= 2 * Pow2(u) || q % 2 != p % 2
  {
    hide Shl, Pow2;
    if q < p {
      ShlLt(q, p, u);
      if q + 1 < p { ShlLt(q, q + 1, u); ShlLt(q + 1, p, u); }
    } else {
      ShlLt(p, q, u);
      if p + 1 < q { ShlLt(p, p + 1, u); ShlLt(p + 1, q, u); }
    }
  }

  lemma SameChoice(mode: Mode, sign: bool, n: nat, d: nat, x: nat, y: nat, evenX: bool, evenY: bool)
    requires Selects(mode, sign, n, d, y, evenY) && d > 0
    requires x != y ==> Abs(x - y) >= d && (Abs(x - y) >= 2 * d || evenX != evenY)
    requires NoBetter(mode, WithSign(sign, n), WithSign(sign, x), WithSign(sign, y), evenX)
    requires NoBetter(mode, WithSign(sign, n), WithSign(sign, y), WithSign(sign, x), evenY)
    ensures x == y
  {
  }

  /** Two different choices cannot both be unbeaten. */
  lemma OneChoice(mode: Mode, sign: bool, n: nat, u: nat, q: nat, p: nat)
    requires Rounds(mode, sign, n, u, p)
    requires var x, y := WithSign(sign, Shl(q, u)), WithSign(sign, Shl(p, u));
      NoBetter(mode, WithSign(sign, n), x, y, q % 2 == 0) && NoBetter(mode, WithSign(sign, n), y, x, p % 2 == 0)
    ensures q == p
  {
    hide Shl, Pow2, Selects, NoBetter;
    if q != p {
      Distinct(q, p, u);
      SameChoice(mode, sign, n, Pow2(u), Shl(q, u), Shl(p, u), q % 2 == 0, p % 2 == 0);
    }
  }

  // Products

  /** How far f80_mul shifts a product down to the exponent of the denormals; it shifts up if this
      is negative. */
  function DownShift(a: F80, b: F80): int { BIAS - Scale(a.exp) - Scale(b.exp) }

  predicate ProductDroppedTwice(a: F80, b: F80, mode: Mode) {
    DownShift(a, b) >= 1 && DroppedTwice(a.signif * b.signif, DownShift(a, b), a.sign != b.sign, mode)
  }

  /** The magnitude n, in units of 2^-k of those of Mag, rounds up to the smallest normal number. */
  predicate RoundsUpToNormal(n: nat, k: nat, sign: bool, mode: Mode) {
    if mode == Nearest then 2 * n >= Shl(2 * TWO63 - 1, W + k) else Away(mode, sign) && n > Shl(TWO63 - 1, W + k)
  }

  lemma UpToNormal(mode: Mode, sign: bool, n: nat, k: nat, p: nat)
    requires Rounds(mode, sign, n, W + k, p) && p <= TWO63 && n < Shl(TWO63, W + k)
    ensures p == TWO63 <==> RoundsUpToNormal(n, k, sign, mode)
  {
    hide Shl, Pow2;
    var u := W + k;
    WordPowers();
    ShlAdd(TWO63 - 1, 1, u);
    ShlAdd(2 * TWO63 - 1, 1, u);
    ShlAdd(TWO63, TWO63, u);
    ShlOne(u);
    if p < TWO63 - 1 { ShlLt(p, TWO63 - 1, u); }
  }

  /** A word below the normal range, as f80_mul hands it on: shifted up without loss, or down. */
  lemma BelowNormal(s: U128, c: int, sign: bool, mode: Mode) returns (t: U128, k: nat)
    requires s != 0 && c < U128Clz(s)
    ensures if c > 0 then t == Shl(s, c) && k == 0 else t == s && k == -c
    ensures t != 0 && TinyRound(t, k, sign, mode) <= TWO63 && t < Shl(TWO63, k + W)
    ensures NormalizeRound(s, c + 1 - BIAS, sign, mode) == F80(TinyRound(t, k, sign, mode), 0, sign)
  {
    hide Shl, Low, Shr, Pow2, ShiftRightRound, U128Clz;
    var z := U128Clz(s);
    t, k := s, 0;
    WordPowers();
    if c > 0 {
      t := ShiftedBelow(s, c, z);
    } else {
      k := -c;
      if k == 0 { Pow2Mono(W2 - z, W2 - 1); }
    }
    var y := ShiftRightRound(t, k, sign, mode);
    ShiftFits(t, k, sign, mode);
    LowSmall(y, W2);
    BelowHalf(y, sign, mode);
    InUnits(t, k);
  }

  lemma ShiftedBelow(s: U128, c: nat, z: nat) returns (t: U128)
    requires c < z <= W2 && 0 < s < Pow2(W2 - z)
    ensures t == Shl(s, c) && 0 < t < TWO127
  {
    ShlLt(s, Pow2(W2 - z), c);
    ShlPow2(W2 - z, c);
    Pow2Mono(W2 - z + c, W2 - 1);
    WordPowers();
    t := Shl(s, c);
  }

  lemma BelowHalf(y: U128, sign: bool, mode: Mode)
    requires y <= TWO127
    ensures ShiftRightRound(y, W, sign, mode) <= TWO63
  {
    hide ShiftRightRound, Shl, Pow2;
    WordPowers();
    ShiftByWordRounds(y, sign, mode);
    RoundsBelow(mode, sign, y, W, ShiftRightRound(y, W, sign, mode), TWO63);
  }

  lemma InUnits(t: U128, k: nat)
    requires k == 0 ==> t < TWO127
    ensures t < Shl(TWO63, k + W)
  {
    hide Shl, Pow2;
    ShlPow2(W - 1, k + W);
    if k > 0 { Pow2Mono(W2, W - 1 + (k + W)); }
  }

  /** A product of less than 2^-16382 has no normal exponent. */
  lemma ProductBelow(s: U128, scales: nat)
    requires s != 0 && Shl(s, scales + W2 - 2) < Shl(TWO127, PRODUCT_SCALE)
    ensures scales - BIAS < U128Clz(s)
  {
    hide Shl, Pow2, U128Clz;
    var z := U128Clz(s);
    if scales - BIAS >= z {
      ShiftedUp(s);
      ShlShl(s, z, scales + W2 - 2 - z);
      ShlShl(TWO127, PRODUCT_SCALE, scales - BIAS - z);
      ShlLe(TWO127, Shl(s, z), scales + W2 - 2 - z);
    }
  }

  /** The rounding that is asked for, of a word and of the product it stands for. */
  lemma ProductRounds(s: nat, scales: nat, sign: bool, mode: Mode, t: nat, k: nat, p: nat)
    requires scales >= 2 && if scales > BIAS then t == Shl(s, scales - BIAS) && k == 0 else t == s && k == BIAS - scales
    requires Rounds(mode, sign, t, k + W, p)
    ensures Rounds(mode, sign, Shl(s, scales + W2 - 2), W + PRODUCT_SCALE, p)
  {
    hide Rounds, Shl;
    if scales > BIAS {
      ShlShl(s, scales - BIAS, PRODUCT_SCALE);
      RoundsScale(mode, sign, t, k + W, p, PRODUCT_SCALE);
    } else {
      RoundsScale(mode, sign, t, k + W, p, scales + W2 - 2);
    }
  }

  lemma SomeRounding(mode: Mode, sign: bool, s: nat, k: nat) returns (p: nat)
    requires s < Shl(TWO63, k + W)
    ensures p <= TWO63 && Rounds(mode, sign, s, k + W, p)
  {
    hide Shl, Shr, Low, Pow2, Rounds;
    ShrLow(s, k + W);
    p := Pick(mode, sign, Shr(s, k + W), Low(s, k + W), Pow2(k + W));
    Picks(mode, sign, s, k + W, Shr(s, k + W), Low(s, k + W), p);
    RoundsBelow(mode, sign, s, k + W, p, TWO63);
  }

  /** A product below the normal range is correctly rounded if and only if its two roundings agree
      with one, and it does not round up to the smallest normal number, for which f80_mul leaves
      the exponent of the denormals. */
  lemma MulTiny(a: F80, b: F80, mode: Mode)
    requires Finite(a) && Finite(b) && 0 < Mag(a) * Mag(b) < Shl(TWO127, PRODUCT_SCALE)
    ensures CorrectlyRounded(mode, Product(a, b), PRODUCT_SCALE, Mul(a, b, mode)) <==>
      !ProductDroppedTwice(a, b, mode) && !RoundsUpToNormal(Mag(a) * Mag(b), PRODUCT_SCALE, a.sign != b.sign, mode)
  {
    hide CorrectlyRounded, NormalizeRound, Shl, Pow2, Low, Shr, Rounds, TinyRound, DroppedTwice, RoundsUpToNormal, U128Clz, Mag;
    var scales, sign, n := Scale(a.exp) + Scale(b.exp), a.sign != b.sign, Mag(a) * Mag(b);
    ProductFits(a.signif, b.signif);
    var s: U128 := a.signif * b.signif;
    ExactProduct(a, b);
    ShlOne(scales + W2 - 2);
    ProductBelow(s, scales);
    FiniteMul(a, b, mode);
    var t, k := BelowNormal(s, scales - BIAS, sign, mode);
    var q := TinyRound(t, k, sign, mode);
    var p := SomeRounding(mode, sign, t, k);
    TinyExact(t, k, sign, mode);
    if Rounds(mode, sign, t, k + W, q) { RoundsUnique(mode, sign, t, k + W, q, p); }
    ProductRounds(s, scales, sign, mode, t, k, p);
    assert n < Shl(TWO63, W + PRODUCT_SCALE) by { WordPowers(); ShlShl(TWO63, W, PRODUCT_SCALE); }
    UpToNormal(mode, sign, n, PRODUCT_SCALE, p);
    DenormalRounds(mode, sign, n, PRODUCT_SCALE, q, p);
    if k == 0 { NoneDropped(t, sign, mode); }
    NotFinite(mode, Product(a, b), PRODUCT_SCALE, sign);
  }

  /** For all finite operands, denormals included, and in every mode, a product that is not zero and
      not beyond the largest finite number is correctly rounded if and only if it is in the normal
      range, at least 2^-16382, or is none of those that rounding below it gets wrong. */
  lemma MulRounds(a: F80, b: F80, mode: Mode)
    requires Finite(a) && Finite(b) && 0 < Mag(a) * Mag(b) <= Shl(MaxMag(), PRODUCT_SCALE)
    ensures CorrectlyRounded(mode, Product(a, b), PRODUCT_SCALE, Mul(a, b, mode)) <==>
      || Mag(a) * Mag(b) >= Shl(TWO127, PRODUCT_SCALE)
      || (!ProductDroppedTwice(a, b, mode) && !RoundsUpToNormal(Mag(a) * Mag(b), PRODUCT_SCALE, a.sign != b.sign, mode))
  {
    hide CorrectlyRounded, Mul, Shl, Pow2, MaxMag, Product, RoundsUpToNormal, ProductDroppedTwice, Mag;
    if Mag(a) * Mag(b) >= Shl(TWO127, PRODUCT_SCALE) { MulCorrect(a, b, mode); } else { MulTiny(a, b, mode); }
  }

  lemma FiniteMul(a: F80, b: F80, mode: Mode)
    requires Finite(a) && Finite(b)
    ensures 0 <= a.signif * b.signif < TWO128
    ensures Mul(a, b, mode) == NormalizeRound(a.signif * b.signif, Scale(a.exp) + Scale(b.exp) - BIAS + 1 - BIAS, a.sign != b.sign, mode)
  {
    hide NormalizeRound, Low;
    ProductFits(a.signif, b.signif);
  }

  lemma NoneDropped(s: nat, sign: bool, mode: Mode)
    ensures !DroppedTwice(s, 0, sign, mode)
  {
  }

  lemma NotFinite(mode: Mode, x: int, k: nat, sign: bool)
    ensures !CorrectlyRounded(mode, x, k, F80(TWO63, 0, sign))
  {
  }

  lemma TwiceTie()
    ensures 2 * (TWO63 * (TWO64 - 1)) == Shl(TWO64 - 1, W)
  {
    hide Shl;
    WordPowers();
    ShlTimes(1, W, TWO64 - 1);
    DoubleProduct(TWO63, TWO64 - 1);
  }

  lemma TieProduct(a: F80, b: F80)
    requires a == F80(TWO63, 1, false) && b == F80(TWO64 - 1, BIAS - 1, false)
    ensures 0 < Mag(a) * Mag(b) < Shl(TWO127, PRODUCT_SCALE) && RoundsUpToNormal(Mag(a) * Mag(b), PRODUCT_SCALE, false, Nearest)
  {
    hide Shl, Pow2, Mag;
    WordPowers();
    var s := a.signif * b.signif;
    ExactProduct(a, b);
    TwiceTie();
    ShlAdd(s, s, BIAS + W2 - 2);
    ShlShl(TWO64 - 1, W, BIAS + W2 - 2);
    TieRange();
  }

  lemma TieRange()
    ensures 0 < Shl(TWO64 - 1, W + PRODUCT_SCALE) < 2 * Shl(TWO127, PRODUCT_SCALE)
  {
    hide Shl, Pow2;
    WordPowers();
    ShlLt(TWO64 - 1, TWO64, W + PRODUCT_SCALE);
    ShlShl(TWO64, W, PRODUCT_SCALE);
    ShlAdd(TWO127, TWO127, PRODUCT_SCALE);
  }

  /** The smallest normal number times the largest number below one is a tie that rounds up to the
      smallest normal number, and does not come out so. */
  lemma TieExample()
    ensures exists a, b :: Finite(a) && Finite(b) && !ProductDroppedTwice(a, b, Nearest) && !CorrectlyRounded(Nearest, Product(a, b), PRODUCT_SCALE, Mul(a, b, Nearest))
  {
    hide CorrectlyRounded, Mul, Shl, Pow2, Mag, Product, RoundsUpToNormal, DroppedTwice;
    WordPowers();
    var a, b := F80(TWO63, 1, false), F80(TWO64 - 1, BIAS - 1, false);
    TieProduct(a, b);
    MulTiny(a, b, Nearest);
  }

  /** Rounding up gets 2^-100 of the smallest denormal wrong. */
  lemma LostExample()
    ensures exists a, b :: Finite(a) && Finite(b) && !a.sign && !b.sign && ProductDroppedTwice(a, b, Up) && !CorrectlyRounded(Up, Product(a, b), PRODUCT_SCALE, Mul(a, b, Up))
  {
    hide CorrectlyRounded, Mul, Shl, Pow2, Low;
    WordPowers();
    var a, b := F80(TWO63, BIAS - 101, false), F80(2, 0, false);
    ExactProduct(a, b);
    assert a.signif * b.signif == TWO64;
    assert DownShift(a, b) == 100;
    LowOfPower();
    assert ProductDroppedTwice(a, b, Up);
    ShlPow2(W, BIAS - 100 + W2 - 2);
    ShlPow2(W2 - 1, PRODUCT_SCALE);
    Pow2Lt(W + (BIAS - 100 + W2 - 2), W2 - 1 + PRODUCT_SCALE);
    MulTiny(a, b, Up);
  }

  lemma Pow2Lt(m: nat, n: nat)
    requires m < n
    ensures Pow2(m) < Pow2(n)
  {
    Pow2Mono(m, n - 1);
  }

  lemma LowOfPower()
    ensures Low(TWO64, W) == 0 && 0 < TWO64 < Pow2(99) && 2 < TWO63
  {
    Pow2Lt(1, W - 1);
    ShlOne(W);
    ShrUnique(TWO64, W, 1, 0);
    Pow2Lt(W, 99);
  }
}
