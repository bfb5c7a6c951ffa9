/** Sums of normal numbers whose exponents differ by more than 64: the smaller operand is
    rounded once when it is aligned and the sum is rounded again. */
module Float80FarAdd {
  import opened Powers
  import opened Rounding
  import opened Float80
  import opened Float80Rounding
  import opened Float80Normalize

  // Rounding a multiple of 2^k that is moved by less than one unit

  function UpResult(mode: Mode, sign: bool, a: nat, k: nat, y: nat): nat { Pick(mode, sign, a, y, Pow2(k)) }

  lemma UpRounds(mode: Mode, sign: bool, a: nat, k: nat, y: nat)
    requires y < Pow2(k)
    ensures Rounds(mode, sign, Shl(a, k) + y, k, UpResult(mode, sign, a, k, y))
  {
    hide Shl, Pow2, Pick, Rounds;
    Picks(mode, sign, Shl(a, k) + y, k, a, y, UpResult(mode, sign, a, k, y));
  }

  function DownResult(mode: Mode, sign: bool, a: nat, k: nat, y: nat): (r: int)
    ensures r == a || r == a - 1
  {
    if mode == Nearest then (if 2 * y < Pow2(k) || (2 * y == Pow2(k) && a % 2 == 0) then a else a - 1)
    else if y == 0 || (Away(mode, sign) && y < Pow2(k)) then a
    else a - 1
  }

  lemma DownRounds(mode: Mode, sign: bool, a: nat, k: nat, y: nat)
    requires a >= 1 && y <= Pow2(k)
    ensures Shl(a - 1, k) + Pow2(k) == Shl(a, k)
    ensures Rounds(mode, sign, Shl(a, k) - y, k, DownResult(mode, sign, a, k, y))
  {
    hide Shl, Pow2;
    ShlAdd(a - 1, 1, k);
    ShlOne(k);
  }

  // Aligning b by more than 64 bits

  /** Shifting the extended significand right by d drops the d - 64 low bits of b. */
  lemma FarShift(b: U64, d: nat)
    requires d >= W
    ensures Shr(Shl(b, W), d) == Shr(b, d - W)
    ensures Low(Shl(b, W), d) == Shl(Low(b, d - W), W)
  {
    hide Shr, Low, Shl;
    var q, r := Shr(b, d - W), Low(b, d - W);
    ShrLow(b, d - W);
    ShlAdd(Shl(q, d - W), r, W);
    ShlShl(q, d - W, W);
    ShlLt(r, Pow2(d - W), W);
    ShlPow2(d - W, W);
    ShrUnique(Shl(b, W), d, q, Shl(r, W));
  }

  /** The aligned operand is not lost before the shift reaches 128, and then only as the mode
      asks. */
  lemma AlignedFar(b: F80, d: nat, mode: Mode)
    requires Finite(b) && b.signif != 0 && d > W
    ensures d < W2 ==> Aligned(b, d, mode) <= TWO63 && (Normal(b) ==> 1 <= Aligned(b, d, mode))
    ensures d < W2 && mode != Nearest && !Away(mode, b.sign) ==> Aligned(b, d, mode) < TWO63
    ensures d >= W2 ==> Aligned(b, d, mode) == if Away(mode, b.sign) then 1 else 0
    ensures d >= W + 2 ==> Aligned(b, d, mode) <= Pow2(W - 2)
  {
    hide Shr, Low, Shl, Pow2;
    Widen(b.signif);
    WordPowers();
    if d < W2 {
      FarShift(b.signif, d);
      QuotientOf(b.signif, d - W);
    } else {
      ShlLt(0, b.signif, W);
      QuarterWord();
    }
  }

  lemma QuarterWord()
    ensures TWO63 == 2 * Pow2(W - 2) && Pow2(W - 2) % 2 == 0
  {
    assert Pow2(W - 2) == 2 * Pow2(W - 3);
  }

  lemma QuotientOf(b: U64, m: nat)
    requires 1 <= m < W
    ensures Shr(b, m) < TWO63 && (TWO63 <= b ==> 1 <= Shr(b, m))
    ensures m >= 2 ==> Shr(b, m) < Pow2(W - 2)
  {
    hide Shr, Shl, Pow2;
    ShlPow2(W - 1 - m, m);
    ShlPow2(W - m, m);
    ShlOne(m);
    ShrBounds(b, m, if TWO63 <= b then Pow2(W - 1 - m) else 0, Pow2(W - m));
    Pow2Mono(W - m, W - 1);
    if m >= 2 { Pow2Mono(W - m, W - 2); }
  }

  /** Round-to-nearest alignment by exactly 65: one bit of b is dropped, ties to even. */
  lemma AlignedBy65(b: F80)
    ensures Aligned(b, W + 1, Nearest) == b.signif / 2 + (if b.signif % 4 == 3 then 1 else 0)
  {
    hide Shl, Pow2;
    Widen(b.signif);
    FarShift(b.signif, W + 1);
    FarShift(b.signif, W);
    assert Shr(b.signif, 1) == Shr(b.signif / 2, 0) == b.signif / 2;
    assert Shr(b.signif, 0) == b.signif && Low(b.signif, 0) == 0;
    ShlOne(W);
    LowSmall(0, W);
  }

  // Normalising a sum next to the larger operand

  /** Normalising a word with its top bit set only rounds it. */
  lemma TopRounds(s: U128, exp: int, sign: bool, mode: Mode) returns (q: nat, r: F80)
    requires TWO127 <= s && 1 <= exp + BIAS <= EXP_MAX
    ensures r == NormalizeRound(s, exp, sign, mode) && r.sign == sign
    ensures RoundedInBinade(mode, Shl(s, exp + BIAS - 1), exp + BIAS, q, r)
    ensures Rounds(mode, sign, s, W, q)
  {
    hide NormalizeRound, RoundTo64, RoundedInBinade, ShiftRightRound, Rounds, Pow2;
    ClzTop(s, 0);
    NormalizeInRange(s, exp, sign, mode);
    assert Shl(s, 0) == s;
    q := ShiftRightRound(s, W, sign, mode);
    r := RoundTo64(s, exp + BIAS, sign, mode);
    RoundTo64InBinade(s, exp + BIAS, sign, mode);
    ShiftByWordRounds(s, sign, mode);
  }

  /** A word just below half range is shifted up by one bit first. */
  lemma HalfRounds(s: U128, exp: int, sign: bool, mode: Mode) returns (q: nat, r: F80)
    requires TWO127 <= 2 * s < TWO128 && 2 <= exp + BIAS <= EXP_MAX
    ensures r == NormalizeRound(s, exp, sign, mode) && r.sign == sign
    ensures RoundedInBinade(mode, Shl(s, exp + BIAS - 1), exp + BIAS - 1, q, r)
    ensures Rounds(mode, sign, 2 * s, W, q)
  {
    hide NormalizeRound, RoundTo64, RoundedInBinade, ShiftRightRound, Rounds, Pow2;
    ClzTop(s, 1);
    NormalizeInRange(s, exp, sign, mode);
    assert Shl(s, 1) == 2 * Shl(s, 0) == 2 * s;
    q := ShiftRightRound(2 * s, W, sign, mode);
    r := RoundTo64(2 * s, exp + BIAS - 1, sign, mode);
    RoundTo64InBinade(2 * s, exp + BIAS - 1, sign, mode);
    ShlDouble(s, exp + BIAS - 2);
    ShiftByWordRounds(2 * s, sign, mode);
  }

  lemma ClzTop(s: U128, z: nat)
    requires s != 0 && z <= 1 && TWO127 <= Shl(s, z) < TWO128
    ensures U128Clz(s) == z
  {
    hide U128Clz;
    var c := U128Clz(s);
    assert Shl(s, 0) == s && Shl(s, 1) == 2 * Shl(s, 0);
    assert TWO128 == 2 * TWO127;
    if c > z { Pow2Mono(W2 - c, W2 - 1 - z); }
  }

  // The sums themselves, measured in units of b's last place

  lemma FarScale(a: F80, b: F80)
    requires Normal(a) && Normal(b) && a.exp > b.exp
    ensures Mag(a) == Shl(Shl(a.signif, a.exp - b.exp), b.exp + W - 1)
    ensures Mag(b) == Shl(b.signif, b.exp + W - 1)
  {
    hide Shl;
    ShlShl(a.signif, a.exp - b.exp, b.exp + W - 1);
  }

  /** If the rounding that was done agrees with the rounding of the exact sum n * 2^(eb + 63),
      the result is correctly rounded. */
  lemma FarCorrect(mode: Mode, n: nat, k: nat, eb: nat, e: nat, q: nat, r: F80)
    requires Encodes(r, e, q) && Rounds(mode, r.sign, n, k, q)
    requires k + eb == e && 1 <= e <= EXP_MAX
    requires Shl(TWO63, k) <= n < Shl(TWO64, k) && Shl(n, eb + W - 1) <= MaxMag()
    ensures CorrectlyRounded(mode, WithSign(r.sign, Shl(n, eb + W - 1)), 0, r)
  {
    hide Shl, Pow2, Rounds, CorrectlyRounded, MaxMag, Encodes;
    var u := eb + W - 1;
    var m := Shl(n, u);
    assert Shl(TWO63, e + W - 1) <= m < Shl(TWO64, e + W - 1) by {
      ShlLe(Shl(TWO63, k), n, u);
      ShlLt(n, Shl(TWO64, k), u);
      ShlShl(TWO63, k, u);
      ShlShl(TWO64, k, u);
    }
    RoundsScale(mode, r.sign, n, k, q, u);
    assert RoundedInBinade(mode, m, e, q, r);
    InBinadeCorrect(mode, m, 0, e, q, r);
    ShlNone(m);
  }

  /** A nearer finite number refutes round-to-nearest. */
  lemma NotNearest(x: int, r: F80, g: F80)
    requires Finite(g) && Abs(Value(g) - x) < Abs(Value(r) - x)
    ensures !CorrectlyRounded(Nearest, x, 0, r)
  {
    assert Scaled(g, 0) == Value(g) && Scaled(r, 0) == Value(r);
    assert !Unbeaten(Nearest, x, 0, r, g);
  }
}
