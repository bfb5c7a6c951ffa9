/** u128_normalize_round turns a 128-bit significand into the correctly rounded float80. */
module Float80Normalize {
  import opened Powers
  import opened Rounding
  import opened Float80
  import opened Float80Rounding

  lemma ClzTopWord()
    ensures TWO127 < TWO128 && U128Clz(TWO127) == 0
  {
    hide U128Clz;
    assert TWO128 == 2 * TWO127;
    if U128Clz(TWO127) > 0 { Pow2Mono(W2 - U128Clz(TWO127), W2 - 1); }
  }

  /** A non-zero 128-bit word, shifted left until its top bit is set. */
  lemma ShiftedUp(s: U128)
    requires s != 0
    ensures TWO127 <= Shl(s, U128Clz(s)) < TWO128
  {
    hide Shl, Pow2, U128Clz;
    var z := U128Clz(s);
    ShlPow2(W2 - 1 - z, z);
    ShlPow2(W2 - z, z);
    ShlLe(Pow2(W2 - 1 - z), s, z);
    ShlLt(s, Pow2(W2 - z), z);
  }

  lemma NormalizeInRange(s: U128, exp: int, sign: bool, mode: Mode)
    requires s != 0 && 1 <= exp + BIAS - U128Clz(s) <= EXP_MAX
    ensures TWO127 <= Shl(s, U128Clz(s)) < TWO128
    ensures NormalizeRound(s, exp, sign, mode)
         == RoundTo64(Shl(s, U128Clz(s)), exp + BIAS - U128Clz(s), sign, mode)
  {
    ShiftedUp(s);
    var z := U128Clz(s);
    var t := Shl(s, z);
    LowSmall(t, W2);
    assert NormalizeRound(s, exp, sign, mode) == RoundTo64(Low(t, W2), exp - z + BIAS, sign, mode);
  }

  /** A word with its top bit set, as a number in the units of binade e. */
  lemma WordInBinade(t: U128, e: nat)
    requires TWO127 <= t && e >= 1
    ensures Shl(TWO63, e + W - 1) <= Shl(t, e - 1) < Shl(TWO64, e + W - 1)
  {
    ShlLe(TWO127, t, e - 1);
    ShlLt(t, TWO128, e - 1);
    WordPowers();
    ShlShl(TWO63, W, e - 1);
    ShlShl(TWO64, W, e - 1);
  }

  /** r is q units of binade e; q = 2^64 stands for the first number of the next binade. */
  ghost predicate Encodes(r: F80, e: nat, q: nat) {
    && IsSupported(r)
    && Mag(r) == Shl(q, e + W - 1)
    && r.signif % 2 == q % 2
    && TWO63 <= q <= TWO64
    && r.exp == (if q == TWO64 then e + 1 else e)
  }

  /** r is the magnitude n rounded to the unit of binade e, which n belongs to. */
  ghost predicate RoundedInBinade(mode: Mode, n: nat, e: nat, q: nat, r: F80) {
    && Encodes(r, e, q)
    && Shl(TWO63, e + W - 1) <= n < Shl(TWO64, e + W - 1)
    && Rounds(mode, r.sign, n, e + W - 1, q)
  }

  lemma RoundTo64InBinade(t: U128, e: nat, sign: bool, mode: Mode)
    requires TWO127 <= t && 1 <= e <= EXP_MAX
    ensures RoundTo64(t, e, sign, mode).sign == sign
    ensures RoundedInBinade(mode, Shl(t, e - 1), e, ShiftRightRound(t, W, sign, mode), RoundTo64(t, e, sign, mode))
  {
    var q := ShiftRightRound(t, W, sign, mode);
    RoundTo64Mag(t, e, sign, mode);
    WordInBinade(t, e);
    ShiftByWordRounds(t, sign, mode);
    RoundsScale(mode, sign, t, W, q, e - 1);
  }

  /** In the normal range, the result is the significand rounded to the unit of its own
      binade e, carry included. */
  lemma NormalizeRounds(s: U128, exp: int, sign: bool, mode: Mode) returns (e: nat, q: nat, r: F80)
    requires s != 0 && 1 <= exp + BIAS - U128Clz(s) <= EXP_MAX
    ensures e == exp + BIAS - U128Clz(s)
    ensures r == NormalizeRound(s, exp, sign, mode) && r.sign == sign
    ensures RoundedInBinade(mode, Shl(s, exp + BIAS - 1), e, q, r)
  {
    hide NormalizeRound, RoundTo64, ShiftRightRound, U128Clz, RoundedInBinade, Shl;
    var z := U128Clz(s);
    e := exp + BIAS - z;
    NormalizeInRange(s, exp, sign, mode);
    var t: U128 := Shl(s, z);
    q := ShiftRightRound(t, W, sign, mode);
    r := RoundTo64(t, e, sign, mode);
    RoundTo64InBinade(t, e, sign, mode);
    assert Shl(s, exp + BIAS - 1) == Shl(t, e - 1) by { ShlShl(s, z, e - 1); }
  }

  /** An exact number in the normal range is correctly rounded. The number is
      s * 2^(exp + BIAS - 1), in the units of Mag. */
  lemma NormalizeCorrect(s: U128, exp: int, sign: bool, mode: Mode, k: nat)
    requires s != 0 && exp + BIAS - U128Clz(s) >= 1
    requires Shl(s, exp + BIAS - 1) <= MaxMag()
    ensures NormalizeRound(s, exp, sign, mode).sign == sign
    ensures CorrectlyRounded(mode, WithSign(sign, Shl(Shl(s, exp + BIAS - 1), k)), k,
                             NormalizeRound(s, exp, sign, mode))
  {
    hide NormalizeRound, RoundedInBinade, CorrectlyRounded, Shl, U128Clz;
    BinadeOf(s, exp);
    var e, q, r := NormalizeRounds(s, exp, sign, mode);
    InBinadeCorrect(mode, Shl(s, exp + BIAS - 1), k, e, q, r);
  }

  /** Rounding to the unit of the binade is correct rounding, as long as the number does not
      exceed the largest finite magnitude. */
  lemma InBinadeCorrect(mode: Mode, n: nat, k: nat, e: nat, q: nat, r: F80)
    requires 1 <= e <= EXP_MAX && n <= MaxMag() && RoundedInBinade(mode, n, e, q, r)
    ensures CorrectlyRounded(mode, WithSign(r.sign, Shl(n, k)), k, r)
  {
    hide Rounds, Shl, Pow2, CorrectlyRounded;
    BinadeFinite(mode, n, e, q, r);
    var n' := Shl(n, k);
    assert Shl(TWO63, e + W - 1 + k) <= n' by {
      ShlShl(TWO63, e + W - 1, k);
      ShlLe(Shl(TWO63, e + W - 1), n, k);
    }
    RoundsScale(mode, r.sign, n, e + W - 1, q, k);
    GridRounds(mode, n', k, r, q, e);
  }

  lemma BinadeFinite(mode: Mode, n: nat, e: nat, q: nat, r: F80)
    requires 1 <= e <= EXP_MAX && n <= MaxMag() && RoundedInBinade(mode, n, e, q, r)
    ensures Finite(r) && n > 0
  {
    if e == EXP_MAX { RoundsBelow(mode, r.sign, n, e + W - 1, q, TWO64 - 1); }
  }

  /** A number of at most the largest finite magnitude has a representable exponent. */
  lemma BinadeOf(s: U128, exp: int)
    requires s != 0 && exp + BIAS - U128Clz(s) >= 1
    requires Shl(s, exp + BIAS - 1) <= MaxMag()
    ensures exp + BIAS - U128Clz(s) <= EXP_MAX
  {
    hide Shl, Pow2, MaxMag, U128Clz;
    var z := U128Clz(s);
    var e := exp + BIAS - z;
    if e > EXP_MAX {
      ShiftedUp(s);
      WordInBinade(Shl(s, z), e);
      ShlShl(s, z, e - 1);
      assert Shl(TWO63, e + W - 1) <= MaxMag();
      BeyondMax(e);
    }
  }

  lemma BeyondMax(e: nat)
    requires e > EXP_MAX
    ensures Shl(TWO63, e + W - 1) > MaxMag()
  {
    WordPowers();
    ShlDouble(TWO63, EXP_MAX + W - 1);
    ShlLt(TWO64 - 1, TWO64, EXP_MAX + W - 1);
    ShlShl(TWO63, e - EXP_MAX - 1, EXP_MAX + W);
    ShlLe(TWO63, Shl(TWO63, e - EXP_MAX - 1), EXP_MAX + W);
  }
}
