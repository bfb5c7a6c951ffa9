/** Conversions of emu/float80.c: 64-bit integers, doubles, and rounding to an integral
    value. */
module Float80Convert {
  import opened Powers
  import opened Rounding
  import opened Float80
  import opened Float80Rounding
  import opened Float80Add

  type I64 = x: int | 0 - TWO63 <= x < TWO63

  /** The exponent field of numbers in [2^63, 2^64): their significand is the number itself. */
  const BIAS63: nat := BIAS + W - 1

  /** One, in the units of Mag, is 2 to this power. */
  const ONE: nat := BIAS63 + W - 1

  function FromInt(i: I64): F80 {
    WordPowers();
    Normalize(F80(Abs(i), if i == 0 then 0 else BIAS63, i < 0))
  }

  /** Two's complement negation of a 64-bit word. */
  function Negated(x: U64): U64 { if x == 0 then 0 else TWO64 - x }

  /** A 64-bit word read as a signed number. */
  function AsSigned(x: U64): I64 {
    WordPowers();
    if x < TWO63 then x else x - TWO64
  }

  /** Unsupported and too large operands give the integer indefinite value. */
  function ToInt(f: F80, mode: Mode): I64 {
    if !IsSupported(f) then 0 - TWO63
    else if f.exp > BIAS63 then 0 - TWO63
    else
      var g := ShiftRight(f, BIAS63 - f.exp, mode);
      AsSigned(if g.sign then Negated(g.signif) else g.signif)
  }

  function RoundToIntegral(f: F80, mode: Mode): F80 {
    if !IsSupported(f) then Nan()
    else
      var bitsToClear := W - 1 - Unbias(f.exp);
      if bitsToClear <= 0 then f
      else
        var g := ShiftRight(f, bitsToClear, mode);
        if g.signif == 0 then g.(exp := EXP_DENORMAL) else Normalize(g)
  }

  // Integers

  /** Normalising a non-zero significand moves its top bit up and keeps the magnitude. */
  lemma Normalizes(q: U64, exp: U15, sign: bool) returns (z: nat, r: F80)
    requires q != 0 && exp > W
    ensures z < W && r == Normalize(F80(q, exp, sign))
    ensures TWO63 <= Shl(q, z) < TWO64 && r == F80(Shl(q, z), exp - z, sign)
    ensures q >= TWO63 ==> z == 0
    ensures Mag(r) == Shl(q, exp + W - 1)
  {
    hide Shl, Pow2, Log2;
    z := Clz64(q);
    ShlPow2(W - 1 - z, z);
    ShlPow2(W - z, z);
    ShlLe(Pow2(W - 1 - z), q, z);
    ShlLt(q, Pow2(W - z), z);
    LowSmall(Shl(q, z), W);
    r := F80(Shl(q, z), exp - z, sign);
    ShlShl(q, z, exp - z + W - 1);
    if q >= TWO63 && z > 0 { Pow2Mono(W - z, W - 1); }
  }

  /** Integers convert exactly. */
  lemma FromIntExact(i: I64)
    ensures Finite(FromInt(i)) && Value(FromInt(i)) == WithSign(i < 0, Shl(Abs(i), ONE))
  {
    hide Shl, Pow2, Normalize;
    WordPowers();
    if i == 0 {
      assert FromInt(0) == Normalize(F80(0, 0, false)) == F80(0, 0, false) by { NormalizeZeroExp(); }
      ShlOne(W);
      ShlOne(ONE);
    } else {
      var z, r := Normalizes(Abs(i), BIAS63, i < 0);
    }
  }

  lemma NormalizeZeroExp()
    ensures Normalize(F80(0, 0, false)) == F80(0, 0, false)
  {
  }

  /** The significand of a converted integer shifts back to the integer. */
  lemma ShiftedBack(q: U64, sign: bool, mode: Mode)
    requires q != 0
    ensures ShiftRight(Normalize(F80(q, BIAS63, sign)), BIAS63 - Normalize(F80(q, BIAS63, sign)).exp, mode).signif == q
    ensures var f := Normalize(F80(q, BIAS63, sign)); IsSupported(f) && f.exp <= BIAS63 && f.sign == sign
  {
    hide Shl, Pow2, Normalize, ShiftRightRound, Low;
    var z, r := Normalizes(q, BIAS63, sign);
    Widen(r.signif);
    ShiftExact(r.signif, z, q, r.sign, mode);
    LowSmall(q, W);
  }

  lemma SignedBack(i: I64)
    requires i != 0
    ensures 0 < Abs(i) < TWO64 && AsSigned(if i < 0 then Negated(Abs(i)) else Abs(i)) == i
  {
    WordPowers();
  }

  /** Every 64-bit integer survives the round trip, in every mode. */
  lemma IntRoundTrip(i: I64, mode: Mode)
    ensures ToInt(FromInt(i), mode) == i
  {
    hide Shl, Pow2, Normalize, ShiftRightRound, Low;
    WordPowers();
    if i == 0 {
      NormalizeZeroExp();
      ShiftOfZero(BIAS63, false, mode);
      LowSmall(0, W);
    } else {
      SignedBack(i);
      ShiftedBack(Abs(i), i < 0, mode);
    }
  }

  lemma ShiftOfZero(shift: nat, sign: bool, mode: Mode)
    ensures ShiftRightRound(0, shift, sign, mode) == 0
  {
    LowSmall(0, shift);
    if shift > 0 { LowSmall(0, shift - 1); }
    LowSmall(0, W);
  }

  // Rounding to integral values

  /** A number below one half rounds to zero, or to one when the mode rounds away. */
  lemma TinyRounds(mode: Mode, sign: bool, n: nat, k: nat)
    requires 2 * n < Pow2(k)
    ensures Rounds(mode, sign, n, k, if Away(mode, sign) && n != 0 then 1 else 0)
  {
    ShlOne(k);
  }

  /** On 64-bit significands the rounding shift is correct for every shift. */
  lemma WordShiftRounds(i: U64, shift: nat, sign: bool, mode: Mode)
    ensures i < TWO128
    ensures Rounds(mode, sign, i, shift, ShiftRightRound(i, shift, sign, mode))
  {
    hide Shl, Shr, Low;
    Widen(i);
    if shift == 0 {
      assert Shl(i, 0) == i by { ShlNone(i); }
    } else if shift < W2 {
      ShiftRounds(i, shift, sign, mode);
    } else {
      Pow2Mono(W2, shift);
      assert TWO128 >= 2 * TWO64 by { Pow2Mono(W + 1, W2); }
      TinyRounds(mode, sign, i, shift);
    }
  }

  /** The same for the true exponent of f, which for denormals is one more than its field. */
  lemma SignificandRounds(f: F80, mode: Mode)
    requires IsSupported(f) && f.exp <= BIAS63
    ensures f.signif < TWO128
    ensures Rounds(mode, f.sign, f.signif, BIAS63 - Scale(f.exp), ShiftRightRound(f.signif, BIAS63 - f.exp, f.sign, mode))
  {
    hide Shl, Shr, Low, ShiftRightRound;
    WordShiftRounds(f.signif, BIAS63 - f.exp, f.sign, mode);
    if f.exp == 0 {
      WordShiftRounds(f.signif, BIAS63 - 1, f.sign, mode);
      SameTinyShift(f.signif, f.sign, mode);
    }
  }

  lemma SameTinyShift(i: U64, sign: bool, mode: Mode)
    ensures i < TWO128
    ensures ShiftRightRound(i, BIAS63, sign, mode) == ShiftRightRound(i, BIAS63 - 1, sign, mode)
  {
    Widen(i);
  }

  /** f80_round returns the integer that the mode selects for the exact value of f, with the
      sign of f. */
  lemma IntegralCorrect(f: F80, mode: Mode) returns (q: nat)
    requires Finite(f)
    ensures Finite(RoundToIntegral(f, mode)) && RoundToIntegral(f, mode).sign == f.sign
    ensures Mag(RoundToIntegral(f, mode)) == Shl(q, ONE)
    ensures Rounds(mode, f.sign, Mag(f), ONE, q)
  {
    hide Shl, Shr, Low, Pow2, Normalize, ShiftRightRound, Rounds;
    if f.exp >= BIAS63 {
      q := Shl(f.signif, f.exp - BIAS63);
      ShlShl(f.signif, f.exp - BIAS63, ONE);
      RoundsExact(mode, f.sign, q, ONE);
    } else {
      Widen(f.signif);
      q := ShiftRightRound(f.signif, BIAS63 - f.exp, f.sign, mode);
      SignificandRounds(f, mode);
      RoundsScale(mode, f.sign, f.signif, BIAS63 - Scale(f.exp), q, Scale(f.exp) + W - 1);
      ShiftedWord(f, mode);
      if q == 0 {
        ShlOne(ONE);
        ShlOne(W);
      } else {
        var z, r := Normalizes(q, BIAS63, f.sign);
      }
    }
  }

  lemma ShiftedWord(f: F80, mode: Mode)
    requires f.exp < BIAS63
    ensures f.signif < TWO128
    ensures var q := ShiftRightRound(f.signif, BIAS63 - f.exp, f.sign, mode);
      q < TWO64 && Low(q, W) == q && ShiftRight(f, BIAS63 - f.exp, mode) == F80(q, BIAS63, f.sign)
  {
    hide ShiftRightRound, Shr, Low, Pow2;
    Widen(f.signif);
    WordPowers();
    var n := BIAS63 - f.exp;
    if n < W2 { ShrHalf(f.signif, n); }
    LowSmall(ShiftRightRound(f.signif, n, f.sign, mode), W);
  }

  /** Rounding twice changes nothing, in any mode the second time. */
  lemma IntegralIdempotent(f: F80, mode: Mode, mode': Mode)
    requires Finite(f)
    ensures RoundToIntegral(RoundToIntegral(f, mode), mode') == RoundToIntegral(f, mode)
  {
    hide Shl, Shr, Low, Pow2, Normalize, ShiftRightRound;
    WordPowers();
    if f.exp < BIAS63 {
      var q := ShiftRightRound(f.signif, BIAS63 - f.exp, f.sign, mode);
      ShiftedWord(f, mode);
      if q == 0 {
        ShiftOfZero(BIAS63, f.sign, mode');
        LowSmall(0, W);
      } else {
        var z, r := Normalizes(q, BIAS63, f.sign);
        if z > 0 {
          Widen(r.signif);
          ShiftExact(r.signif, z, q, f.sign, mode');
        }
      }
    }
  }

  /** What the x87 unit stores for the integer q with a sign: itself, or the indefinite value when
      it has no 64-bit form. */
  function Stored(sign: bool, q: nat): int { if q < TWO63 || (sign && q == TWO63) then WithSign(sign, q) else 0 - TWO63 }

  /** For every finite number, f80_to_int returns what is to be stored for the integer that the
      mode selects if and only if the number is not strictly between 2^63 and 2^64 in magnitude;
      there it returns the integer modulo 2^64. */
  lemma ToIntCorrect(f: F80, mode: Mode) returns (q: nat)
    requires Finite(f)
    ensures Rounds(mode, f.sign, Mag(f), ONE, q)
    ensures ToInt(f, mode) == Stored(f.sign, q) <==> !(f.exp == BIAS63 && f.signif > TWO63)
    ensures f.exp == BIAS63 && f.signif > TWO63 ==> q == f.signif && ToInt(f, mode) == WithSign(!f.sign, TWO64 - q)
  {
    hide Rounds, Shl, ToInt;
    if f.exp < BIAS63 {
      q := ToIntBelow(f, mode);
      WordPowers();
    } else {
      q := ToIntAbove(f, mode);
    }
  }

  lemma ToIntAbove(f: F80, mode: Mode) returns (q: nat)
    requires Finite(f) && f.exp >= BIAS63
    ensures Rounds(mode, f.sign, Mag(f), ONE, q) && q >= TWO63 && (f.exp == BIAS63 ==> q == f.signif)
    ensures ToInt(f, mode) == Stored(f.sign, q) <==> !(f.exp == BIAS63 && f.signif > TWO63)
    ensures f.exp == BIAS63 && f.signif > TWO63 ==> q == f.signif && ToInt(f, mode) == WithSign(!f.sign, TWO64 - q)
  {
    hide Rounds, Low, Pow2;
    var d := f.exp - BIAS63;
    q := Shl(f.signif, d);
    ShlShl(f.signif, d, ONE);
    RoundsExact(mode, f.sign, q, ONE);
    WordPowers();
    if d > 0 {
      assert q == 2 * Shl(f.signif, d - 1);
    } else {
      LowSmall(f.signif, W);
    }
  }

  lemma ToIntBelow(f: F80, mode: Mode) returns (q: nat)
    requires Finite(f) && f.exp < BIAS63
    ensures Rounds(mode, f.sign, Mag(f), ONE, q) && q <= TWO63
    ensures ToInt(f, mode) == if f.sign || q < TWO63 then WithSign(f.sign, q) else 0 - TWO63
  {
    hide Shl, Shr, Low, Pow2, ShiftRightRound, Rounds;
    Widen(f.signif);
    WordPowers();
    q := ShiftRightRound(f.signif, BIAS63 - f.exp, f.sign, mode);
    SignificandRounds(f, mode);
    RoundsScale(mode, f.sign, f.signif, BIAS63 - Scale(f.exp), q, Scale(f.exp) + W - 1);
    ShiftedWord(f, mode);
    HalvedWord(f.signif, BIAS63 - f.exp, f.sign, mode);
  }

  lemma HalvedWord(i: U64, shift: nat, sign: bool, mode: Mode)
    requires shift >= 1
    ensures i < TWO128 && ShiftRightRound(i, shift, sign, mode) <= TWO63
  {
    hide ShiftRightRound, Shl, Low;
    Widen(i);
    WordPowers();
    if shift < W2 {
      assert Shr(i, shift) == Shr(i / 2, shift - 1) <= i / 2;
    }
  }

  // Doubles

  /** Bits of a double's fraction, and how many more a float80 significand has below them. */
  const FRACTION: nat := W - 12
  const EXTRA: nat := W - 1 - FRACTION

  type U52 = x: int | 0 <= x < Pow2(FRACTION)
  type U11 = x: int | 0 <= x < 0x800

  /** The fields of an IEEE double. */
  datatype Double = Double(signif: U52, exp: U11, sign: bool)

  function FromDouble(d: Double): F80 {
    FractionFits(d.signif);
    var exp := if d.exp == 0x7ff then EXP_SPECIAL
               else if d.exp == 0 then (if d.signif == 0 then 0 else 1 - 0x3ff + BIAS)
               else d.exp - 0x3ff + BIAS;
    Normalize(F80(Shl(d.signif, EXTRA) + (if d.exp != 0 then TWO63 else 0), exp, d.sign))
  }

  lemma FractionFits(m: U52)
    ensures Shl(m, EXTRA) < TWO63 && TWO63 == Shl(Pow2(FRACTION), EXTRA) && TWO64 == 2 * TWO63
  {
    WordPowers();
    ShlPow2(FRACTION, EXTRA);
    ShlLt(m, Pow2(FRACTION), EXTRA);
  }

  /** The quiet NaN that the C library's NAN stands for. */
  function DoubleNan(): Double {
    assert Pow2(FRACTION) == 2 * Pow2(FRACTION - 1);
    Double(Pow2(FRACTION - 1), 0x7ff, false)
  }

  function ToDouble(f: F80, mode: Mode): Double {
    if !IsSupported(f) then DoubleNan()
    else
      var e := if f.exp == EXP_SPECIAL then 0x7ff else Unbias(f.exp) + 0x3ff;
      if f.exp != EXP_SPECIAL && e > 0x7fe then Double(0, 0x7ff, f.sign)
      else if e > 0 then PackDouble(f.signif, e, f.sign, mode)
      else
        var g := ShiftRight(f.(signif := f.signif / 2), -e, mode);
        PackDouble(g.signif, Unbias(g.exp) + 0x3ff, f.sign, mode)
  }

  /** Round the significand to 53 bits; a carry out of them bumps the exponent field. */
  function PackDouble(signif: U64, exp: int, sign: bool, mode: Mode): Double {
    Widen(signif);
    var s := ShiftRightRound(signif, EXTRA, sign, mode);
    if Shr(s, FRACTION + 1) % 2 == 1 then Double(Low(s / 2, FRACTION), (exp % 0x800 + 1) % 0x800, sign)
    else Double(Low(s, FRACTION), exp % 0x800, sign)
  }

  /** Packing a significand with no extra bits keeps the fraction; the integer bit is dropped. */
  lemma PackExact(m: U52, top: bool, exp: nat, sign: bool, mode: Mode)
    requires exp < 0x800
    ensures Shl(m, EXTRA) + (if top then TWO63 else 0) < TWO64
    ensures PackDouble(Shl(m, EXTRA) + (if top then TWO63 else 0), exp, sign, mode) == Double(m, exp, sign)
  {
    hide Shl, Shr, Low, Pow2, ShiftRightRound;
    FractionFits(m);
    var x: U64 := Shl(m, EXTRA) + (if top then TWO63 else 0);
    var s := m + (if top then Pow2(FRACTION) else 0);
    Widen(x);
    assert x == Shl(s, EXTRA) by { ShlAdd(m, Pow2(FRACTION), EXTRA); }
    ShiftExact(x, EXTRA, s, sign, mode);
    DoubleFraction();
    LowSmall(s, FRACTION + 1);
    ShlOne(FRACTION);
    ShrUnique(s, FRACTION, if top then 1 else 0, m);
  }

  lemma DoubleFraction()
    ensures Pow2(FRACTION + 1) == 2 * Pow2(FRACTION)
  {
  }

  /** Every double survives the round trip field by field, in every mode: normal numbers,
      denormals, zeros, infinities and NaN payloads. */
  lemma DoubleRoundTrip(d: Double, mode: Mode)
    ensures ToDouble(FromDouble(d), mode) == d
  {
    hide Shl, Shr, Low, Pow2, ShiftRightRound, PackDouble, Normalize;
    FractionFits(d.signif);
    if d.exp != 0 {
      var exp := if d.exp == 0x7ff then EXP_SPECIAL else d.exp - 0x3ff + BIAS;
      var z, r := Normalizes(Shl(d.signif, EXTRA) + TWO63, exp, d.sign);
      assert z == 0;
      ShlNone(Shl(d.signif, EXTRA) + TWO63);
      PackExact(d.signif, true, d.exp, d.sign, mode);
    } else if d.signif == 0 {
      ZeroRoundTrip(d.sign, mode);
    } else {
      DenormalRoundTrip(d, mode);
    }
  }

  lemma ZeroRoundTrip(sign: bool, mode: Mode)
    ensures ToDouble(FromDouble(Double(0, 0, sign)), mode) == Double(0, 0, sign)
  {
    hide Shl, Shr, Low, Pow2, ShiftRightRound, PackDouble;
    ShlOne(EXTRA);
    FractionFits(0);
    ShiftOfZero(BIAS - 0x3ff, sign, mode);
    LowSmall(0, W);
    PackExact(0, false, 0, sign, mode);
  }

  lemma DenormalRoundTrip(d: Double, mode: Mode)
    requires d.exp == 0 && d.signif != 0
    ensures ToDouble(FromDouble(d), mode) == d
  {
    hide Shl, Shr, Low, Pow2, ShiftRightRound, PackDouble, Normalize;
    var x := Shl(d.signif, EXTRA);
    ShlLt(0, d.signif, EXTRA);
    FractionFits(d.signif);
    var z, r := Normalizes(x, 1 - 0x3ff + BIAS, d.sign);
    ShlNone(x);
    assert z > 0;
    ShlDoubles(x, z - 1);
    Widen(Shl(x, z - 1));
    ShiftExact(Shl(x, z - 1), z - 1, x, d.sign, mode);
    LowSmall(x, W);
    PackExact(d.signif, false, 0, d.sign, mode);
  }
}
