/** What it means for a float80 to be the correctly rounded form of an exact number, as a
    statement about every representable float80, and why rounding the significand to a
    whole number of units in the last place achieves it. */
module Float80Rounding {
  import opened Powers
  import opened Rounding
  import opened Float80

  predicate Finite(f: F80) { IsSupported(f) && f.exp != EXP_SPECIAL }
  predicate Normal(f: F80) { Finite(f) && f.exp != EXP_DENORMAL }

  /** Denormals share the exponent of the smallest normals. */
  function Scale(exp: nat): nat { if exp == 0 then 1 else exp }

  /** Exact magnitude of a finite number, in units of 2^-16509 (2^-64 of the smallest denormal). */
  function Mag(f: F80): nat { Shl(f.signif, Scale(f.exp) + W - 1) }
  function Value(f: F80): int { if f.sign then -(Mag(f) as int) else Mag(f) }

  /** The largest finite magnitude. */
  function MaxMag(): nat { Shl(TWO64 - 1, EXP_MAX + W - 1) }

  function WithSign(sign: bool, m: nat): int { if sign then 0 - m else m }

  /** r is the float80 that section 4.3 of IEEE 754-2008 selects for the exact number
      x / 2^k: no other finite float80 is nearer (and of two equally near ones r has the
      even significand), or none is tighter on the side the mode asks for. */
  ghost predicate CorrectlyRounded(mode: Mode, x: int, k: nat, r: F80) {
    && Finite(r)
    && forall g: F80 :: Unbeaten(mode, x, k, r, g)
  }

  ghost predicate Unbeaten(mode: Mode, x: int, k: nat, r: F80, g: F80) {
    Finite(g) ==> NoBetter(mode, x, Scaled(r, k), Scaled(g, k), r.signif % 2 == 0)
  }

  /** The value of f in units that are finer by a factor 2^k. */
  function Scaled(f: F80, k: nat): int { WithSign(f.sign, Shl(Mag(f), k)) }

  ghost predicate NoBetter(mode: Mode, x: int, r: int, g: int, even: bool) {
    match mode
    case Nearest => Abs(r - x) <= Abs(g - x) && (g != r && Abs(r - x) == Abs(g - x) ==> even)
    case Down => r <= x && (g <= x ==> g <= r)
    case Up => x <= r && (x <= g ==> r <= g)
    case Chop => (if x < 0 then x <= r <= 0 else 0 <= r <= x) && (Abs(g) <= Abs(x) ==> Abs(g) <= Abs(r))
  }

  /** While no bits below the guard bit are lost, the rounding shift is correct rounding. */
  lemma ShiftRounds(i: U128, shift: nat, sign: bool, mode: Mode)
    requires 1 <= shift < W2 && Low(i, shift - 1) < TWO64
    ensures Rounds(mode, sign, i, shift, ShiftRightRound(i, shift, sign, mode))
  {
    hide Shl, Shr, Low;
    var q, guard, rest := Shr(i, shift), Shr(i, shift - 1) % 2, Low(i, shift - 1);
    LowSmall(rest, W);
    ShiftParts(i, shift);
    IncrementRounds(mode, sign, i, Pow2(shift - 1), Shl(q, shift), guard, rest, q % 2 == 0);
  }

  lemma ShiftParts(i: nat, shift: nat)
    requires shift >= 1
    ensures i == Shl(Shr(i, shift), shift) + Low(i, shift - 1)
               + (if Shr(i, shift - 1) % 2 == 1 then Pow2(shift - 1) else 0)
    ensures Shl(Shr(i, shift) + 1, shift) == Shl(Shr(i, shift), shift) + Pow2(shift)
  {
    ShrLow(i, shift);
    ShrStep(i, shift - 1);
    ShlAdd(Shr(i, shift), 1, shift);
    ShlOne(shift);
  }

  /** The guard bit, the bits below it and the parity of the quotient decide the rounding. */
  lemma IncrementRounds(mode: Mode, sign: bool, n: nat, h: nat, m: nat, guard: nat, rest: nat, even: bool)
    requires guard <= 1 && rest < h
    requires n == m + rest + (if guard == 1 then h else 0)
    ensures if Increments(guard, rest, even, sign, mode)
            then Selects(mode, sign, n, 2 * h, m + 2 * h, !even)
            else Selects(mode, sign, n, 2 * h, m, even)
  {
  }

  lemma ShiftByWordRounds(s: U128, sign: bool, mode: Mode)
    ensures Rounds(mode, sign, s, W, ShiftRightRound(s, W, sign, mode))
  {
    assert Pow2(W) == 2 * Pow2(W - 1);
    ShiftRounds(s, W, sign, mode);
  }

  /** RoundTo64 yields the rounded high word q, in units of the last place, whether or not
      rounding carries into the next binade. */
  lemma RoundTo64Mag(s: U128, exp: nat, sign: bool, mode: Mode)
    requires exp <= EXP_MAX && (if exp == 0 then s < TWO127 else s >= TWO127)
    ensures var q, r := ShiftRightRound(s, W, sign, mode), RoundTo64(s, exp, sign, mode);
      && Mag(r) == Shl(q, Scale(exp) + W - 1)
      && r.sign == sign
      && r.signif % 2 == q % 2
      && (exp == 0 ==> q <= TWO63 && r == F80(q, 0, sign))
      && (exp != 0 ==> TWO63 <= q <= TWO64 && IsSupported(r))
      && r.exp == (if q == TWO64 then exp + 1 else exp)
  {
    hide ShiftRightRound, Shl, Shr, Low, Pow2;
    var q := ShiftRightRound(s, W, sign, mode);
    var r := RoundTo64(s, exp, sign, mode);
    WordPowers();
    assert q <= TWO64 && (exp != 0 ==> TWO63 <= q) && (exp == 0 ==> q <= TWO63) by { HighWord(s); }
    if q == TWO64 {
      assert r == F80(TWO63, exp + 1, sign);
      ShlDouble(TWO63, exp + W - 1);
    } else {
      assert r == F80(q, exp, sign);
    }
  }

  lemma {:induction false} ShlDouble(x: nat, n: nat)
    ensures Shl(2 * x, n) == Shl(x, n + 1)
    decreases n
  {
    if n != 0 { ShlDouble(x, n - 1); }
  }

  /** Every finite float80 is a multiple of the unit of binade e, or lies below binade e. */
  lemma Spacing(g: F80, e: nat) returns (j: nat)
    requires Finite(g) && 1 <= e
    ensures Mag(g) == Shl(j, e + W - 1) || (e > 1 && Mag(g) < Shl(TWO63, e + W - 1))
  {
    var s := Scale(g.exp);
    if s >= e {
      j := Shl(g.signif, s - e);
      ShlShl(g.signif, s - e, e + W - 1);
    } else {
      j := 0;
      WordPowers();
      ShlLt(g.signif, TWO64, s + W - 1);
      ShlDouble(TWO63, s + W - 1);
      ShlShl(TWO63, e - s - 1, s + W);
      ShlLe(TWO63, Shl(TWO63, e - s - 1), s + W);
    }
  }

  lemma Spaced(g: F80, e: nat, k: nat) returns (j: nat)
    requires Finite(g) && 1 <= e
    ensures var m := Shl(Mag(g), k); m == Shl(j, e + W - 1 + k) || (e > 1 && m < Shl(TWO63, e + W - 1 + k))
  {
    j := Spacing(g, e);
    ShlShl(j, e + W - 1, k);
    ShlShl(TWO63, e + W - 1, k);
    if Mag(g) < Shl(TWO63, e + W - 1) { ShlLt(Mag(g), Shl(TWO63, e + W - 1), k); }
  }

  /** Rounding a magnitude n to a multiple q of 2^k cannot be improved on by another multiple
      of it, nor by a number g below a binade boundary that n has reached. */
  lemma GridBest(mode: Mode, sign: bool, n: nat, k: nat, q: nat, j: nat, g: nat)
    requires Rounds(mode, sign, n, k, q)
    requires g == Shl(j, k) || (g < Shl(TWO63, k) <= n)
    ensures BestMagnitude(mode, sign, n, Shl(q, k), g, q % 2 == 0)
  {
    RoundsBest(mode, sign, n, k, q, if g == Shl(j, k) then j else TWO63);
  }

  /** From magnitudes to signed numbers: a rival of the other sign is beaten by zero. */
  lemma SignedBest(mode: Mode, sign: bool, n: nat, m: nat, gsign: bool, g: nat, even: bool)
    requires n != 0 && BestMagnitude(mode, sign, n, m, g, even) && BestMagnitude(mode, sign, n, m, 0, even)
    ensures NoBetter(mode, WithSign(sign, n), WithSign(sign, m), WithSign(gsign, g), even)
  {
  }

  /** If r is the magnitude n rounded to the unit of a binade that n has reached, then r is
      n / 2^k correctly rounded, with its sign. */
  lemma GridRounds(mode: Mode, n: nat, k: nat, r: F80, q: nat, e: nat)
    requires Finite(r) && e >= 1 && n != 0
    requires Mag(r) == Shl(q, e + W - 1) && r.signif % 2 == q % 2
    requires Rounds(mode, r.sign, n, e + W - 1 + k, q)
    requires e == 1 || Shl(TWO63, e + W - 1 + k) <= n
    ensures CorrectlyRounded(mode, WithSign(r.sign, n), k, r)
  {
    var u := e + W - 1 + k;
    assert Shl(Mag(r), k) == Shl(q, u) by { ShlShl(q, e + W - 1, k); }
    ShlOne(u);
    GridBest(mode, r.sign, n, u, q, 0, 0);
    forall g: F80 ensures Unbeaten(mode, WithSign(r.sign, n), k, r, g) {
      if Finite(g) {
      var j := Spaced(g, e, k);
      var m := Shl(Mag(g), k);
      GridBest(mode, r.sign, n, u, q, j, m);
      SignedBest(mode, r.sign, n, Shl(q, u), g.sign, m, q % 2 == 0);
      }
    }
  }

  /** An exact zero is correctly rounded to a zero of either sign. */
  lemma ZeroRounds(mode: Mode, k: nat, r: F80)
    requires IsZero(r)
    ensures CorrectlyRounded(mode, 0, k, r)
  {
    ShlOne(W);
    ShlOne(k);
  }
}
