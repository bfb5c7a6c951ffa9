/** f80_lt and f80_eq are the order of the real numbers, although f80_lt asks for the sign of
    a rounded difference. */
module Float80Compare {
  import opened Powers
  import opened Rounding
  import opened Float80
  import opened Float80Rounding
  import opened Float80Normalize
  import opened Float80Sum

  /** Exact value, with the infinities beyond every finite number. */
  function Extended(f: F80): int { if IsInf(f) then WithSign(f.sign, MaxMag() + 1) else Value(f) }

  lemma InfEncoding(a: F80)
    requires IsSupported(a) && IsInf(a)
    ensures a == Inf(a.sign)
  {
    hide Shl, Shr, Low;
    WordPowers();
    ShrLow(a.signif, W - 1);
    ShlPow2(1, W - 1);
    assert Pow2(1) == 2;
    ShlOne(W - 1);
    ShrBounds(a.signif, W - 1, 1, 2);
  }

  /** Infinity plus anything but the opposite infinity is that infinity. */
  lemma InfSum(a: F80, b: F80, mode: Mode)
    requires a == Inf(a.sign) && (b.exp < a.exp || b == a) && !IsNan(a)
    ensures AddOrdered(a, b, mode) == a
  {
    hide Aligned, Shl, Shr, Low;
    WordPowers();
    Widen(a.signif);
    ClzTopWord();
  }

  lemma ExtendedOrder(a: F80)
    requires IsSupported(a) && !IsNan(a)
    ensures Finite(a) ==> Abs(Extended(a)) <= MaxMag()
    ensures !Finite(a) ==> a == Inf(a.sign) && IsInf(a)
  {
    if Finite(a) { FiniteBelowMax(a); } else { InfEncoding(a); }
  }

  lemma ValueNeg(b: F80)
    ensures Value(Neg(b)) == -Value(b) && Finite(Neg(b)) == Finite(b) && IsZero(Neg(b)) == IsZero(b)
  {
  }

  /** On every pair of comparable operands and in every rounding mode, f80_lt is the order of the
      exact values, infinities and denormals included. Only the final assertion of f80_add stands
      in the way, in the sums of MixedUnsupported. */
  lemma LtCorrect(a: F80, b: F80, mode: Mode)
    requires !Uncomparable(a, b)
    ensures Lt(a, b, mode) <==> Extended(a) < Extended(b)
  {
    hide Add, Shl, Pow2, Low, MaxMag;
    ExtendedOrder(a);
    ExtendedOrder(b);
    ValueNeg(b);
    if Finite(a) && Finite(b) {
      MagZero(a);
      MagZero(b);
      AddSign(a, Neg(b), mode);
    } else if !(IsInf(a) && IsInf(b) && a.sign == b.sign) {
      InfiniteDifference(a, b, mode);
    }
  }

  lemma InfiniteDifference(a: F80, b: F80, mode: Mode)
    requires !Uncomparable(a, b) && (IsInf(a) || IsInf(b)) && !(IsInf(a) && IsInf(b) && a.sign == b.sign)
    ensures var r := Sub(a, b, mode); !IsZero(r) && r.sign == (if IsInf(a) then a.sign else !b.sign)
  {
    hide AddOrdered, Shl, Pow2;
    if IsInf(a) {
      InfEncoding(a);
      if IsInf(b) { InfEncoding(b); }
      InfSum(a, Neg(b), mode);
    } else {
      InfEncoding(b);
      InfSum(Neg(b), a, mode);
    }
  }

  /** A supported finite number has one encoding, zeros apart. */
  lemma UniqueEncoding(a: F80, b: F80)
    requires Finite(a) && Finite(b) && Mag(a) == Mag(b)
    ensures a.signif == b.signif && (a.exp == b.exp)
  {
    if Scale(a.exp) == Scale(b.exp) {
      SameBinade(a, b);
    } else if Scale(a.exp) > Scale(b.exp) {
      BelowBinade(b, a.exp);
      ShlLe(TWO63, a.signif, a.exp + W - 1);
    } else {
      BelowBinade(a, b.exp);
      ShlLe(TWO63, b.signif, b.exp + W - 1);
    }
  }

  lemma SameBinade(a: F80, b: F80)
    requires Finite(a) && Finite(b) && Mag(a) == Mag(b) && Scale(a.exp) == Scale(b.exp)
    ensures a.signif == b.signif && a.exp == b.exp
  {
    hide Shl;
    if a.signif < b.signif { ShlLt(a.signif, b.signif, Scale(a.exp) + W - 1); }
    if b.signif < a.signif { ShlLt(b.signif, a.signif, Scale(a.exp) + W - 1); }
  }

  lemma BelowBinade(g: F80, e: nat)
    requires Finite(g) && Scale(g.exp) < e
    ensures Mag(g) < Shl(TWO63, e + W - 1)
  {
    hide Shl;
    var s := Scale(g.exp);
    WordPowers();
    ShlLt(g.signif, TWO64, s + W - 1);
    ShlDouble(TWO63, s + W - 1);
    ShlShl(TWO63, e - s - 1, s + W);
    ShlLe(TWO63, Shl(TWO63, e - s - 1), s + W);
  }

  /** f80_eq is equality of the exact values; in particular the two zeros are equal. */
  lemma EqCorrect(a: F80, b: F80)
    requires !Uncomparable(a, b)
    ensures Eq(a, b) <==> Extended(a) == Extended(b)
  {
    hide Shl, Pow2, Low, MaxMag;
    ExtendedOrder(a);
    ExtendedOrder(b);
    MagZero(a);
    MagZero(b);
    if Finite(a) && Finite(b) && Mag(a) == Mag(b) { UniqueEncoding(a, b); }
  }

  /** Exactly one of less, equal and greater holds, in every mode. */
  lemma Trichotomy(a: F80, b: F80, mode: Mode)
    requires !Uncomparable(a, b)
    ensures Lt(a, b, mode) || Eq(a, b) || Lt(b, a, mode)
    ensures !(Lt(a, b, mode) && Eq(a, b)) && !(Lt(b, a, mode) && Eq(a, b)) && !(Lt(a, b, mode) && Lt(b, a, mode))
  {
    hide Lt, Eq, Extended;
    LtCorrect(a, b, mode);
    LtCorrect(b, a, mode);
    EqCorrect(a, b);
  }
}
