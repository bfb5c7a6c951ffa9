/** The 80-bit soft float of emu/float80.c. A 64-bit significand with an explicit integer
    bit, a 15-bit biased exponent and a sign; arithmetic goes through unsigned 128-bit
    words. The thread-local rounding mode is a parameter. */
module Float80 {
  import opened Options
  import opened Powers
  import opened Rounding

  type U15 = x: int | 0 <= x < 0x8000
  type U64 = x: int | 0 <= x < TWO64
  type U128 = x: int | 0 <= x < TWO128

  const BIAS: int := 0x3fff
  const EXP_MAX: int := 0x7ffe
  const EXP_MIN: int := 1
  const EXP_SPECIAL: int := 0x7fff
  const EXP_DENORMAL: int := 0

  datatype F80 = F80(signif: U64, exp: U15, sign: bool)

  /** The default NaN, 0xc000000000000000 in the significand. */
  function Nan(): F80 {
    WordPowers();
    assert Pow2(W - 1) == 2 * Pow2(W - 2);
    F80(TWO63 + Pow2(W - 2), EXP_SPECIAL, false)
  }

  function Inf(sign: bool): F80 {
    WordPowers();
    F80(TWO63, EXP_SPECIAL, sign)
  }

  function Zero(sign: bool): F80 { F80(0, EXP_DENORMAL, sign) }

  function Unbias(exp: int): int { exp - BIAS }

  function UnbiasDenormal(exp: int): int {
    if exp == EXP_DENORMAL then Unbias(EXP_MIN) else Unbias(exp)
  }

  predicate IsSupported(f: F80) { if f.exp == EXP_DENORMAL then f.signif < TWO63 else f.signif >= TWO63 }
  predicate IsNan(f: F80) { f.exp == EXP_SPECIAL && Low(f.signif, W - 1) != 0 }
  predicate IsInf(f: F80) { f.exp == EXP_SPECIAL && Low(f.signif, W - 1) == 0 }
  predicate IsZero(f: F80) { f.exp == EXP_DENORMAL && f.signif == 0 }

  /** Shift a 128-bit word right, rounding in the given mode. The bits below the guard bit
      are kept in a 64-bit variable, which loses the ones above bit 63. */
  function ShiftRightRound(i: U128, shift: nat, sign: bool, mode: Mode): (r: nat)
    ensures shift == 0 ==> r == i
    ensures 1 <= shift < W2 ==> Shr(i, shift) <= r <= Shr(i, shift) + 1
    ensures shift >= W2 ==> r <= 1
  {
    if shift == 0 then i
    else if shift >= W2 then
      (if Away(mode, sign) && i != 0 then 1 else 0)
    else
      var guard := Shr(i, shift - 1) % 2;
      var rest := Low(Low(i, shift - 1), W);
      var q := Shr(i, shift);
      if Increments(guard, rest, q % 2 == 0, sign, mode) then q + 1 else q
  }

  /** Whether the bits shifted out bump the quotient: nothing happens when they are all zero. */
  predicate Increments(guard: nat, rest: nat, even: bool, sign: bool, mode: Mode) {
    if guard == 0 && rest == 0 then false
    else if Away(mode, sign) then true
    else mode == Nearest && guard != 0 && (rest != 0 || !even)
  }

  function ShiftLeft(f: F80, shift: nat): F80 {
    F80(Low(Shl(f.signif, shift), W), (f.exp - shift) % 0x8000, f.sign)
  }

  function ShiftRight(f: F80, shift: nat, mode: Mode): F80 {
    Widen(f.signif);
    F80(Low(ShiftRightRound(f.signif, shift, f.sign, mode), W), (f.exp + shift) % 0x8000, f.sign)
  }

  lemma Widen(x: U64)
    ensures x < TWO128 && Shl(x, W) + TWO64 <= TWO128
  {
    WordPowers();
    ShlLt(x, TWO64, W);
  }

  function Clz64(x: U64): (r: nat)
    requires x != 0
    ensures r < W && Pow2(W - 1 - r) <= x < Pow2(W - r)
  {
    assert Log2(x) < W by {
      if Log2(x) >= W { Pow2Mono(W, Log2(x)); }
    }
    W - 1 - Log2(x)
  }

  function Normalize(f: F80): F80 {
    if f.exp == EXP_DENORMAL then f
    else
      var shift := if f.signif != 0 then Clz64(f.signif) else W;
      if f.exp - shift < EXP_MIN then ShiftLeft(f, f.exp - EXP_MIN).(exp := EXP_DENORMAL)
      else ShiftLeft(f, shift)
  }

  function U128Clz(x: U128): (r: nat)
    ensures r <= W2
    ensures x != 0 ==> r < W2 && Pow2(W2 - 1 - r) <= x < Pow2(W2 - r)
    ensures x == 0 ==> r == W2
  {
    ClzWords(x);
    if Shr(x, W) != 0 then Clz64(Shr(x, W))
    else if x != 0 then W + Clz64(x)
    else W2
  }

  /** Counting in the high word, or past it, counts in the whole. */
  lemma ClzWords(x: U128)
    ensures Shr(x, W) < TWO64
    ensures Shr(x, W) == 0 ==> x < TWO64
    ensures Shr(x, W) != 0 ==>
      var r := Clz64(Shr(x, W)); Pow2(W2 - 1 - r) <= x < Pow2(W2 - r)
  {
    hide Shl, Shr, Low, Pow2, Log2;
    WordPowers();
    ShlOne(W);
    ShrBounds(x, W, 0, TWO64);
    ShrLow(x, W);
    if Shr(x, W) != 0 {
      var r := Clz64(Shr(x, W));
      ShlPow2(W - 1 - r, W);
      ShlPow2(W - r, W);
      ShlLe(Pow2(W - 1 - r), Shr(x, W), W);
      ShlLt(Shr(x, W), Pow2(W - r), W);
    }
  }

  /** Normalise a 128-bit significand whose binary point follows its top bit, and round it
      to 64 bits. */
  function NormalizeRound(signif: U128, exp: int, sign: bool, mode: Mode): F80 {
    var shift := U128Clz(signif);
    if exp - shift < Unbias(EXP_MIN) then
      var s := if exp > Unbias(EXP_MIN) then Shl(signif, exp - Unbias(EXP_MIN))
               else ShiftRightRound(signif, Unbias(EXP_MIN) - exp, sign, mode);
      RoundTo64(Low(s, W2), EXP_DENORMAL, sign, mode)
    else if exp - shift > Unbias(EXP_MAX) then
      if signif == TWO127 then Inf(sign)
      else if (mode == Up && sign) || (mode == Down && !sign) || mode == Chop then
        F80(TWO64 - 1, EXP_MAX, sign)
      else Inf(sign)
    else
      RoundTo64(Low(Shl(signif, shift), W2), exp - shift + BIAS, sign, mode)
  }

  /** The last step of u128_normalize_round: keep the high word, and renormalise when
      rounding carried out of it. */
  function RoundTo64(s: U128, exp: int, sign: bool, mode: Mode): F80
    requires 0 <= exp <= EXP_MAX
  {
    var q := ShiftRightRound(s, W, sign, mode);
    HighWord(s);
    if q >= TWO64 then F80(q / 2, exp + 1, sign) else F80(q, exp, sign)
  }

  lemma HighWord(s: U128)
    ensures Shr(s, W) < TWO64
    ensures s >= TWO127 ==> Shr(s, W) >= TWO63
    ensures s < TWO127 ==> Shr(s, W) < TWO63
  {
    WordPowers();
    ShlOne(W);
    if s >= TWO127 { ShrBounds(s, W, TWO63, TWO64); } else { ShrBounds(s, W, 0, TWO63); }
  }

  // Arithmetic

  function Neg(f: F80): F80 { f.(sign := !f.sign) }

  /** The operand that handle_nans returns early, if any. */
  function NanResult(a: F80, b: F80): Option<F80> {
    if !IsSupported(a) || !IsSupported(b) then Some(Nan())
    else if IsNan(a) && IsNan(b) && a.sign && !b.sign then Some(b)
    else if IsNan(a) then Some(a)
    else if IsNan(b) then Some(b)
    else None
  }

  function Add(a: F80, b: F80, mode: Mode): F80 {
    match NanResult(a, b)
    case Some(f) => f
    case None => if a.exp < b.exp then AddOrdered(b, a, mode) else AddOrdered(a, b, mode)
  }

  /** The smaller operand of f80_add, extended to 128 bits and shifted to the larger exponent. */
  function Aligned(b: F80, shift: nat, mode: Mode): (r: nat)
    ensures r < TWO128
  {
    Widen(b.signif);
    var s := Shl(b.signif, W);
    ShrLow(s, shift);
    assert Shl(Shr(s, shift), shift) >= Shr(s, shift);
    ShiftRightRound(s, shift, b.sign, mode)
  }

  /** f80_add once a has the larger exponent. Flipping both signs when a is negative leaves
      the two cases of like and unlike signs. */
  function AddOrdered(a: F80, b: F80, mode: Mode): F80
    requires a.exp >= b.exp
  {
    Widen(a.signif);
    var big: U128 := Shl(a.signif, W);
    var small := Aligned(b, a.exp - b.exp, mode);
    var exp := UnbiasDenormal(a.exp);
    if a.sign == b.sign then
      AddMagnitudes(big, if IsInf(a) then 0 else small, exp, a.sign, mode)
    else if IsInf(a) && IsInf(b) then Nan()
    else
      var small' := if IsInf(a) then 0
                    else if mode == Chop && small == 0 && b.signif != 0 then 1
                    else small;
      SubMagnitudes(big, small', exp, a.sign, mode)
  }

  function AddMagnitudes(big: U128, small: U128, exp: int, sign: bool, mode: Mode): F80 {
    if big + small < TWO128 then NormalizeRound(big + small, exp, sign, mode)
    else NormalizeRound(CarryIn(big + small - TWO128, mode), exp + 1, sign, mode)
  }

  function SubMagnitudes(big: U128, small: U128, exp: int, sign: bool, mode: Mode): F80 {
    if big == small then Zero(mode == Down && big != 0)
    else if big > small then NormalizeRound(big - small, exp, sign, mode)
    else NormalizeRound(small - big, exp, !sign, mode)
  }

  /** The sum with its carry bit shifted back in: one bit of precision is rounded off. */
  function CarryIn(sum: U128, mode: Mode): U128 {
    var half := ShiftRightRound(sum, 1, false, mode);
    WordPowers();
    assert Shr(sum, 1) == Shr(sum / 2, 0);
    if half >= TWO127 then half else half + TWO127
  }

  function Sub(a: F80, b: F80, mode: Mode): F80 { Add(a, Neg(b), mode) }

  function Mul(a: F80, b: F80, mode: Mode): F80 {
    match NanResult(a, b)
    case Some(f) => f
    case None =>
      if IsInf(a) || IsInf(b) then
        if IsZero(a) || IsZero(b) then Nan() else Inf(a.sign != b.sign)
      else
        var exp := UnbiasDenormal(a.exp) + UnbiasDenormal(b.exp) + 1;
        ProductFits(a.signif, b.signif);
        NormalizeRound(a.signif * b.signif, exp, a.sign != b.sign, mode)
  }

  lemma ProductFits(a: U64, b: U64)
    ensures 0 <= a * b < TWO128
  {
    WordPowers();
    MulLe(a, TWO64, b);
    ShlTimes(1, W, b);
    ShlLt(b, TWO64, W);
  }

  // Comparison

  predicate Uncomparable(a: F80, b: F80) {
    !IsSupported(a) || !IsSupported(b) || IsNan(a) || IsNan(b)
  }

  predicate Lt(a: F80, b: F80, mode: Mode) {
    if Uncomparable(a, b) then false
    else if IsInf(a) && IsInf(b) && a.sign == b.sign then false
    else if IsZero(a) && IsZero(b) then false
    else
      var diff := Sub(a, b, mode);
      diff.sign && !IsZero(diff)
  }

  predicate Eq(a: F80, b: F80) {
    if Uncomparable(a, b) then false
    else
      var a' := if IsZero(a) then a.(sign := false) else a;
      var b' := if IsZero(a) then b.(sign := false) else b;
      a' == b'
  }
}
