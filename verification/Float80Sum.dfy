/** The main theorem about f80_add: exactly which sums are correctly rounded. */
module Float80Sum {
  import opened Powers
  import opened Rounding
  import opened Float80
  import opened Float80Rounding
  import opened Float80Normalize
  import opened Float80Add
  import opened Float80FarAdd

  /** A supported encoding that is neither zero nor denormal. */
  predicate NormalOrInf(f: F80) { IsSupported(f) && f.exp != EXP_DENORMAL }

  /** Like signs, more than 64 apart: aligning b first is harmless unless it makes a tie. */
  lemma LikeAgree(a: F80, b: F80, mode: Mode)
    requires Normal(a) && Normal(b) && a.exp > b.exp + W && a.sign == b.sign
    ensures var d := a.exp - b.exp;
      UpResult(mode, a.sign, a.signif, W, Aligned(b, d, mode)) == UpResult(mode, a.sign, a.signif, d, b.signif)
      <==> !RoundedTwice(a, b, mode)
  {
    hide Aligned, Shl, Pow2;
    var d := a.exp - b.exp;
    AlignedFar(b, d, mode);
    WordPowers();
    QuarterWord();
    FarUnit(d);
    if d == W + 1 && mode == Nearest { AlignedBy65(b); }
  }

  /** One unit of a is more than two units of b's whole significand. */
  lemma FarUnit(d: nat)
    requires d > W
    ensures Pow2(d) >= 2 * TWO64
    ensures d >= W + 2 ==> Pow2(d - 1) >= 2 * TWO64
    ensures d == W + 1 ==> Pow2(d - 1) == TWO64
  {
    Pow2Mono(W + 1, d);
    if d >= W + 2 { Pow2Mono(W + 1, d - 1); }
  }

  /** What the code computes for like signs: the larger significand, or the next one. */
  lemma FarLikeRounded(a: F80, b: F80, mode: Mode) returns (q: nat, r: F80)
    requires Normal(a) && Finite(b) && b.signif != 0 && a.exp > b.exp + W && a.sign == b.sign
    ensures r == AddOrdered(a, b, mode) && r.sign == a.sign
    ensures Encodes(r, a.exp, q)
    ensures q == UpResult(mode, a.sign, a.signif, W, Aligned(b, a.exp - b.exp, mode))
  {
    hide AddMagnitudes, Aligned, Shl, Pow2, Shr, Low, Rounds, UpResult;
    var exp, small := UnbiasDenormal(a.exp), Aligned(b, a.exp - b.exp, mode);
    var s := Shl(a.signif, W) + small;
    FarLikeCode(a, b, mode);
    q, r := TopRounds(s, exp, a.sign, mode);
    UpRounds(mode, a.sign, a.signif, W, small);
    RoundsUnique(mode, a.sign, s, W, q, UpResult(mode, a.sign, a.signif, W, small));
  }

  lemma FarLike(a: F80, b: F80, mode: Mode)
    requires Normal(a) && Normal(b) && a.exp > b.exp + W && a.sign == b.sign
    ensures AddOrdered(a, b, mode).sign == a.sign && NormalOrInf(AddOrdered(a, b, mode))
    ensures Mag(a) + Mag(b) <= MaxMag() ==>
      (CorrectlyRounded(mode, Value(a) + Value(b), 0, AddOrdered(a, b, mode)) <==> !RoundedTwice(a, b, mode))
  {
    hide AddOrdered, Aligned, Shl, Pow2, Rounds, CorrectlyRounded, MaxMag;
    var d := a.exp - b.exp;
    var q, r := FarLikeRounded(a, b, mode);
    LikeAgree(a, b, mode);
    FarUnit(d);
    if RoundedTwice(a, b, mode) {
      LikeWrong(a, b, r);
    } else if Mag(a) + Mag(b) <= MaxMag() {
      FarScale(a, b);
      ShlAdd(Shl(a.signif, d), b.signif, b.exp + W - 1);
      UpRounds(mode, a.sign, a.signif, d, b.signif);
      LikeRange(a.signif, b.signif, d);
      FarCorrect(mode, Shl(a.signif, d) + b.signif, d, b.exp, a.exp, q, r);
    }
  }

  /** Stepping to the next significand is further from the sum than a itself. */
  lemma LikeWrong(a: F80, b: F80, r: F80)
    requires Normal(a) && Normal(b) && a.exp > b.exp + W && a.sign == b.sign == r.sign
    requires Mag(r) == Shl(a.signif + 1, a.exp + W - 1)
    ensures !CorrectlyRounded(Nearest, Value(a) + Value(b), 0, r)
  {
    hide CorrectlyRounded, Shl, Pow2;
    StepSize(a, b);
    ShlAdd(a.signif, 1, a.exp + W - 1);
    ShlOne(a.exp + W - 1);
    NotNearest(Value(a) + Value(b), r, a);
  }

  /** The unit of a is more than twice the magnitude of b. */
  lemma StepSize(a: F80, b: F80)
    requires Normal(a) && Normal(b) && a.exp > b.exp + W
    ensures Pow2(a.exp + W - 1) > 2 * Mag(b)
  {
    hide Shl, Pow2;
    var m := b.exp + W - 1;
    FarUnit(a.exp - b.exp);
    ShlAdd(b.signif, b.signif, m);
    ShlLt(b.signif + b.signif, Pow2(a.exp - b.exp), m);
    ShlPow2(a.exp - b.exp, m);
  }

  lemma LikeRange(a: nat, b: nat, d: nat)
    requires TWO63 <= a < TWO64 && b < Pow2(d)
    ensures Shl(TWO63, d) <= Shl(a, d) + b < Shl(TWO64, d)
  {
    ShlLe(TWO63, a, d);
    ShlLt(a, TWO64, d);
  }

  lemma FarLikeCode(a: F80, b: F80, mode: Mode)
    requires Normal(a) && Finite(b) && b.signif != 0 && a.exp > b.exp + W && a.sign == b.sign
    ensures var small := Aligned(b, a.exp - b.exp, mode);
      && small < TWO64
      && TWO127 <= Shl(a.signif, W) + small < TWO128
      && AddOrdered(a, b, mode) == NormalizeRound(Shl(a.signif, W) + small, UnbiasDenormal(a.exp), a.sign, mode)
  {
    hide Aligned, Shl, Pow2, Shr, Low, NormalizeRound;
    WordPowers();
    AlignedFar(b, a.exp - b.exp, mode);
    Widen(a.signif);
    ShlLe(TWO63, a.signif, W);
  }

  // Unlike signs

  /** The operand that is subtracted: in chop mode a vanished b still counts as one. */
  function Nudge(b: F80, d: nat, mode: Mode): nat {
    var small := Aligned(b, d, mode);
    if mode == Chop && small == 0 && b.signif != 0 then 1 else small
  }

  lemma NudgeFar(b: F80, d: nat, mode: Mode)
    requires Finite(b) && b.signif != 0 && d > W
    ensures Nudge(b, d, mode) <= TWO63
    ensures Normal(b) && Nudge(b, d, mode) == 0 ==> mode == Nearest || Away(mode, !b.sign)
    ensures mode != Nearest && Away(mode, !b.sign) ==> Nudge(b, d, mode) < TWO63
    ensures d >= W + 2 ==> Nudge(b, d, mode) <= Pow2(W - 2)
    ensures mode == Nearest && d == W + 1 ==>
      Nudge(b, d, mode) == b.signif / 2 + (if b.signif % 4 == 3 then 1 else 0)
  {
    hide Aligned, Pow2;
    AlignedFar(b, d, mode);
    WordPowers();
    QuarterWord();
    if mode == Nearest && d == W + 1 { AlignedBy65(b); }
  }

  lemma FarUnlikeCode(a: F80, b: F80, mode: Mode)
    requires Normal(a) && Finite(b) && b.signif != 0 && a.exp > b.exp + W && a.sign != b.sign
    ensures var small := Nudge(b, a.exp - b.exp, mode);
      && small < Shl(a.signif, W) < TWO128
      && AddOrdered(a, b, mode) == NormalizeRound(Shl(a.signif, W) - small, UnbiasDenormal(a.exp), a.sign, mode)
  {
    hide Aligned, Shl, Pow2, Shr, Low, NormalizeRound;
    WordPowers();
    NudgeFar(b, a.exp - b.exp, mode);
    Widen(a.signif);
    ShlLe(TWO63, a.signif, W);
    ShlLt(1, TWO63, W);
  }

  /** Without cancellation, aligning b first is harmless unless it makes a tie. */
  lemma UnlikeAgree(a: F80, b: F80, mode: Mode)
    requires Normal(a) && Normal(b) && a.exp > b.exp + W && a.sign != b.sign && a.signif > TWO63
    ensures var d := a.exp - b.exp;
      DownResult(mode, a.sign, a.signif, W, Nudge(b, d, mode)) == DownResult(mode, a.sign, a.signif, d, b.signif)
      <==> !RoundedTwice(a, b, mode)
  {
    hide Nudge, Pow2;
    var d := a.exp - b.exp;
    NudgeFar(b, d, mode);
    WordPowers();
    QuarterWord();
    FarUnit(d);
  }

  lemma FarUnlikeRounded(a: F80, b: F80, mode: Mode) returns (q: nat, r: F80)
    requires Normal(a) && Finite(b) && b.signif != 0 && a.exp > b.exp + W && a.sign != b.sign && a.signif > TWO63
    ensures r == AddOrdered(a, b, mode) && r.sign == a.sign
    ensures Encodes(r, a.exp, q)
    ensures q == DownResult(mode, a.sign, a.signif, W, Nudge(b, a.exp - b.exp, mode))
  {
    hide AddOrdered, Nudge, Shl, Pow2, Rounds, DownResult, Encodes;
    var exp, small := UnbiasDenormal(a.exp), Nudge(b, a.exp - b.exp, mode);
    var s := Shl(a.signif, W) - small;
    FarUnlikeCode(a, b, mode);
    WordPowers();
    NudgeFar(b, a.exp - b.exp, mode);
    ShlLt(TWO63, a.signif, W);
    q, r := TopRounds(s, exp, a.sign, mode);
    DownRounds(mode, a.sign, a.signif, W, small);
    RoundsUnique(mode, a.sign, s, W, q, DownResult(mode, a.sign, a.signif, W, small));
  }

  lemma FarUnlike(a: F80, b: F80, mode: Mode)
    requires Normal(a) && Normal(b) && a.exp > b.exp + W && a.sign != b.sign && a.signif > TWO63
    ensures AddOrdered(a, b, mode).sign == a.sign && NormalOrInf(AddOrdered(a, b, mode))
    ensures CorrectlyRounded(mode, Value(a) + Value(b), 0, AddOrdered(a, b, mode)) <==> !RoundedTwice(a, b, mode)
  {
    hide AddOrdered, Nudge, Shl, Pow2, Rounds, CorrectlyRounded, MaxMag;
    var d := a.exp - b.exp;
    var q, r := FarUnlikeRounded(a, b, mode);
    UnlikeAgree(a, b, mode);
    FarUnit(d);
    if RoundedTwice(a, b, mode) {
      UnlikeWrong(a, b, r);
    } else {
      SmallerSum(a, b);
      DownRounds(mode, a.sign, a.signif, d, b.signif);
      DownRange(a.signif, b.signif, d);
      FarCorrect(mode, Shl(a.signif, d) - b.signif, d, b.exp, a.exp, q, r);
    }
  }

  lemma DownRange(a: nat, b: nat, d: nat)
    requires TWO63 < a <= TWO64 && 0 < b <= Pow2(d)
    ensures Shl(TWO63, d) <= Shl(a, d) - b < Shl(TWO64, d)
  {
    ShlLe(a, TWO64, d);
    ShlLt(TWO63, a, d);
  }

  /** The magnitude of a difference, in units of b's last place; it is below a's. */
  lemma SmallerSum(a: F80, b: F80)
    requires Normal(a) && Normal(b) && a.exp > b.exp + W && a.sign != b.sign
    ensures var d := a.exp - b.exp;
      && b.signif < Shl(a.signif, d)
      && Value(a) + Value(b) == WithSign(a.sign, Shl(Shl(a.signif, d) - b.signif, b.exp + W - 1))
      && Shl(Shl(a.signif, d) - b.signif, b.exp + W - 1) <= MaxMag()
  {
    hide Shl, Pow2;
    var d, m := a.exp - b.exp, b.exp + W - 1;
    FarScale(a, b);
    FarUnit(d);
    ShlLt(0, a.signif, d);
    ShlAdd(Shl(a.signif, d) - b.signif, b.signif, m);
    FiniteBelowMax(a);
  }

  lemma FiniteBelowMax(a: F80)
    requires Finite(a)
    ensures Mag(a) <= MaxMag()
  {
    hide Shl;
    var s := Scale(a.exp);
    ShlLe(a.signif, TWO64 - 1, s + W - 1);
    ShlShl(TWO64 - 1, EXP_MAX - s, s + W - 1);
    ShlLe(TWO64 - 1, Shl(TWO64 - 1, EXP_MAX - s), s + W - 1);
  }

  lemma UnlikeWrong(a: F80, b: F80, r: F80)
    requires Normal(a) && Normal(b) && a.exp > b.exp + W && a.sign != b.sign && r.sign == a.sign
    requires Mag(r) == Shl(a.signif - 1, a.exp + W - 1)
    ensures !CorrectlyRounded(Nearest, Value(a) + Value(b), 0, r)
  {
    hide CorrectlyRounded, Shl, Pow2;
    StepSize(a, b);
    ShlAdd(a.signif - 1, 1, a.exp + W - 1);
    ShlOne(a.exp + W - 1);
    NotNearest(Value(a) + Value(b), r, a);
  }

  // Unlike signs, where a is a power of two and the difference falls into the binade below

  lemma CancelAgree(a: F80, b: F80, mode: Mode)
    requires Normal(a) && Normal(b) && a.exp > b.exp + W && a.sign != b.sign && a.signif == TWO63
    ensures var d := a.exp - b.exp;
      DownResult(mode, a.sign, TWO64, W, 2 * Nudge(b, d, mode)) == DownResult(mode, a.sign, TWO64, d - 1, b.signif)
      <==> !RoundedTwice(a, b, mode)
  {
    hide Nudge, Pow2;
    var d := a.exp - b.exp;
    NudgeFar(b, d, mode);
    WordPowers();
    QuarterWord();
    FarUnit(d);
  }

  /** The first number of a binade, seen from the binade below. */
  lemma SeenFromBelow(r: F80, e: nat)
    requires Encodes(r, e, TWO63) && e >= 2
    ensures Encodes(r, e - 1, TWO64)
  {
    hide Shl, Pow2;
    WordPowers();
    ShlDouble(TWO63, e + W - 2);
  }

  lemma CancelRounded(a: F80, b: F80, mode: Mode) returns (q: nat, r: F80)
    requires Normal(a) && Finite(b) && b.signif != 0 && a.exp > b.exp + W && a.sign != b.sign && a.signif == TWO63
    ensures r == AddOrdered(a, b, mode) && r.sign == a.sign
    ensures Encodes(r, a.exp - 1, q)
    ensures q == DownResult(mode, a.sign, TWO64, W, 2 * Nudge(b, a.exp - b.exp, mode))
  {
    hide AddOrdered, Nudge, Shl, Pow2, Rounds, Encodes, NormalizeRound;
    var exp, small := UnbiasDenormal(a.exp), Nudge(b, a.exp - b.exp, mode);
    var s := Shl(a.signif, W) - small;
    FarUnlikeCode(a, b, mode);
    WordPowers();
    NudgeFar(b, a.exp - b.exp, mode);
    if small == 0 {
      q, r := TopRounds(s, exp, a.sign, mode);
      UpRounds(mode, a.sign, TWO63, W, 0);
      RoundsUnique(mode, a.sign, s, W, q, TWO63);
      SeenFromBelow(r, a.exp);
      q := TWO64;
    } else {
      ShlLt(1, TWO63, W);
      q, r := HalfRounds(s, exp, a.sign, mode);
      DownRounds(mode, a.sign, TWO64, W, 2 * small);
      RoundsUnique(mode, a.sign, 2 * s, W, q, DownResult(mode, a.sign, TWO64, W, 2 * small));
    }
  }

  lemma FarCancel(a: F80, b: F80, mode: Mode)
    requires Normal(a) && Normal(b) && a.exp > b.exp + W && a.sign != b.sign && a.signif == TWO63
    ensures AddOrdered(a, b, mode).sign == a.sign && NormalOrInf(AddOrdered(a, b, mode))
    ensures CorrectlyRounded(mode, Value(a) + Value(b), 0, AddOrdered(a, b, mode)) <==> !RoundedTwice(a, b, mode)
  {
    hide AddOrdered, Nudge, Shl, Pow2, Rounds, CorrectlyRounded, MaxMag;
    var d := a.exp - b.exp;
    var q, r := CancelRounded(a, b, mode);
    CancelAgree(a, b, mode);
    FarUnit(d);
    WordPowers();
    if RoundedTwice(a, b, mode) {
      CancelWrong(a, b, r);
    } else {
      SmallerSum(a, b);
      ShlDouble(TWO63, d - 1);
      DownRounds(mode, a.sign, TWO64, d - 1, b.signif);
      DownRange(TWO64, b.signif, d - 1);
      FarCorrect(mode, Shl(a.signif, d) - b.signif, d - 1, b.exp, a.exp - 1, q, r);
    }
  }

  lemma CancelWrong(a: F80, b: F80, r: F80)
    requires Normal(a) && Normal(b) && a.exp == b.exp + W + 1 && a.sign != b.sign
    requires a.signif == TWO63 && b.signif == TWO63 + 1
    requires r.sign == a.sign && Mag(r) == Shl(TWO64, a.exp + W - 2)
    ensures !CorrectlyRounded(Nearest, Value(a) + Value(b), 0, r)
  {
    hide CorrectlyRounded, Shl, Pow2;
    WordPowers();
    var m := b.exp + W - 1;
    var g := F80(TWO64 - 1, a.exp - 1, a.sign);
    ShlDouble(TWO63, a.exp + W - 2);
    ShlAdd(TWO64 - 1, 1, a.exp + W - 2);
    ShlOne(a.exp + W - 2);
    ShlPow2(W, m);
    ShlAdd(TWO63 - 1, TWO63 + 1, m);
    ShlLt(TWO63 - 1, TWO63 + 1, m);
    NotNearest(Value(a) + Value(b), r, g);
  }

  // The theorem

  /** RoundedTwice for operands in either order. */
  predicate Misrounds(a: F80, b: F80, mode: Mode) {
    if a.exp < b.exp then RoundedTwice(b, a, mode) else RoundedTwice(a, b, mode)
  }

  /** A non-zero exact sum gives a non-zero result of its sign, whatever the rounding, and
      even when it overflows; a zero sum gives a zero. */
  ghost predicate HasSignOf(r: F80, x: int) {
    if x == 0 then IsZero(r) else !IsZero(r) && r.sign == (x < 0)
  }

  lemma OrderedSum(a: F80, b: F80, mode: Mode)
    requires Finite(a) && Finite(b) && SameScale(a, b) && a.exp >= b.exp
    ensures Abs(Value(a) + Value(b)) <= MaxMag() ==>
      && (CorrectlyRounded(mode, Value(a) + Value(b), 0, AddOrdered(a, b, mode)) <==> !RoundedTwice(a, b, mode))
      && IsSupported(AddOrdered(a, b, mode))
    ensures HasSignOf(AddOrdered(a, b, mode), Value(a) + Value(b))
    ensures Value(a) + Value(b) == 0 ==> AddOrdered(a, b, mode).sign == if a.signif != 0 then mode == Down else a.sign && b.sign
  {
    hide AddOrdered, Aligned, Shl, Pow2, MaxMag, Unbeaten;
    if b.signif == 0 || a.exp - b.exp <= W {
      var small := Aligns(a, b, mode);
      NearSum(a, b, mode, small);
    } else {
      FarSum(a, b, mode);
    }
  }

  lemma NearSum(a: F80, b: F80, mode: Mode, small: nat)
    requires LosslesslyAligned(a, b, mode, small)
    ensures Abs(Value(a) + Value(b)) <= MaxMag() ==>
      CorrectlyRounded(mode, Value(a) + Value(b), 0, AddOrdered(a, b, mode))
    ensures HasSignOf(AddOrdered(a, b, mode), Value(a) + Value(b))
    ensures Value(a) + Value(b) == 0 ==> AddOrdered(a, b, mode).sign == if a.signif != 0 then mode == Down else a.sign && b.sign
  {
    hide AddOrdered, Aligned, Shl, Pow2, CorrectlyRounded, MaxMag;
    MagZero(a);
    MagZero(b);
    if Value(a) + Value(b) == 0 {
      ZeroSum(a, b, mode, small);
      ZeroRounds(mode, 0, AddOrdered(a, b, mode));
    } else if a.sign == b.sign {
      LikeSum(a, b, mode, small);
    } else {
      FiniteBelowMax(a);
      FiniteBelowMax(b);
      UnlikeSum(a, b, mode, small);
    }
  }

  lemma MagZero(a: F80)
    ensures Mag(a) == 0 <==> a.signif == 0
  {
    ShlOne(Scale(a.exp) + W - 1);
    if a.signif != 0 { ShlLt(0, a.signif, Scale(a.exp) + W - 1); }
  }

  lemma FarSum(a: F80, b: F80, mode: Mode)
    requires Normal(a) && Normal(b) && a.exp > b.exp + W
    ensures Abs(Value(a) + Value(b)) <= MaxMag() ==>
      (CorrectlyRounded(mode, Value(a) + Value(b), 0, AddOrdered(a, b, mode)) <==> !RoundedTwice(a, b, mode))
    ensures NormalOrInf(AddOrdered(a, b, mode))
    ensures AddOrdered(a, b, mode).sign == (Value(a) + Value(b) < 0) && Value(a) + Value(b) != 0
  {
    hide AddOrdered, Shl, Pow2, CorrectlyRounded, MaxMag, RoundedTwice;
    FarLarger(a, b);
    if a.sign == b.sign { FarLike(a, b, mode); }
    else if a.signif > TWO63 { FarUnlike(a, b, mode); }
    else { FarCancel(a, b, mode); }
  }

  lemma FarLarger(a: F80, b: F80)
    requires Normal(a) && Normal(b) && a.exp > b.exp + W
    ensures Mag(a) > Mag(b)
  {
    hide Shl, Pow2;
    StepSize(a, b);
    ShlOne(a.exp + W - 1);
    ShlLe(1, a.signif, a.exp + W - 1);
  }

  /** The sign of an exact zero sum: that of both operands, or else negative only in round-down. */
  function ZeroSign(a: F80, b: F80, mode: Mode): bool { if a.sign == b.sign then a.sign else mode == Down }

  /** For all finite operands on the same scale whose exact sum does not exceed the largest
      finite number, in every mode and for every exponent difference, f80_add returns the
      correctly rounded sum if and only if the operands are not in the Misrounds family, and
      its result is a supported encoding. The sign of the result, and whether it is zero, are
      those of the exact sum, also when the sum overflows. A zero sum has the sign that section
      6.3 of IEEE 754-2008 asks for, if and only if it is not one of two zeros of opposite signs
      in round-down. */
  lemma AddCorrect(a: F80, b: F80, mode: Mode)
    requires Finite(a) && Finite(b) && SameScale(a, b)
    ensures Abs(Value(a) + Value(b)) <= MaxMag() ==>
      && (CorrectlyRounded(mode, Value(a) + Value(b), 0, Add(a, b, mode)) <==> !Misrounds(a, b, mode))
      && IsSupported(Add(a, b, mode))
    ensures HasSignOf(Add(a, b, mode), Value(a) + Value(b))
    ensures Value(a) + Value(b) == 0 ==>
      (Add(a, b, mode).sign == ZeroSign(a, b, mode) <==> !(IsZero(a) && IsZero(b) && a.sign != b.sign && mode == Down))
  {
    hide AddOrdered, RoundedTwice, CorrectlyRounded, MaxMag, Shl, Pow2, Low;
    MagZero(a);
    MagZero(b);
    if a.exp < b.exp { OrderedSum(b, a, mode); } else { OrderedSum(a, b, mode); }
  }

  // A non-zero denormal with a normal number

  /** A 128-bit significand of at least 2^126 keeps its sign and does not vanish. */
  lemma HighSign(s: U128, exp: int, sign: bool, mode: Mode)
    requires 2 * s >= TWO127 && exp + BIAS >= 1
    ensures var r := NormalizeRound(s, exp, sign, mode); r.sign == sign && !IsZero(r)
    ensures IsSupported(NormalizeRound(s, exp, sign, mode)) <==>
      !(exp + BIAS == 1 && s < TWO127 && ShiftRightRound(s, W, sign, mode) == TWO63)
  {
    hide NormalizeRound, Shl, U128Clz, ShiftRightRound, RoundTo64;
    var e := exp + BIAS - U128Clz(s);
    HighClz(s);
    if e < 1 {
      BelowNormal(s, exp, sign, mode);
    } else if e <= EXP_MAX {
      var e', q', r := NormalizeRounds(s, exp, sign, mode);
    } else {
      NormalizeOverflow(s, exp, sign, mode);
    }
  }

  lemma HighClz(s: U128)
    requires 2 * s >= TWO127
    ensures U128Clz(s) <= 1 && (s < TWO127 <==> U128Clz(s) == 1)
  {
    hide U128Clz;
    WordPowers();
    var z := U128Clz(s);
    assert Pow2(W2 - 1) == 2 * Pow2(W2 - 2);
    if z > 1 { Pow2Mono(W2 - z, W2 - 2); }
    if z == 0 { assert s >= TWO127; }
  }

  lemma BelowNormal(s: U128, exp: int, sign: bool, mode: Mode)
    requires 2 * s >= TWO127 && s < TWO127 && exp + BIAS == 1 && U128Clz(s) == 1
    ensures var r := NormalizeRound(s, exp, sign, mode); r.sign == sign && !IsZero(r)
    ensures IsSupported(NormalizeRound(s, exp, sign, mode)) <==> ShiftRightRound(s, W, sign, mode) != TWO63
  {
    hide U128Clz, Shl, Shr, Low;
    LowSmall(s, W2);
    HighWord(s);
    WordPowers();
    assert NormalizeRound(s, exp, sign, mode) == RoundTo64(s, EXP_DENORMAL, sign, mode) by {
      assert ShiftRightRound(s, 0, sign, mode) == s;
    }
    ShlOne(W);
    ShlAdd(1, 1, W);
    ShlLe(2, TWO63, W);
    ShrBounds(s, W, 1, TWO64);
    assert ShiftRightRound(s, W, sign, mode) >= 1;
  }

  /** The smaller operand of a mixed sum stays below half of the larger one. */
  lemma MixedAligned(b: F80, d: nat, mode: Mode)
    requires b.signif < TWO63 && d >= 1
    ensures 2 * Aligned(b, d, mode) <= TWO127
  {
    hide Shl, Low, ShiftRightRound;
    Widen(b.signif);
    WordPowers();
    var s := Shl(b.signif, W);
    ShlLt(b.signif, TWO63, W);
    ShlOne(W);
    if d < W2 { ShrHalf(s, d); }
    assert Pow2(W) >= 4 by { assert Pow2(W) == 4 * Pow2(W - 2); }
  }

  lemma MixedSign(a: F80, b: F80, mode: Mode)
    requires Normal(a) && Finite(b) && b.exp == EXP_DENORMAL
    ensures AddOrdered(a, b, mode).sign == a.sign && !IsZero(AddOrdered(a, b, mode)) && Mag(a) > Mag(b)
  {
    hide NormalizeRound, Shl, Aligned, Pow2;
    WordPowers();
    Widen(a.signif);
    MixedAligned(b, a.exp, mode);
    ShlLe(TWO63, a.signif, W);
    var big, small, exp := Shl(a.signif, W), Aligned(b, a.exp, mode), UnbiasDenormal(a.exp);
    if a.sign == b.sign {
      MixedLike(big, small, exp, a.sign, mode);
    } else {
      var small' := if mode == Chop && small == 0 && b.signif != 0 then 1 else small;
      LargePower();
      HighSign(big - small', exp, a.sign, mode);
    }
    MixedLarger(a, b);
  }

  lemma LargePower()
    ensures TWO127 >= 4
  {
    assert Pow2(W2 - 1) == 2 * Pow2(W2 - 2);
    assert Pow2(W2 - 2) == 2 * Pow2(W2 - 3);
  }

  lemma MixedLike(big: U128, small: U128, exp: int, sign: bool, mode: Mode)
    requires big >= TWO127 && exp + BIAS >= 1
    ensures var r := AddMagnitudes(big, small, exp, sign, mode); r.sign == sign && !IsZero(r) && IsSupported(r)
  {
    hide NormalizeRound;
    if big + small < TWO128 {
      HighSign(big + small, exp, sign, mode);
    } else {
      CarryTop(big + small - TWO128, mode);
      HighSign(CarryIn(big + small - TWO128, mode), exp + 1, sign, mode);
    }
  }

  lemma CarryTop(sum: U128, mode: Mode)
    ensures CarryIn(sum, mode) >= TWO127
  {
  }

  lemma MixedLarger(a: F80, b: F80)
    requires Normal(a) && Finite(b) && b.exp == EXP_DENORMAL
    ensures Mag(a) > Mag(b)
  {
    hide Shl, Pow2;
    ShlLt(b.signif, TWO63, W);
    ShlLe(TWO63, a.signif, a.exp + W - 1);
    ShlShl(TWO63, W, a.exp - 1);
    assert Shl(Shl(TWO63, W), a.exp - 1) >= Shl(TWO63, W);
  }

  /** Half of an odd number of units, rounded. */
  lemma HalfUnits(t: nat, sign: bool, mode: Mode)
    requires t < TWO64
    ensures Shl(t, W - 1) < TWO128
    ensures ShiftRightRound(Shl(t, W - 1), W, sign, mode) == TWO63 <==> t == TWO64 - 1 && (mode == Nearest || Away(mode, sign))
  {
    hide Shl, Shr, Low, Pow2;
    WordPowers();
    var s := Shl(t, W - 1);
    ShlLt(t, TWO64, W - 1);
    ShlDouble(t, W - 1);
    ShlAdd(t, t, W - 1);
    Widen(t);
    WidthFacts();
    ShrUnique(s, W - 1, t, 0);
    ShrStep(s, W - 1);
    LowSmall(0, W);
  }

  lemma WidthFacts()
    ensures Pow2(W - 1) > 0
  {
  }

  /** A denormal in units of half the last place of the smallest normal numbers. */
  lemma MixedDifference(a: F80, b: F80, mode: Mode)
    requires Normal(a) && a.exp == EXP_MIN && Finite(b) && b.exp == EXP_DENORMAL
    ensures 2 * a.signif >= b.signif && Aligned(b, 1, mode) <= Shl(a.signif, W)
    ensures Shl(a.signif, W) - Aligned(b, 1, mode) == Shl(2 * a.signif - b.signif, W - 1)
  {
    hide Shl, Aligned, Pow2;
    var t := 2 * a.signif - b.signif;
    AlignedExact(b, 1, mode);
    ShlAdd(t, b.signif, W - 1);
    ShlDouble(a.signif, W - 1);
    ShlAdd(a.signif, a.signif, W - 1);
  }

  /** A sum outside the supported encodings. */
  predicate Unsupportable(a: F80, b: F80, mode: Mode) {
    && a.exp == EXP_MIN && b.exp == EXP_DENORMAL && a.sign != b.sign
    && 2 * a.signif == TWO64 - 1 + b.signif && (mode == Nearest || Away(mode, a.sign))
  }

  /** Exactly when the final assertion of f80_add fails on a normal number and a denormal: when the
      difference is half a unit below the smallest normal number and rounds up to it. */
  lemma MixedUnsupported(a: F80, b: F80, mode: Mode)
    requires Normal(a) && Finite(b) && b.exp == EXP_DENORMAL && b.signif != 0
    ensures IsSupported(Add(a, b, mode)) <==> !Unsupportable(a, b, mode)
    ensures Add(a, b, mode) == Add(b, a, mode)
  {
    hide NormalizeRound, Shl, Aligned, Pow2, Low, ShiftRightRound, Away;
    WordPowers();
    Widen(a.signif);
    MixedAligned(b, a.exp, mode);
    ShlLe(TWO63, a.signif, W);
    var big, small, exp := Shl(a.signif, W), Aligned(b, a.exp, mode), UnbiasDenormal(a.exp);
    assert Add(a, b, mode) == AddOrdered(a, b, mode) == Add(b, a, mode);
    if a.sign == b.sign {
      MixedLike(big, small, exp, a.sign, mode);
    } else {
      var small' := if mode == Chop && small == 0 && b.signif != 0 then 1 else small;
      LargePower();
      HighSign(big - small', exp, a.sign, mode);
      if a.exp == EXP_MIN { MixedFirst(a, b, mode); }
    }
  }

  lemma MixedFirst(a: F80, b: F80, mode: Mode)
    requires Normal(a) && a.exp == EXP_MIN && Finite(b) && b.exp == EXP_DENORMAL && b.signif != 0
    ensures Aligned(b, 1, mode) != 0
    ensures var s := Shl(a.signif, W) - Aligned(b, 1, mode);
      && 0 <= s < TWO128
      && (s < TWO127 && ShiftRightRound(s, W, a.sign, mode) == TWO63 <==>
            2 * a.signif == TWO64 - 1 + b.signif && (mode == Nearest || Away(mode, a.sign)))
  {
    hide Shl, Aligned, Pow2, Low, ShiftRightRound, Away;
    WordPowers();
    Widen(a.signif);
    MixedDifference(a, b, mode);
    AlignedExact(b, 1, mode);
    var t := 2 * a.signif - b.signif;
    ShlDouble(TWO63, W - 1);
    ShlAdd(TWO63, TWO63, W - 1);
    if t < TWO64 { HalfUnits(t, a.sign, mode); ShlLt(t, TWO64, W - 1); } else { ShlLe(TWO64, t, W - 1); }
  }

  /** The sign of the sum, and whether it is zero, are right for all finite operands, also where the
      sum itself is not. */
  lemma AddSign(a: F80, b: F80, mode: Mode)
    requires Finite(a) && Finite(b)
    ensures HasSignOf(Add(a, b, mode), Value(a) + Value(b))
  {
    hide AddOrdered, MaxMag, Shl, Pow2, Low, CorrectlyRounded;
    MagZero(a);
    MagZero(b);
    if SameScale(a, b) {
      AddCorrect(a, b, mode);
    } else if a.exp < b.exp {
      MixedSign(b, a, mode);
    } else {
      MixedSign(a, b, mode);
    }
  }

  /** A sum that round-to-nearest gets wrong: 2^63 + 1 and (2^64 - 1) / 2^65. */
  lemma MisroundingExample()
    ensures exists a: F80, b: F80 ::
      Normal(a) && Normal(b) && !CorrectlyRounded(Nearest, Value(a) + Value(b), 0, Add(a, b, Nearest))
  {
    hide CorrectlyRounded, Add, Shl, Pow2, MaxMag;
    WordPowers();
    var a, b := F80(TWO63 + 1, BIAS + W + 1, false), F80(TWO64 - 1, BIAS, false);
    FarLarger(a, b);
    BelowMax(a, b);
    AddCorrect(a, b, Nearest);
  }

  lemma BelowMax(a: F80, b: F80)
    requires Finite(a) && Finite(b) && a.exp < EXP_MAX && Mag(b) <= Mag(a)
    ensures Mag(a) + Mag(b) <= MaxMag()
  {
    hide Shl;
    var s := Scale(a.exp);
    ShlLe(a.signif, TWO64 - 1, s + W - 1);
    ShlDoubles(TWO64 - 1, s + W - 1);
    ShlShl(TWO64 - 1, EXP_MAX - s - 1, s + W);
    ShlLe(TWO64 - 1, Shl(TWO64 - 1, EXP_MAX - s - 1), s + W);
  }

  /** Why SameScale is asked for: the smallest normal number minus the smallest denormal gives
      an encoding that is not supported, so the final assertion of f80_add fails. */
  lemma MixedScaleExample()
    ensures 1 < TWO64 && TWO63 < TWO64
    ensures var a, b := F80(TWO63, 1, false), F80(1, 0, true);
      Finite(a) && Finite(b) && !SameScale(a, b) && !IsSupported(Add(a, b, Nearest))
  {
    hide Add, Pow2;
    WordPowers();
    MixedUnsupported(F80(TWO63, 1, false), F80(1, 0, true), Nearest);
  }
}
