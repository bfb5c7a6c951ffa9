/** Rounding a natural number to a multiple of a power of two, in the four
    rounding-direction attributes of section 4.3 of IEEE 754-2008. */
module Rounding {
  import opened Powers

  datatype Mode = Nearest | Down | Up | Chop

  /** Whether an inexact magnitude grows when rounded. */
  predicate Away(mode: Mode, sign: bool) {
    (mode == Up && !sign) || (mode == Down && sign)
  }

  /** q is the integer that rounding n / 2^k selects, where n / 2^k is the magnitude of a
      number with the given sign. */
  ghost predicate Rounds(mode: Mode, sign: bool, n: nat, k: nat, q: nat) {
    Selects(mode, sign, n, Pow2(k), Shl(q, k), q % 2 == 0)
  }

  /** The same, given the unit d, the selected multiple m of it and the parity of m/d. */
  ghost predicate Selects(mode: Mode, sign: bool, n: nat, d: nat, m: nat, even: bool) {
    if mode == Nearest then
      && 2 * n <= 2 * m + d
      && 2 * m <= 2 * n + d
      && ((2 * n == 2 * m + d || 2 * m == 2 * n + d) ==> even)
    else if Away(mode, sign) then
      n <= m < n + d
    else
      m <= n < m + d
  }

  /** An exact quotient rounds to itself in every mode. */
  lemma RoundsExact(mode: Mode, sign: bool, q: nat, k: nat)
    ensures Rounds(mode, sign, Shl(q, k), k, q)
  {
  }

  lemma RoundsUnique(mode: Mode, sign: bool, n: nat, k: nat, q: nat, p: nat)
    requires Rounds(mode, sign, n, k, q) && Rounds(mode, sign, n, k, p)
    ensures p == q
  {
    if p < q {
      ShlLt(p, q, k);
      if p + 1 < q { ShlLt(p, p + 1, k); ShlLt(p + 1, q, k); }
    }
    if q < p {
      ShlLt(q, p, k);
      if q + 1 < p { ShlLt(q, q + 1, k); ShlLt(q + 1, p, k); }
    }
  }

  /** The integer that rounding selects, from the quotient t and the rest that is left over; the rest
      may be a whole unit d. */
  function Pick(mode: Mode, sign: bool, t: nat, rest: nat, d: nat): nat {
    if mode == Nearest then
      if 2 * rest < d || (2 * rest == d && t % 2 == 0) then t else t + 1
    else if Away(mode, sign) then
      if rest == 0 then t else t + 1
    else
      if rest == d then t + 1 else t
  }

  lemma Picks(mode: Mode, sign: bool, n: nat, k: nat, t: nat, rest: nat, q: nat)
    requires n == Shl(t, k) + rest && rest <= Pow2(k)
    ensures Rounds(mode, sign, n, k, q) <==> q == Pick(mode, sign, t, rest, Pow2(k))
  {
    hide Shl, Pow2;
    ShlAdd(t, 1, k);
    ShlOne(k);
    var p := Pick(mode, sign, t, rest, Pow2(k));
    assert Rounds(mode, sign, n, k, p);
    if Rounds(mode, sign, n, k, q) { RoundsUnique(mode, sign, n, k, q, p); }
  }

  /** Rounding depends on the quotient only, not on the scale it is written in. */
  lemma {:induction false} RoundsScale(mode: Mode, sign: bool, n: nat, k: nat, q: nat, c: nat)
    requires Rounds(mode, sign, n, k, q)
    ensures Rounds(mode, sign, Shl(n, c), k + c, q)
    decreases c
  {
    if c != 0 {
      RoundsScale(mode, sign, n, k, q, c - 1);
      assert Shl(n, c) == 2 * Shl(n, c - 1) && Pow2(k + c) == 2 * Pow2(k + c - 1);
      assert Shl(q, k + c) == 2 * Shl(q, k + c - 1);
    }
  }

  /** A rounded quotient does not pass a whole number that the quotient does not pass. */
  lemma RoundsBelow(mode: Mode, sign: bool, n: nat, k: nat, q: nat, p: nat)
    requires Rounds(mode, sign, n, k, q) && n <= Shl(p, k)
    ensures q <= p
  {
    if p < q { ShlLt(p, q, k); }
  }

  function Abs(x: int): nat { if x < 0 then -x else x }

  /** The multiple of 2^k that rounding picks cannot be improved on by another one: it is as
      near to n as any (and even when a rival is as near), or the tightest on its side. */
  lemma RoundsBest(mode: Mode, sign: bool, n: nat, k: nat, q: nat, j: nat)
    requires Rounds(mode, sign, n, k, q)
    ensures BestMagnitude(mode, sign, n, Shl(q, k), Shl(j, k), q % 2 == 0)
  {
    if j < q { ShlLt(j, q, k); } else if q < j { ShlLt(q, j, k); }
  }

  ghost predicate BestMagnitude(mode: Mode, sign: bool, n: nat, m: nat, g: nat, even: bool) {
    if mode == Nearest then
      Abs(m - n) <= Abs(g - n) && (g != m && Abs(m - n) == Abs(g - n) ==> even)
    else if Away(mode, sign) then
      n <= m && (n <= g ==> m <= g)
    else
      m <= n && (g <= n ==> g <= m)
  }
}
