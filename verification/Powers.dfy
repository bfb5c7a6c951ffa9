/** Shifts of unsigned words, as the soft float uses them: x << n without overflow, x >> n,
    and the n low bits of x. Everything here is proved by recursion on the shift, so that no
    proof needs products of two unknowns. */
module Powers {

  function Pow2(n: nat): (r: nat)
    ensures r >= 1
  {
    if n == 0 then 1 else 2 * Pow2(n - 1)
  }

  /** x << n, without overflow */
  function Shl(x: nat, n: nat): (r: nat)
    ensures r >= x
    decreases n
  {
    if n == 0 then x else 2 * Shl(x, n - 1)
  }

  /** x >> n */
  function Shr(x: nat, n: nat): (q: nat)
    ensures q <= x
    decreases n
  {
    if n == 0 then x else Shr(x / 2, n - 1)
  }

  /** The n low bits of x. */
  function Low(x: nat, n: nat): (r: nat)
    ensures r < Pow2(n) && r <= x
    decreases n
  {
    if n == 0 then 0 else 2 * Low(x / 2, n - 1) + x % 2
  }

  lemma ShlNone(x: nat)
    ensures Shl(x, 0) == x
  {
  }

  lemma ShlDoubles(x: nat, n: nat)
    ensures Shl(x, n + 1) == 2 * Shl(x, n)
  {
  }

  lemma ShrHalf(x: nat, n: nat)
    requires n >= 1
    ensures 2 * Shr(x, n) <= x
  {
    assert Shr(x, n) == Shr(x / 2, n - 1) <= x / 2;
  }

  lemma {:induction false} ShlShl(x: nat, m: nat, n: nat)
    ensures Shl(Shl(x, m), n) == Shl(x, m + n)
    decreases n
  {
    if n != 0 { ShlShl(x, m, n - 1); }
  }

  lemma {:induction false} ShlLe(x: nat, y: nat, n: nat)
    requires x <= y
    ensures Shl(x, n) <= Shl(y, n)
    decreases n
  {
    if n != 0 { ShlLe(x, y, n - 1); }
  }

  /** Shifted words keep a distance of one unit. */
  lemma {:induction false} ShlLt(x: nat, y: nat, n: nat)
    requires x < y
    ensures Shl(x, n) + Pow2(n) <= Shl(y, n)
    decreases n
  {
    if n != 0 { ShlLt(x, y, n - 1); }
  }

  lemma {:induction false} ShlAdd(x: nat, y: nat, n: nat)
    ensures Shl(x + y, n) == Shl(x, n) + Shl(y, n)
    decreases n
  {
    if n != 0 { ShlAdd(x, y, n - 1); }
  }

  lemma {:induction false} ShlOne(n: nat)
    ensures Shl(1, n) == Pow2(n) && Shl(0, n) == 0
    decreases n
  {
    if n != 0 { ShlOne(n - 1); }
  }

  lemma ShlPow2(m: nat, n: nat)
    ensures Shl(Pow2(m), n) == Pow2(m + n)
  {
    ShlOne(m);
    ShlShl(1, m, n);
    ShlOne(m + n);
  }

  lemma MulLe(a: nat, b: nat, c: nat)
    requires a <= b
    ensures a * c <= b * c
  {
  }

  lemma DoubleProduct(a: nat, b: nat)
    ensures (2 * a) * b == 2 * (a * b)
  {
  }

  lemma {:induction false} ShlTimes(x: nat, n: nat, y: nat)
    ensures Shl(x, n) * y == Shl(x * y, n)
    decreases n
  {
    if n != 0 {
      ShlTimes(x, n - 1, y);
      DoubleProduct(Shl(x, n - 1), y);
    }
  }

  /** The product of shifted words is the shifted product. */
  lemma ShlMul(x: nat, m: nat, y: nat, n: nat)
    ensures Shl(x, m) * Shl(y, n) == Shl(x * y, m + n)
  {
    var b := Shl(y, n);
    ShlTimes(x, m, b);
    assert x * b == Shl(x * y, n) by {
      ShlTimes(y, n, x);
      assert x * b == b * x && x * y == y * x;
    }
    ShlShl(x * y, n, m);
  }

  lemma {:induction false} Pow2Mono(m: nat, n: nat)
    requires m <= n
    ensures Pow2(m) <= Pow2(n)
  {
    if m < n { Pow2Mono(m, n - 1); }
  }

  lemma {:induction false} ShrLow(x: nat, n: nat)
    ensures x == Shl(Shr(x, n), n) + Low(x, n)
    decreases n
  {
    if n != 0 { ShrLow(x / 2, n - 1); }
  }

  /** There is one way to write x as a shifted word plus n low bits. */
  lemma ShrUnique(x: nat, n: nat, q: nat, r: nat)
    requires x == Shl(q, n) + r && r < Pow2(n)
    ensures Shr(x, n) == q && Low(x, n) == r
  {
    ShrLow(x, n);
    if q < Shr(x, n) { ShlLt(q, Shr(x, n), n); }
    if Shr(x, n) < q { ShlLt(Shr(x, n), q, n); }
  }

  /** Bit n of x is the lowest of the bits a shift by n leaves and the highest that a
      shift by n+1 drops. */
  lemma {:induction false} ShrStep(x: nat, n: nat)
    ensures Shr(x, n) == 2 * Shr(x, n + 1) + Shr(x, n) % 2
    ensures Low(x, n + 1) == Low(x, n) + (if Shr(x, n) % 2 == 1 then Pow2(n) else 0)
    decreases n
  {
    if n == 0 {
      assert Shr(x, 1) == Shr(x / 2, 0) && Low(x, 1) == 2 * Low(x / 2, 0) + x % 2;
    } else {
      ShrStep(x / 2, n - 1);
    }
  }

  function Log2(x: nat): (r: nat)
    requires x > 0
    ensures Pow2(r) <= x < Pow2(r + 1)
  {
    if x == 1 then 0 else 1 + Log2(x / 2)
  }

  /** A word that fits in n bits is its own n low bits. */
  lemma LowSmall(x: nat, n: nat)
    requires x < Pow2(n)
    ensures Low(x, n) == x && Shr(x, n) == 0
  {
    ShlOne(n);
    ShrUnique(x, n, 0, x);
  }

  /** Quotients by a power of two are ordered as their numerators are. */
  lemma ShrBounds(x: nat, n: nat, a: nat, b: nat)
    requires Shl(a, n) <= x < Shl(b, n)
    ensures a <= Shr(x, n) < b
  {
    ShrLow(x, n);
    var q := Shr(x, n);
    if q < a { ShlLt(q, a, n); }
    if b <= q { ShlLe(b, q, n); }
  }

  // Word sizes. Proofs use only that W2 is twice W, never the numbers themselves.

  const HALF: nat := 32
  const W: nat := HALF + HALF
  const W2: nat := W + W
  const TWO63: nat := Pow2(W - 1)
  const TWO64: nat := Pow2(W)
  const TWO127: nat := Pow2(W2 - 1)
  const TWO128: nat := Pow2(W2)

  lemma WordPowers()
    ensures TWO64 == 2 * TWO63 && TWO128 == 2 * TWO127
    ensures Shl(TWO63, W) == TWO127 && Shl(TWO64, W) == TWO128 && Shl(1, W) == TWO64 && Shl(TWO63, 1) == TWO64
    ensures TWO63 >= 2 && TWO63 % 2 == 0
  {
    ShlPow2(W - 1, W);
    ShlPow2(W, W);
    ShlOne(W);
    assert Shl(TWO63, 1) == 2 * Shl(TWO63, 0);
    assert Pow2(W - 1) == 2 * Pow2(W - 2);
  }
}
