/**
 * The host's floating-point library, reduced to what the particle engine uses.
 *
 * Numbers are Dafny `real`s (no IEEE-754 rounding). `Math.cos`, `Math.sin`,
 * `Math.sqrt` and `Math.atan2` are not computed: they are supplied as a
 * `Trig` value and constrained only by the `Lawful` facts below.
 */
module RealMath {

  /** The four transcendental functions the engine calls, left uninterpreted. */
  datatype Trig = Trig(
    cos: real -> real,
    sin: real -> real,
    sqrt: real -> real,
    atan2: (real, real) -> real)

  /**
   * The facts about the library the proofs rely on, all stated without
   * products of unknowns: cosine and sine stay in [-1, 1]; a square root of
   * a non-negative number is non-negative, positive for a positive argument
   * and zero at zero; `atan2(y, x)` points into the quadrant of `(x, y)`, so
   * for non-zero `x` its cosine has the sign of `x`, and for non-zero `y` its
   * sine has the sign of `y`; and, as in
   * ECMAScript, `atan2(0, 0) = 0`, `cos(0) = 1`, `sin(0) = 0`.
   */
  ghost predicate Lawful(t: Trig) {
    && (forall a :: -1.0 <= t.cos(a) <= 1.0)
    && (forall a :: -1.0 <= t.sin(a) <= 1.0)
    && (forall s :: 0.0 <= s ==> 0.0 <= t.sqrt(s))
    && (forall s :: 0.0 < s ==> 0.0 < t.sqrt(s))
    && t.sqrt(0.0) == 0.0
    && (forall y, x :: 0.0 < x ==> 0.0 < t.cos(t.atan2(y, x)))
    && (forall y, x :: x < 0.0 ==> t.cos(t.atan2(y, x)) < 0.0)
    && (forall y, x :: 0.0 < y ==> 0.0 < t.sin(t.atan2(y, x)))
    && (forall y, x :: y < 0.0 ==> t.sin(t.atan2(y, x)) < 0.0)
    && t.atan2(0.0, 0.0) == 0.0
    && t.cos(0.0) == 1.0
    && t.sin(0.0) == 0.0
  }

  /** `Math.PI`: the shortest decimal that reads back as the double nearest to pi (that double itself is 3.141592653589793115997963468544185161590576171875). */
  const Pi: real := 3.141592653589793

  function Max(a: real, b: real): (m: real)
    ensures a <= m && b <= m
    ensures m == a || m == b
  {
    if a < b then b else a
  }

  function Min(a: real, b: real): (m: real)
    ensures m <= a && m <= b
    ensures m == a || m == b
  {
    if a < b then a else b
  }

  /** Euclidean length of the planar vector `(dx, dy)` as the engine computes it. */
  function Hypot2(t: Trig, dx: real, dy: real): real {
    t.sqrt(dx * dx + dy * dy)
  }

  /** Euclidean length of `(dx, dy, dz)` as the engine computes it. */
  function Hypot3(t: Trig, dx: real, dy: real, dz: real): real {
    t.sqrt(dx * dx + dy * dy + dz * dz)
  }

  /** A real square is never negative. */
  lemma SquareNonNegative(a: real)
    ensures 0.0 <= a * a
  {
    if a < 0.0 {
      var b := -a;
      assert 0.0 < b * b;
      assert a * a == b * b;
    }
  }

  /** A sum of two squares is positive unless both terms vanish. */
  lemma SumOfSquaresPositive(a: real, b: real)
    requires a != 0.0 || b != 0.0
    ensures 0.0 < a * a + b * b
  {
    SquareNonNegative(a);
    SquareNonNegative(b);
    if a > 0.0 {
      assert 0.0 < a * a;
    } else if a < 0.0 {
      var c := -a;
      assert 0.0 < c * c;
      assert a * a == c * c;
    } else if b > 0.0 {
      assert 0.0 < b * b;
    } else {
      var c := -b;
      assert 0.0 < c * c;
      assert b * b == c * c;
    }
  }

  /** A planar distance is non-negative, zero for the null vector and positive otherwise. */
  lemma Hypot2Facts(t: Trig, dx: real, dy: real)
    ensures Lawful(t) ==> 0.0 <= Hypot2(t, dx, dy)
    ensures Lawful(t) && (dx != 0.0 || dy != 0.0) ==> 0.0 < Hypot2(t, dx, dy)
    ensures Lawful(t) ==> Hypot2(t, 0.0, 0.0) == 0.0
  {
    SquareNonNegative(dx);
    SquareNonNegative(dy);
    SqrtSigns(t, dx * dx + dy * dy);
    if dx != 0.0 || dy != 0.0 {
      SumOfSquaresPositive(dx, dy);
    }
    assert 0.0 * 0.0 + 0.0 * 0.0 == 0.0;
  }

  /** A square root is non-negative for a non-negative argument, and positive for a positive one. */
  lemma SqrtSigns(t: Trig, q: real)
    ensures Lawful(t) && 0.0 <= q ==> 0.0 <= t.sqrt(q)
    ensures Lawful(t) && 0.0 < q ==> 0.0 < t.sqrt(q)
  {
  }

  /** Cosine and sine of any angle lie in [-1, 1]. */
  lemma UnitRange(t: Trig, a: real)
    ensures Lawful(t) ==> -1.0 <= t.cos(a) <= 1.0 && -1.0 <= t.sin(a) <= 1.0
  {
  }

  /** The direction `atan2(y, x)` has a cosine of the sign of a non-zero `x` and a sine of the sign of a non-zero `y`. */
  lemma DirectionSigns(t: Trig, y: real, x: real)
    ensures Lawful(t) ==>
      && (0.0 < x ==> 0.0 < t.cos(t.atan2(y, x))) && (x < 0.0 ==> t.cos(t.atan2(y, x)) < 0.0)
      && (0.0 < y ==> 0.0 < t.sin(t.atan2(y, x))) && (y < 0.0 ==> t.sin(t.atan2(y, x)) < 0.0)
  {
  }

  /** A spatial distance is non-negative. */
  lemma Hypot3NonNegative(t: Trig, dx: real, dy: real, dz: real)
    ensures Lawful(t) ==> 0.0 <= Hypot3(t, dx, dy, dz)
  {
    SquareNonNegative(dx);
    SquareNonNegative(dy);
    SquareNonNegative(dz);
  }

  /** `a` raised to the natural power `n`. */
  function Pow(a: real, n: nat): real {
    if n == 0 then 1.0 else a * Pow(a, n - 1)
  }

  lemma {:induction false} PowAdd(a: real, m: nat, n: nat)
    ensures Pow(a, m + n) == Pow(a, m) * Pow(a, n)
  {
    if m > 0 {
      PowAdd(a, m - 1, n);
    }
  }

  /** Powers of a factor in (0, 1) are positive and strictly decreasing. */
  lemma {:induction false} PowShrinks(a: real, n: nat)
    requires 0.0 < a < 1.0
    ensures 0.0 < Pow(a, n + 1) < Pow(a, n)
  {
    if n > 0 {
      PowShrinks(a, n - 1);
    }
  }

  lemma {:induction false} PowAntitone(a: real, m: nat, n: nat)
    requires 0.0 < a < 1.0
    requires m <= n
    ensures Pow(a, n) <= Pow(a, m)
    decreases n - m
  {
    if m < n {
      PowAntitone(a, m + 1, n);
      PowShrinks(a, m);
    }
  }
}
