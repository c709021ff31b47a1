/**
 * What the animation loop derives from one particle, after its update, to
 * paint it: a glow disc and a core disc centred on the particle's planar
 * position, sized by a perspective factor of its depth and coloured in a
 * blue HSL band that shifts slowly with the frame clock and the particle's
 * index. Only the numbers are modelled; the painting itself is not.
 */
module Render {
  import opened RealMath
  import opened Particles

  /** The depth at which the perspective factor `400 / (400 + z)` is 1. */
  const Focal: real := 400.0
  const CompactSizeBase: real := 1.8
  const StandardSizeBase: real := 2.5
  const MinSize: real := 1.0
  const DimmestBrightness: real := 0.4

  /** The numbers one particle is painted with. */
  datatype Sprite = Sprite(
    x: real, y: real,
    size: real,
    glow: real,
    hue: real,
    saturation: real,
    lightness: real,
    coreLightness: real)

  function SizeBase(compact: bool): real {
    if compact then CompactSizeBase else StandardSizeBase
  }

  /**
   * The core radius for a particle at depth `z`: the size base scaled by the
   * perspective factor, raised to 1 where that falls below 1, so also behind
   * the pole, where the factor is negative. At the pole itself the factor is
   * infinite and no frame reaches this computation (see `Engine.Frame`).
   */
  function SpriteSize(compact: bool, z: real): (e: real)
    requires z != -Focal
    ensures MinSize <= e
    ensures MinSize <= SizeBase(compact) * (Focal / (Focal + z)) ==> e == SizeBase(compact) * (Focal / (Focal + z))
    ensures SizeBase(compact) * (Focal / (Focal + z)) < MinSize ==> e == MinSize
    ensures z < -Focal ==> e == MinSize
  {
    NegativeQuotient(Focal, Focal + z);
    Max(MinSize, SizeBase(compact) * (Focal / (Focal + z)))
  }

  /** A positive number over a negative one is negative, and so is its positive multiple. */
  lemma NegativeQuotient(a: real, b: real)
    requires b != 0.0
    ensures 0.0 < a && b < 0.0 ==> a / b < 0.0
    ensures 0.0 < a && b < 0.0 ==> SizeBase(false) * (a / b) < 0.0 && SizeBase(true) * (a / b) < 0.0
  {
    if 0.0 < a && b < 0.0 {
      var q := a / b;
      assert q * b == a;
    }
  }

  /**
   * How bright a particle at depth `z` is: depth mapped from [-200, 200]
   * to [0, 1], then clamped to [0.4, 1].
   */
  function Brightness(z: real): (b: real)
    ensures DimmestBrightness <= b <= 1.0
    ensures z <= -40.0 ==> b == DimmestBrightness
    ensures 200.0 <= z ==> b == 1.0
    ensures -40.0 <= z <= 200.0 ==> b * 400.0 == z + 200.0
  {
    Max(DimmestBrightness, Min(1.0, (z + 200.0) / 400.0))
  }

  /** The hue swings by 15 degrees either side of 200 as the clock advances. */
  function Hue(t: Trig, time: real, index: nat): (h: real)
    ensures Lawful(t) ==> 185.0 <= h <= 215.0
    ensures Lawful(t) && time + index as real * 0.1 == 0.0 ==> h == 200.0
  {
    UnitRange(t, time + index as real * 0.1);
    200.0 + t.sin(time + index as real * 0.1) * 15.0
  }

  /** The saturation swings by 15 points either side of 75, at half the hue's rate. */
  function Saturation(t: Trig, time: real, index: nat): (s: real)
    ensures Lawful(t) ==> 60.0 <= s <= 90.0
    ensures Lawful(t) && time * 0.5 + index as real * 0.05 == 0.0 ==> s == 75.0
  {
    UnitRange(t, time * 0.5 + index as real * 0.05);
    75.0 + t.sin(time * 0.5 + index as real * 0.05) * 15.0
  }

  /** Lightness rises linearly with brightness, from 58 at the dimmest to 70 at full. */
  function Lightness(brightness: real): (l: real)
    ensures DimmestBrightness <= brightness <= 1.0 ==> 58.0 <= l <= 70.0
    ensures (l - 50.0) * 0.05 == brightness
  {
    50.0 + brightness * 20.0
  }

  /**
   * How the particle with position `index` in the store is painted this
   * frame, on a compact surface or not: a core of the perspective size, a
   * glow twice as wide, a depth-dependent lightness (15 points lighter in the
   * core) and a hue and saturation that depend on the clock and the index.
   */
  function SpriteOf(t: Trig, time: real, index: nat, compact: bool, p: Particle): (sp: Sprite)
    requires p.z != -Focal
    ensures sp.x == p.x && sp.y == p.y
    ensures sp.size == SpriteSize(compact, p.z) && sp.glow == 2.0 * sp.size
    ensures MinSize <= sp.size
    ensures sp.lightness == Lightness(Brightness(p.z))
    ensures 58.0 <= sp.lightness <= 70.0
    ensures sp.coreLightness == sp.lightness + 15.0
    ensures sp.hue == Hue(t, time, index) && sp.saturation == Saturation(t, time, index)
    ensures Lawful(t) ==> 185.0 <= sp.hue <= 215.0 && 60.0 <= sp.saturation <= 90.0
  {
    var size := SpriteSize(compact, p.z);
    var lightness := Lightness(Brightness(p.z));
    Sprite(p.x, p.y, size, size * 2.0,
      Hue(t, time, index), Saturation(t, time, index), lightness, lightness + 15.0)
  }

  /** `400 / d` shrinks as the positive divisor `d` grows. */
  lemma QuotientAntitone(a: real, d1: real, d2: real)
    requires 0.0 < a && 0.0 < d1 <= d2
    ensures a / d2 <= a / d1
  {
    var q1 := a / d1;
    var q2 := a / d2;
    assert q1 * d1 == a;
    assert q2 * d2 == a;
  }

  /** Perspective: of two particles in front of the pole, the nearer (smaller depth) is never drawn smaller. */
  lemma NearerIsNotSmaller(compact: bool, z1: real, z2: real)
    requires -Focal < z1 <= z2
    ensures SpriteSize(compact, z2) <= SpriteSize(compact, z1)
  {
    QuotientAntitone(Focal, Focal + z1, Focal + z2);
    var q1 := Focal / (Focal + z1);
    var q2 := Focal / (Focal + z2);
    assert SizeBase(compact) * q2 <= SizeBase(compact) * q1;
  }

  /** Brightness never decreases with depth. */
  lemma DeeperIsNotDimmer(z1: real, z2: real)
    requires z1 <= z2
    ensures Brightness(z1) <= Brightness(z2)
  {
  }
}

/**
 * The connective lines: after particle `i` is updated and painted, the loop
 * walks the whole store again, skips every index up to and including `i`,
 * and draws a faint line to each later particle within spatial distance 40.
 * The later particles have not been updated yet in this frame, so each line
 * runs from particle `i`'s new position to particle `j`'s old one, and the
 * distance is measured between those two states.
 */
module Links {
  import opened RealMath
  import opened Particles
  import Seqs

  /** Lines are drawn strictly inside this spatial distance. */
  const LineReach: real := 40.0
  const PeakLineAlpha: real := 0.25

  type Pair = (nat, nat)

  /** A line from the updated particle `i` to the not-yet-updated particle `j`. */
  datatype Line = Line(i: nat, j: nat, fromX: real, fromY: real, toX: real, toY: real, alpha: real)

  /** Line opacity: 0.25 at distance 0, falling linearly to 0 at distance 40. */
  function LineAlpha(d: real): (a: real)
    ensures 0.0 <= d < LineReach ==> 0.0 < a <= PeakLineAlpha
    ensures a == PeakLineAlpha <==> d == 0.0
  {
    (1.0 - d / LineReach) * PeakLineAlpha
  }

  /** A closer pair gets a line at least as opaque. */
  lemma CloserIsNotFainter(d1: real, d2: real)
    requires d1 <= d2
    ensures LineAlpha(d2) <= LineAlpha(d1)
  {
  }

  // ---------------------------------------------------------------------
  // The order in which the nested loops reach pairs
  // ---------------------------------------------------------------------

  /** Inner loop for outer index `i`, from inner index `j` on: indices up to `i` return at once. */
  function VisitRow(n: nat, i: nat, j: nat): seq<Pair>
    decreases n - j
  {
    if n <= j then []
    else if j <= i then VisitRow(n, i, j + 1)
    else [(i, j)] + VisitRow(n, i, j + 1)
  }

  /** Outer loop from index `i` on, for the outer indices below `k`. */
  function VisitRows(n: nat, i: nat, k: nat): seq<Pair>
    decreases n - i
  {
    if n <= i || k <= i then [] else VisitRow(n, i, 0) + VisitRows(n, i + 1, k)
  }

  /** Every pair the loops reach past the early return, in order, for a store of `n` particles. */
  function Visits(n: nat): seq<Pair> {
    VisitRows(n, 0, n)
  }

  predicate PairBefore(a: Pair, b: Pair) {
    a.0 < b.0 || (a.0 == b.0 && a.1 < b.1)
  }

  predicate StrictlyOrdered(s: seq<Pair>) {
    forall a, b :: 0 <= a < b < |s| ==> PairBefore(s[a], s[b])
  }

  lemma {:induction false} VisitRowMembers(n: nat, i: nat, j: nat)
    ensures forall p :: p in VisitRow(n, i, j) <==> p.0 == i && j <= p.1 < n && i < p.1
    decreases n - j
  {
    if j < n {
      VisitRowMembers(n, i, j + 1);
    }
  }

  lemma {:induction false} VisitRowOrdered(n: nat, i: nat, j: nat)
    ensures StrictlyOrdered(VisitRow(n, i, j))
    decreases n - j
  {
    if j < n {
      VisitRowOrdered(n, i, j + 1);
      VisitRowMembers(n, i, j + 1);
      var rest := VisitRow(n, i, j + 1);
      if i < j {
        var s := [(i, j)] + rest;
        forall a, b | 0 <= a < b < |s|
          ensures PairBefore(s[a], s[b])
        {
          if a == 0 {
            assert s[b] in rest;
          } else {
            assert s[a] == rest[a - 1] && s[b] == rest[b - 1];
          }
        }
      }
    }
  }

  lemma {:induction false} VisitRowLength(n: nat, i: nat, j: nat)
    ensures |VisitRow(n, i, j)| == if n <= j then 0 else if j <= i then (if n <= i then 0 else n - i - 1) else n - j
    decreases n - j
  {
    if j < n {
      VisitRowLength(n, i, j + 1);
    }
  }

  lemma PairsOrderedConcat(a: seq<Pair>, b: seq<Pair>)
    requires StrictlyOrdered(a) && StrictlyOrdered(b)
    requires forall p, q :: p in a && q in b ==> PairBefore(p, q)
    ensures StrictlyOrdered(a + b)
  {
    var s := a + b;
    forall x, y | 0 <= x < y < |s|
      ensures PairBefore(s[x], s[y])
    {
      if y < |a| {
        assert s[x] == a[x] && s[y] == a[y];
      } else if |a| <= x {
        assert s[x] == b[x - |a|] && s[y] == b[y - |a|];
      } else {
        assert s[x] in a && s[y] in b;
      }
    }
  }

  lemma {:induction false} VisitRowsFacts(n: nat, i: nat, k: nat)
    ensures forall p :: p in VisitRows(n, i, k) <==> i <= p.0 < k && p.0 < p.1 < n
    ensures StrictlyOrdered(VisitRows(n, i, k))
    ensures k == n ==> 2 * |VisitRows(n, i, k)| == if n <= i then 0 else (n - i) * (n - i - 1)
    decreases n - i
  {
    if i < n && i < k {
      VisitRowMembers(n, i, 0);
      VisitRowOrdered(n, i, 0);
      VisitRowLength(n, i, 0);
      VisitRowsFacts(n, i + 1, k);
      var row := VisitRow(n, i, 0);
      var rest := VisitRows(n, i + 1, k);
      forall p, q | p in row && q in rest
        ensures PairBefore(p, q)
      {
      }
      PairsOrderedConcat(row, rest);
      var m := n - i - 1;
      assert |row| == m;
      if k == n {
        assert 2 * |rest| == m * (m - 1) by {
          if m == 0 {
          } else {
            assert n - (i + 1) == m;
          }
        }
        assert m * (m - 1) + 2 * m == (m + 1) * m;
      }
    } else if i < n {
      assert forall p :: p in VisitRows(n, i, k) <==> i <= p.0 < k && p.0 < p.1 < n;
    }
  }

  /** Stopping the outer loop early visits no more pairs than running it to the end. */
  lemma {:induction false} VisitRowsShorter(n: nat, i: nat, k: nat)
    ensures |VisitRows(n, i, k)| <= |VisitRows(n, i, n)|
    decreases n - i
  {
    if i < n && i < k {
      VisitRowsShorter(n, i + 1, k);
    }
  }

  /**
   * The loops reach exactly the pairs `i < j` of the store, each once, in
   * lexicographic order: n(n-1)/2 of them, no self pairs, no pair in both
   * orders.
   */
  lemma VisitsExact(n: nat)
    ensures forall i: nat, j: nat :: (i, j) in Visits(n) <==> i < j < n
    ensures StrictlyOrdered(Visits(n))
    ensures 2 * |Visits(n)| == n * (n - 1)
  {
    VisitRowsFacts(n, 0, n);
  }

  // ---------------------------------------------------------------------
  // Which visited pairs get a line
  // ---------------------------------------------------------------------

  /** The spatial distance the engine measures between particle states `a` and `b`. */
  function Spacing(t: Trig, a: Particle, b: Particle): real {
    Hypot3(t, a.x - b.x, a.y - b.y, a.z - b.z)
  }

  /** Whether the pair `(i, j)` is close enough for a line in this frame. */
  predicate Linked(t: Trig, before: seq<Particle>, after: seq<Particle>, p: Pair)
    requires |before| == |after|
  {
    p.0 < p.1 < |after| && Spacing(t, after[p.0], before[p.1]) < LineReach
  }

  function LineFor(t: Trig, before: seq<Particle>, after: seq<Particle>, p: Pair): (l: Line)
    requires |before| == |after| && p.0 < |after| && p.1 < |before|
    ensures l.i == p.0 && l.j == p.1
    ensures l.fromX == after[p.0].x && l.fromY == after[p.0].y
    ensures l.toX == before[p.1].x && l.toY == before[p.1].y
    ensures l.alpha == LineAlpha(Spacing(t, after[p.0], before[p.1]))
    ensures Lawful(t) && Spacing(t, after[p.0], before[p.1]) < LineReach ==> 0.0 < l.alpha <= PeakLineAlpha
  {
    var a := after[p.0];
    var b := before[p.1];
    Hypot3NonNegative(t, a.x - b.x, a.y - b.y, a.z - b.z);
    Line(p.0, p.1, a.x, a.y, b.x, b.y, LineAlpha(Spacing(t, a, b)))
  }

  /** The lines for the visited pairs `ps`, in visiting order. */
  function LinesOver(t: Trig, before: seq<Particle>, after: seq<Particle>, ps: seq<Pair>): seq<Line>
    requires |before| == |after|
    requires forall p :: p in ps ==> p.0 < p.1 < |after|
  {
    if ps == [] then []
    else
      var rest := LinesOver(t, before, after, ps[1..]);
      if Linked(t, before, after, ps[0]) then [LineFor(t, before, after, ps[0])] + rest else rest
  }

  /**
   * The lines drawn by the first `k` outer iterations of a frame, given the
   * store before and after the frame's updates.
   */
  function LinesBelow(t: Trig, before: seq<Particle>, after: seq<Particle>, k: nat): seq<Line>
    requires |before| == |after|
  {
    VisitRowsFacts(|after|, 0, k);
    LinesOver(t, before, after, VisitRows(|after|, 0, k))
  }

  /** The lines drawn by a whole frame. */
  function Lines(t: Trig, before: seq<Particle>, after: seq<Particle>): seq<Line>
    requires |before| == |after|
  {
    LinesBelow(t, before, after, |after|)
  }

  function Ends(ls: seq<Line>): (ps: seq<Pair>)
    ensures |ps| == |ls|
    ensures forall k :: 0 <= k < |ls| ==> ps[k] == (ls[k].i, ls[k].j)
  {
    seq(|ls|, k requires 0 <= k < |ls| => (ls[k].i, ls[k].j))
  }

  lemma {:induction false} LinesOverMembers(t: Trig, before: seq<Particle>, after: seq<Particle>, ps: seq<Pair>)
    requires |before| == |after|
    requires forall p :: p in ps ==> p.0 < p.1 < |after|
    ensures forall p :: p in Ends(LinesOver(t, before, after, ps)) <==> p in ps && Linked(t, before, after, p)
  {
    if ps != [] {
      var rest := ps[1..];
      LinesOverMembers(t, before, after, rest);
      var tail := Ends(LinesOver(t, before, after, rest));
      var es := Ends(LinesOver(t, before, after, ps));
      if Linked(t, before, after, ps[0]) {
        assert es == [ps[0]] + tail;
      } else {
        assert es == tail;
      }
      assert ps == [ps[0]] + rest;
    }
  }

  lemma {:induction false} LinesOverShape(t: Trig, before: seq<Particle>, after: seq<Particle>, ps: seq<Pair>)
    requires |before| == |after|
    requires forall p :: p in ps ==> p.0 < p.1 < |after|
    ensures forall l :: l in LinesOver(t, before, after, ps) ==> l.i < |after| && l.j < |after| && l == LineFor(t, before, after, (l.i, l.j))
  {
    if ps != [] {
      LinesOverShape(t, before, after, ps[1..]);
    }
  }

  lemma {:induction false} LinesOverOrdered(t: Trig, before: seq<Particle>, after: seq<Particle>, ps: seq<Pair>)
    requires |before| == |after|
    requires forall p :: p in ps ==> p.0 < p.1 < |after|
    requires StrictlyOrdered(ps)
    ensures StrictlyOrdered(Ends(LinesOver(t, before, after, ps)))
  {
    if ps != [] {
      var rest := ps[1..];
      assert StrictlyOrdered(rest) by {
        forall a, b | 0 <= a < b < |rest|
          ensures PairBefore(rest[a], rest[b])
        {
          assert rest[a] == ps[a + 1] && rest[b] == ps[b + 1];
        }
      }
      LinesOverOrdered(t, before, after, rest);
      LinesOverMembers(t, before, after, rest);
      var tail := Ends(LinesOver(t, before, after, rest));
      var es := Ends(LinesOver(t, before, after, ps));
      if Linked(t, before, after, ps[0]) {
        assert es == [ps[0]] + tail;
        forall q | q in tail
          ensures PairBefore(ps[0], q)
        {
          var k :| 0 <= k < |rest| && rest[k] == q;
          assert ps[k + 1] == q;
        }
        PairsOrderedConcat([ps[0]], tail);
      } else {
        assert es == tail;
      }
    }
  }

  /** A pair yields at most one line. */
  lemma {:induction false} LinesOverLength(t: Trig, before: seq<Particle>, after: seq<Particle>, ps: seq<Pair>)
    requires |before| == |after|
    requires forall p :: p in ps ==> p.0 < p.1 < |after|
    ensures |LinesOver(t, before, after, ps)| <= |ps|
  {
    if ps != [] {
      LinesOverLength(t, before, after, ps[1..]);
    }
  }

  /** The first `k` outer iterations over `n` particles draw at most n(n-1)/2 lines. */
  lemma LineCountBound(t: Trig, before: seq<Particle>, after: seq<Particle>, k: nat)
    requires |before| == |after|
    ensures 2 * |LinesBelow(t, before, after, k)| <= |after| * (|after| - 1)
  {
    var n := |after|;
    VisitsExact(n);
    VisitRowsShorter(n, 0, k);
    VisitRowsFacts(n, 0, k);
    LinesOverLength(t, before, after, VisitRows(n, 0, k));
  }

  /**
   * The close pairs of the first `k` outer iterations: `i < k`, `i < j`,
   * within distance 40, `i` updated, `j` not yet.
   */
  ghost function LinkedPairs(t: Trig, before: seq<Particle>, after: seq<Particle>, k: nat): set<Pair>
    requires |before| == |after|
  {
    set i: nat, j: nat | i < k && i < j < |after| && Linked(t, before, after, (i, j)) :: (i, j)
  }

  /**
   * The first `k` outer iterations of a frame (all of them when `k` is the
   * store's size) draw a line for a pair exactly when `i < k`, `i < j` and
   * particle `i`'s new state lies within 40 of particle `j`'s old state; each
   * such pair gets exactly one line, the lines come in lexicographic order of
   * their pairs, each runs from `i`'s new position to `j`'s old one, and its
   * opacity is the falloff of that distance: at most a quarter, never zero.
   */
  lemma LinesExact(t: Trig, before: seq<Particle>, after: seq<Particle>, k: nat)
    requires |before| == |after|
    ensures forall i: nat, j: nat :: (i, j) in Ends(LinesBelow(t, before, after, k)) <==>
      i < k && i < j < |after| && Linked(t, before, after, (i, j))
    ensures StrictlyOrdered(Ends(LinesBelow(t, before, after, k)))
    ensures |LinesBelow(t, before, after, k)| == |LinkedPairs(t, before, after, k)|
    ensures forall l :: l in LinesBelow(t, before, after, k) ==>
      && l.fromX == after[l.i].x && l.fromY == after[l.i].y
      && l.toX == before[l.j].x && l.toY == before[l.j].y
      && l.alpha == LineAlpha(Spacing(t, after[l.i], before[l.j]))
      && (Lawful(t) ==> 0.0 < l.alpha <= PeakLineAlpha)
  {
    var n := |after|;
    var ps := VisitRows(n, 0, k);
    VisitRowsFacts(n, 0, k);
    LinesOverMembers(t, before, after, ps);
    LinesOverShape(t, before, after, ps);
    LinesOverOrdered(t, before, after, ps);
    var ls := LinesBelow(t, before, after, k);
    var es := Ends(ls);
    assert Seqs.Distinct(es) by {
      forall a, b | 0 <= a < b < |es|
        ensures es[a] != es[b]
      {
        assert PairBefore(es[a], es[b]);
      }
    }
    Seqs.DistinctCardinality(es);
    assert Seqs.Elements(es) == LinkedPairs(t, before, after, k);
    forall l | l in ls
      ensures Lawful(t) ==> 0.0 < l.alpha <= PeakLineAlpha
    {
      var m :| 0 <= m < |ls| && ls[m] == l;
      assert es[m] == (l.i, l.j);
    }
  }
}
