/**
 * Field generation: the label is rasterised offscreen (outside this model;
 * the RGBA pixel buffer is an input), the buffer is sampled on a square grid
 * whose stride depends on the surface width, and every grid cell whose alpha
 * exceeds 128 becomes one particle anchored at that cell.
 *
 * `Math.random` is a stream `rnd` of draws; the particle built for the k-th
 * accepted cell consumes draws 8k .. 8k+7, in the order the engine evaluates
 * them.
 */
module Field {
  import opened RealMath
  import opened Particles
  import Seqs

  datatype Option<T> = None | Some(value: T)

  /** A grid cell of the offscreen raster, in pixels. */
  datatype Cell = Cell(x: nat, y: nat)

  /**
   * The viewport-dependent parameter set: compact or standard, the font size
   * the label is drawn at, and the sampling stride.
   */
  datatype Profile = Profile(compact: bool, fontSize: real, gap: nat)

  /** Surfaces narrower than this use the compact profile. */
  const CompactWidth: nat := 768

  /** A pixel is ink when its alpha exceeds this value. */
  const InkThreshold: int := 128

  /** The number of random draws each new particle consumes. */
  const DrawsPerParticle: nat := 8

  function MaxNat(a: nat, b: nat): nat {
    if a < b then b else a
  }

  /**
   * The profile for a surface `width` pixels wide. The `max(4, ...)` floor on
   * the standard stride never binds, since a standard surface is at least
   * 768 wide and so has a stride of at least 5.
   */
  function ProfileFor(width: nat): (p: Profile)
    ensures p.compact <==> width < CompactWidth
    ensures 4 <= p.gap
    ensures p.compact ==> p.gap == 10
    ensures !p.compact ==> 5 <= p.gap && p.gap * 150 <= width < (p.gap + 1) * 150
    ensures p.compact ==> p.fontSize <= 160.0 && p.fontSize <= width as real * 0.3
    ensures p.compact ==> p.fontSize == 160.0 || p.fontSize == width as real * 0.3
    ensures !p.compact ==> p.fontSize <= 400.0 && p.fontSize <= width as real * 0.25
    ensures !p.compact ==> p.fontSize == 400.0 || p.fontSize == width as real * 0.25
  {
    var compact := width < CompactWidth;
    var fontSize := if compact then Min(width as real * 0.3, 160.0) else Min(width as real * 0.25, 400.0);
    var gap := if compact then 10 else MaxNat(4, width / 150);
    Profile(compact, fontSize, gap)
  }

  /** Position of the alpha byte of pixel `(x, y)` in a row-major RGBA buffer `w` pixels wide. */
  function AlphaIndex(w: nat, x: nat, y: nat): nat {
    (y * w + x) * 4 + 3
  }

  /** Every pixel of the surface has its alpha byte inside the buffer. */
  lemma AlphaIndexInBounds(w: nat, h: nat, x: nat, y: nat)
    requires x < w && y < h
    ensures AlphaIndex(w, x, y) < 4 * w * h
  {
    assert y + 1 <= h;
    assert (y + 1) * w <= h * w;
  }

  /** A buffer holding exactly one RGBA quadruple per pixel of a `w` by `h` surface. */
  predicate IsRaster(w: nat, h: nat, px: seq<int>) {
    |px| == 4 * w * h
  }

  function Alpha(w: nat, h: nat, px: seq<int>, x: nat, y: nat): int
    requires IsRaster(w, h, px) && x < w && y < h
  {
    AlphaIndexInBounds(w, h, x, y);
    px[AlphaIndex(w, x, y)]
  }

  predicate Inked(w: nat, h: nat, px: seq<int>, x: nat, y: nat)
    requires IsRaster(w, h, px) && x < w && y < h
  {
    Alpha(w, h, px, x, y) > InkThreshold
  }

  /** The raster's ink test as a mask over pixel coordinates; off-surface pixels are never ink. */
  function InkMask(w: nat, h: nat, px: seq<int>): (nat, nat) -> bool
    requires IsRaster(w, h, px)
  {
    (x: nat, y: nat) => x < w && y < h && Inked(w, h, px, x, y)
  }

  /** A cell the scan accepts: inside the surface, on the grid, and ink under `ink`. */
  predicate OnGridInk(w: nat, h: nat, gap: nat, ink: (nat, nat) -> bool, c: Cell)
    requires 0 < gap
  {
    && c.x < w && c.y < h
    && c.x % gap == 0 && c.y % gap == 0
    && ink(c.x, c.y)
  }

  /** The accepted cells of row `y`, from column `x` rightwards, in scan order. */
  function RowCells(w: nat, gap: nat, ink: (nat, nat) -> bool, y: nat, x: nat): seq<Cell>
    requires 0 < gap
    decreases w - x
  {
    if x >= w then []
    else (if ink(x, y) then [Cell(x, y)] else []) + RowCells(w, gap, ink, y, x + gap)
  }

  /** The accepted cells of rows `y`, `y + gap`, ... in scan order. */
  function Rows(w: nat, h: nat, gap: nat, ink: (nat, nat) -> bool, y: nat): seq<Cell>
    requires 0 < gap
    decreases h - y
  {
    if y >= h then []
    else RowCells(w, gap, ink, y, 0) + Rows(w, h, gap, ink, y + gap)
  }

  /** The accepted cells of the whole surface, in scan order. */
  function Cells(w: nat, h: nat, gap: nat, px: seq<int>): seq<Cell>
    requires IsRaster(w, h, px) && 0 < gap
  {
    Rows(w, h, gap, InkMask(w, h, px), 0)
  }

  /** A cell of the raster the scan accepts. */
  predicate Sampled(w: nat, h: nat, gap: nat, px: seq<int>, c: Cell)
    requires IsRaster(w, h, px) && 0 < gap
  {
    OnGridInk(w, h, gap, InkMask(w, h, px), c)
  }

  /** The set of accepted cells, defined without reference to the scan. */
  ghost function AcceptedSet(w: nat, h: nat, gap: nat, px: seq<int>): set<Cell>
    requires IsRaster(w, h, px) && 0 < gap
  {
    set x: nat, y: nat | x < w && y < h && Sampled(w, h, gap, px, Cell(x, y)) :: Cell(x, y)
  }

  /** Row-major order: by row, then by column. */
  predicate Before(a: Cell, b: Cell) {
    a.y < b.y || (a.y == b.y && a.x < b.x)
  }

  predicate ScanOrdered(s: seq<Cell>) {
    forall i, j :: 0 <= i < j < |s| ==> Before(s[i], s[j])
  }

  lemma NextMultiple(a: nat, b: nat, g: nat)
    requires 0 < g && a % g == 0 && b % g == 0 && b < a
    ensures b + g <= a
  {
    var qa := a / g;
    var qb := b / g;
    assert a == qa * g;
    assert b == qb * g;
    assert qb < qa;
    assert (qb + 1) * g <= qa * g;
  }

  lemma CellsOrderedConcat(a: seq<Cell>, b: seq<Cell>)
    requires ScanOrdered(a) && ScanOrdered(b)
    requires forall u, v :: u in a && v in b ==> Before(u, v)
    ensures ScanOrdered(a + b)
  {
    var s := a + b;
    forall i, j | 0 <= i < j < |s|
      ensures Before(s[i], s[j])
    {
      if j < |a| {
        assert s[i] == a[i] && s[j] == a[j];
      } else if i >= |a| {
        assert s[i] == b[i - |a|] && s[j] == b[j - |a|];
      } else {
        assert s[i] in a && s[j] in b;
      }
    }
  }

  lemma MulAwayFromZero(k: int, g: int)
    requires 0 < g
    ensures 0 < k ==> g <= k * g
    ensures k < 0 ==> k * g <= -g
  {
  }

  /** Adding the stride keeps a coordinate's position relative to the grid. */
  lemma ModShift(v: int, g: int)
    requires 0 < g
    ensures (v + g) % g == v % g
  {
    var q, r := v / g, v % g;
    var q2, r2 := (v + g) / g, (v + g) % g;
    assert v == q * g + r;
    assert v + g == q2 * g + r2;
    var k := q2 - q - 1;
    assert k * g == q2 * g - q * g - g;
    MulAwayFromZero(k, g);
  }

  /** A row's accepted cells are exactly its on-grid ink cells from column `x` on. */
  lemma {:induction false} RowCellsMembers(w: nat, h: nat, gap: nat, ink: (nat, nat) -> bool, y: nat, x: nat)
    requires 0 < gap && y < h && y % gap == 0 && x % gap == 0
    ensures forall c :: c in RowCells(w, gap, ink, y, x) <==> c.y == y && x <= c.x && OnGridInk(w, h, gap, ink, c)
    decreases w - x
  {
    var cells := RowCells(w, gap, ink, y, x);
    if x < w {
      var head := if ink(x, y) then [Cell(x, y)] else [];
      var rest := RowCells(w, gap, ink, y, x + gap);
      assert cells == head + rest;
      ModShift(x, gap);
      RowCellsMembers(w, h, gap, ink, y, x + gap);
      forall c: Cell | c.y == y && x <= c.x && OnGridInk(w, h, gap, ink, c)
        ensures c in cells
      {
        if c.x != x {
          NextMultiple(c.x, x, gap);
          assert c in rest;
        } else {
          assert c in head;
        }
      }
      forall c | c in cells
        ensures c.y == y && x <= c.x && OnGridInk(w, h, gap, ink, c)
      {
        if c in head {
          assert c == Cell(x, y);
        } else {
          assert c in rest;
        }
      }
    }
  }

  /** A row's accepted cells come left to right. */
  lemma {:induction false} RowCellsOrdered(w: nat, gap: nat, ink: (nat, nat) -> bool, y: nat, x: nat)
    requires 0 < gap
    ensures forall c :: c in RowCells(w, gap, ink, y, x) ==> c.y == y && x <= c.x
    ensures ScanOrdered(RowCells(w, gap, ink, y, x))
    decreases w - x
  {
    if x < w {
      var head := if ink(x, y) then [Cell(x, y)] else [];
      var rest := RowCells(w, gap, ink, y, x + gap);
      RowCellsOrdered(w, gap, ink, y, x + gap);
      CellsOrderedConcat(head, rest);
    }
  }

  /** The scan from row `y` down accepts exactly the on-grid ink cells from that row on. */
  lemma {:induction false} RowsMembers(w: nat, h: nat, gap: nat, ink: (nat, nat) -> bool, y: nat)
    requires 0 < gap && y % gap == 0
    ensures forall c :: c in Rows(w, h, gap, ink, y) <==> y <= c.y && OnGridInk(w, h, gap, ink, c)
    decreases h - y
  {
    var cells := Rows(w, h, gap, ink, y);
    if y < h {
      var row := RowCells(w, gap, ink, y, 0);
      var rest := Rows(w, h, gap, ink, y + gap);
      assert cells == row + rest;
      ModShift(y, gap);
      RowCellsMembers(w, h, gap, ink, y, 0);
      RowsMembers(w, h, gap, ink, y + gap);
      forall c: Cell | y <= c.y && OnGridInk(w, h, gap, ink, c)
        ensures c in cells
      {
        if c.y != y {
          NextMultiple(c.y, y, gap);
          assert c in rest;
        } else {
          assert c in row;
        }
      }
      forall c | c in cells
        ensures y <= c.y && OnGridInk(w, h, gap, ink, c)
      {
        if c in row {
          assert c.y == y;
        } else {
          assert c in rest;
        }
      }
    }
  }

  /** The scan from row `y` down produces its cells in row-major order. */
  lemma {:induction false} RowsOrdered(w: nat, h: nat, gap: nat, ink: (nat, nat) -> bool, y: nat)
    requires 0 < gap
    ensures forall c :: c in Rows(w, h, gap, ink, y) ==> y <= c.y
    ensures ScanOrdered(Rows(w, h, gap, ink, y))
    decreases h - y
  {
    if y < h {
      var row := RowCells(w, gap, ink, y, 0);
      var rest := Rows(w, h, gap, ink, y + gap);
      RowCellsOrdered(w, gap, ink, y, 0);
      RowsOrdered(w, h, gap, ink, y + gap);
      CellsOrderedConcat(row, rest);
    }
  }

  /**
   * The scan accepts every on-grid inked cell of the surface and nothing
   * else, each once, in row-major order; so the number of accepted cells is
   * the size of the set of inked grid cells.
   */
  lemma CellsExact(w: nat, h: nat, gap: nat, px: seq<int>)
    requires IsRaster(w, h, px) && 0 < gap
    ensures forall c :: c in Cells(w, h, gap, px) <==> Sampled(w, h, gap, px, c)
    ensures ScanOrdered(Cells(w, h, gap, px))
    ensures |Cells(w, h, gap, px)| == |AcceptedSet(w, h, gap, px)|
  {
    var cells := Cells(w, h, gap, px);
    var ink := InkMask(w, h, px);
    RowsMembers(w, h, gap, ink, 0);
    RowsOrdered(w, h, gap, ink, 0);
    assert Seqs.Elements(cells) == AcceptedSet(w, h, gap, px) by {
      forall c | c in AcceptedSet(w, h, gap, px)
        ensures c in cells
      {
        var x: nat, y: nat :| x < w && y < h && Sampled(w, h, gap, px, Cell(x, y)) && c == Cell(x, y);
      }
      forall c | c in cells
        ensures c in AcceptedSet(w, h, gap, px)
      {
        assert Sampled(w, h, gap, px, c);
      }
    }
    assert Seqs.Distinct(cells) by {
      forall i, j | 0 <= i < j < |cells|
        ensures cells[i] != cells[j]
      {
        assert Before(cells[i], cells[j]);
      }
    }
    Seqs.DistinctCardinality(cells);
  }

  /** Every draw lies in [0, 1), as `Math.random` promises. */
  ghost predicate UnitStream(rnd: nat -> real) {
    forall k: nat :: 0.0 <= rnd(k) < 1.0
  }

  lemma ScaleBelow(u: real, w: real)
    requires 0.0 <= u < 1.0 && 0.0 < w
    ensures 0.0 <= u * w < w
  {
    assert 0.0 < (1.0 - u) * w;
  }

  /** A draw scaled by a surface extent lands inside that extent. */
  lemma ScaledDraw(rnd: nat -> real, k: nat, extent: nat)
    ensures UnitStream(rnd) ==> 0.0 <= rnd(k) * extent as real
    ensures UnitStream(rnd) && 0 < extent ==> rnd(k) * extent as real < extent as real
  {
    if UnitStream(rnd) && 0 < extent {
      ScaleBelow(rnd(k), extent as real);
    }
  }

  /** Draw `k` scaled to a surface extent, as a random coordinate. */
  function Coordinate(rnd: nat -> real, k: nat, extent: nat): (v: real)
    ensures UnitStream(rnd) ==> 0.0 <= v
    ensures UnitStream(rnd) && 0 < extent ==> v < extent as real
  {
    ScaledDraw(rnd, k, extent);
    rnd(k) * extent as real
  }

  /**
   * The particle the engine creates for accepted cell `c` of a `w` by `h`
   * surface, reading draws `k` .. `k + 7`.
   */
  function Spawn(w: nat, h: nat, compact: bool, c: Cell, rnd: nat -> real, k: nat): (p: Particle)
    ensures p.baseX == c.x as real && p.baseY == c.y as real
    ensures p.targetX == p.baseX && p.targetY == p.baseY
    ensures p.vx == 0.0 && p.vy == 0.0 && p.vz == 0.0
    ensures UnitStream(rnd) ==>
      && 0.0 <= p.x && (0 < w ==> p.x < w as real)
      && 0.0 <= p.y && (0 < h ==> p.y < h as real)
      && -150.0 <= p.z < 150.0
      && -25.0 <= p.targetZ < 25.0
      && -25.0 <= p.baseZ < 25.0
      && 0.0 <= p.angle < 2.0 * Pi
      && -0.005 <= p.angleSpeed < 0.005
      && (compact ==> 1.0 <= p.radius < 2.5)
      && (!compact ==> 2.0 <= p.radius < 7.0)
  {
    var randomX := Coordinate(rnd, k, w);
    var randomY := Coordinate(rnd, k + 1, h);
    var randomZ := (rnd(k + 2) - 0.5) * 300.0;
    var baseJitter := if compact then 1.5 else 5.0;
    var jitterRadius := rnd(k + 3) * baseJitter + (if compact then 1.0 else 2.0);
    Particle(
      x := randomX, y := randomY, z := randomZ,
      targetX := c.x as real, targetY := c.y as real, targetZ := (rnd(k + 4) - 0.5) * 50.0,
      baseX := c.x as real, baseY := c.y as real, baseZ := (rnd(k + 5) - 0.5) * 50.0,
      vx := 0.0, vy := 0.0, vz := 0.0,
      angle := rnd(k + 6) * Pi * 2.0,
      angleSpeed := (rnd(k + 7) - 0.5) * 0.01,
      radius := jitterRadius)
  }

  /** One particle per accepted cell, the i-th reading draws from `8 * i` on. */
  function Build(w: nat, h: nat, compact: bool, cells: seq<Cell>, rnd: nat -> real): (ps: seq<Particle>)
    ensures |ps| == |cells|
  {
    seq(|cells|, i requires 0 <= i < |cells| => Spawn(w, h, compact, cells[i], rnd, DrawsPerParticle * i))
  }

  lemma BuildSnoc(w: nat, h: nat, compact: bool, cells: seq<Cell>, c: Cell, rnd: nat -> real)
    ensures Build(w, h, compact, cells + [c], rnd)
      == Build(w, h, compact, cells, rnd) + [Spawn(w, h, compact, c, rnd, DrawsPerParticle * |cells|)]
  {
  }

  /** The particle's anchor is the on-grid inked cell it was sampled from. */
  predicate SampledFrom(w: nat, h: nat, gap: nat, px: seq<int>, p: Particle)
    requires IsRaster(w, h, px) && 0 < gap
  {
    var cx := p.baseX.Floor;
    var cy := p.baseY.Floor;
    && 0 <= cx && 0 <= cy
    && cx as real == p.baseX && cy as real == p.baseY
    && Sampled(w, h, gap, px, Cell(cx, cy))
  }

  /**
   * The particle store after a (re)generation. A zero-area surface, or a
   * missing offscreen drawing context (`raster == None`), yields an empty
   * store. Otherwise there is one particle per inked grid cell, anchored at
   * that cell, so the count depends on the raster and the dimensions and not
   * on the random draws.
   */
  function Generate(w: nat, h: nat, raster: Option<seq<int>>, rnd: nat -> real): (ps: seq<Particle>)
    requires raster.Some? ==> IsRaster(w, h, raster.value)
    ensures w == 0 || h == 0 || raster.None? ==> ps == []
    ensures raster.Some? ==>
      |ps| == |AcceptedSet(w, h, ProfileFor(w).gap, raster.value)|
    ensures raster.Some? ==>
      forall i :: 0 <= i < |ps| ==> SampledFrom(w, h, ProfileFor(w).gap, raster.value, ps[i])
    ensures forall i :: 0 <= i < |ps| ==> ps[i].vx == 0.0 && ps[i].vy == 0.0 && ps[i].vz == 0.0
  {
    if w == 0 || h == 0 then
      AcceptedEmpty(w, h, raster);
      []
    else
      match raster
      case None => []
      case Some(px) =>
        var prof := ProfileFor(w);
        var cells := Cells(w, h, prof.gap, px);
        CellsExact(w, h, prof.gap, px);
        var ps := Build(w, h, prof.compact, cells, rnd);
        assert forall i :: 0 <= i < |ps| ==> cells[i] in cells && ps[i].baseX.Floor == cells[i].x && ps[i].baseY.Floor == cells[i].y;
        ps
  }

  /** A zero-area surface has no cells at all. */
  lemma AcceptedEmpty(w: nat, h: nat, raster: Option<seq<int>>)
    requires raster.Some? ==> IsRaster(w, h, raster.value)
    requires w == 0 || h == 0
    ensures raster.Some? ==> AcceptedSet(w, h, ProfileFor(w).gap, raster.value) == {}
  {
  }

  /** Every inked grid cell of the surface gets a particle anchored on it. */
  lemma EveryInkedCellSpawns(w: nat, h: nat, px: seq<int>, rnd: nat -> real, c: Cell)
    requires IsRaster(w, h, px)
    requires Sampled(w, h, ProfileFor(w).gap, px, c)
    ensures exists i ::
      && 0 <= i < |Generate(w, h, Some(px), rnd)|
      && Generate(w, h, Some(px), rnd)[i].baseX == c.x as real
      && Generate(w, h, Some(px), rnd)[i].baseY == c.y as real
  {
    var gap := ProfileFor(w).gap;
    CellsExact(w, h, gap, px);
    var cells := Cells(w, h, gap, px);
    var i :| 0 <= i < |cells| && cells[i] == c;
    assert Generate(w, h, Some(px), rnd)[i] == Spawn(w, h, ProfileFor(w).compact, c, rnd, DrawsPerParticle * i);
  }

  /** Two generations of the same surface differ at most in the random parts. */
  lemma RegenerationKeepsAnchors(w: nat, h: nat, raster: Option<seq<int>>, r1: nat -> real, r2: nat -> real)
    requires raster.Some? ==> IsRaster(w, h, raster.value)
    ensures |Generate(w, h, raster, r1)| == |Generate(w, h, raster, r2)|
    ensures forall i :: 0 <= i < |Generate(w, h, raster, r1)| ==>
      Generate(w, h, raster, r1)[i].baseX == Generate(w, h, raster, r2)[i].baseX &&
      Generate(w, h, raster, r1)[i].baseY == Generate(w, h, raster, r2)[i].baseY
  {
  }

  /** With draws in [0, 1), every new particle starts inside its documented bands. */
  lemma FreshParticlesInBands(w: nat, h: nat, raster: Option<seq<int>>, rnd: nat -> real)
    requires raster.Some? ==> IsRaster(w, h, raster.value)
    requires UnitStream(rnd)
    ensures forall p :: p in Generate(w, h, raster, rnd) ==>
      && 0.0 <= p.x < w as real && 0.0 <= p.y < h as real
      && -150.0 <= p.z < 150.0
      && -25.0 <= p.baseZ < 25.0
      && -25.0 <= p.targetZ < 25.0
      && 0.0 <= p.angle < 2.0 * Pi
      && -0.005 <= p.angleSpeed < 0.005
      && (w < CompactWidth ==> 1.0 <= p.radius < 2.5)
      && (CompactWidth <= w ==> 2.0 <= p.radius < 7.0)
  {
  }

  /**
   * The engine's nested sampling loops: rows top to bottom, columns left to
   * right, both by the profile's stride, pushing a particle for every inked
   * cell and consuming eight draws for it.
   */
  method SampleField(w: nat, h: nat, raster: Option<seq<int>>, rnd: nat -> real) returns (ps: seq<Particle>)
    requires raster.Some? ==> IsRaster(w, h, raster.value)
    ensures ps == Generate(w, h, raster, rnd)
  {
    ps := [];
    if w == 0 || h == 0 {
      return;
    }
    if raster.None? {
      return;
    }
    var px := raster.value;
    var prof := ProfileFor(w);
    ps := SampleRows(w, h, px, prof, rnd);
    GenerateSome(w, h, px, rnd);
  }

  /** The outer loop of the scan: rows top to bottom. */
  method SampleRows(w: nat, h: nat, px: seq<int>, prof: Profile, rnd: nat -> real) returns (ps: seq<Particle>)
    requires IsRaster(w, h, px) && 0 < prof.gap
    ensures ps == Build(w, h, prof.compact, Cells(w, h, prof.gap, px), rnd)
  {
    var gap := prof.gap;
    ghost var ink := InkMask(w, h, px);
    ghost var cells: seq<Cell> := [];
    ps := [];
    var y: nat := 0;
    while y < h
      invariant cells + Rows(w, h, gap, ink, y) == Cells(w, h, gap, px)
      invariant ps == Build(w, h, prof.compact, cells, rnd)
      decreases h - y
    {
      ghost var before := cells;
      ghost var row := RowCells(w, gap, ink, y, 0);
      ghost var rest := Rows(w, h, gap, ink, y + gap);
      assert Rows(w, h, gap, ink, y) == row + rest;
      ps, cells := SampleRow(w, h, px, prof, rnd, y, ps, cells);
      assert cells + rest == before + (row + rest);
      y := y + gap;
    }
  }

  /** The inner loop of the scan: one row, left to right. */
  method SampleRow(w: nat, h: nat, px: seq<int>, prof: Profile, rnd: nat -> real, y: nat,
                   ps0: seq<Particle>, ghost cells0: seq<Cell>)
    returns (ps: seq<Particle>, ghost cells: seq<Cell>)
    requires IsRaster(w, h, px) && 0 < prof.gap && y < h
    requires ps0 == Build(w, h, prof.compact, cells0, rnd)
    ensures cells == cells0 + RowCells(w, prof.gap, InkMask(w, h, px), y, 0)
    ensures ps == Build(w, h, prof.compact, cells0 + RowCells(w, prof.gap, InkMask(w, h, px), y, 0), rnd)
    ensures |ps| == |ps0| + |RowCells(w, prof.gap, InkMask(w, h, px), y, 0)|
  {
    var gap := prof.gap;
    ghost var ink := InkMask(w, h, px);
    ps, cells := ps0, cells0;
    var drawn: nat := DrawsPerParticle * |ps|;
    var x: nat := 0;
    while x < w
      invariant cells + RowCells(w, gap, ink, y, x) == cells0 + RowCells(w, gap, ink, y, 0)
      invariant ps == Build(w, h, prof.compact, cells, rnd)
      invariant drawn == DrawsPerParticle * |ps|
      decreases w - x
    {
      AlphaIndexInBounds(w, h, x, y);
      var index := (y * w + x) * 4;
      var alpha := px[index + 3];
      assert alpha > InkThreshold <==> ink(x, y);
      ghost var head := if ink(x, y) then [Cell(x, y)] else [];
      assert RowCells(w, gap, ink, y, x) == head + RowCells(w, gap, ink, y, x + gap);
      if alpha > InkThreshold {
        BuildSnoc(w, h, prof.compact, cells, Cell(x, y), rnd);
        ps := ps + [Spawn(w, h, prof.compact, Cell(x, y), rnd, drawn)];
        cells := cells + [Cell(x, y)];
        drawn := drawn + DrawsPerParticle;
      }
      x := x + gap;
    }
  }

  /** On a laid-out surface with a raster, generation builds one particle per scanned cell. */
  lemma GenerateSome(w: nat, h: nat, px: seq<int>, rnd: nat -> real)
    requires IsRaster(w, h, px) && 0 < w && 0 < h
    ensures Generate(w, h, Some(px), rnd)
      == Build(w, h, ProfileFor(w).compact, Cells(w, h, ProfileFor(w).gap, px), rnd)
  {
  }
}
