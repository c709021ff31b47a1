/**
 * The component's event-driven shell: mounting, resizing, pointer moves,
 * clicks and animation frames, each as a function from the engine state to
 * the next. Listener registration, frame scheduling and clean-up are not
 * modelled; each event is simply a call.
 */
module Engine {
  import opened RealMath
  import opened Particles
  import opened Field
  import opened Physics
  import opened Render
  import opened Links

  /** The clock advances by this much per frame. */
  const Tick: real := 0.01
  /** The click impulse is multiplied by this factor at the start of every frame. */
  const ImpulseDecay: real := 0.9
  /** The last frame after a click whose impulse still exceeds the 0.01 gate. */
  const LastBlastFrame: nat := 43

  /**
   * Everything the mounted component keeps between events: the shared
   * state, the particle store, whether another animation frame is scheduled,
   * and whether a dispersal callback was supplied when the component mounted
   * (the mount effect runs once and keeps the callback it saw then).
   */
  datatype Engine = Engine(sim: Sim, particles: seq<Particle>, running: bool, notifies: bool)

  /** What a click produces: the new state, and whether the dispersal callback ran. */
  datatype ClickOutcome = ClickOutcome(engine: Engine, dispersed: bool)

  /** What one animation frame paints, besides the state it leaves. */
  datatype FrameOut = FrameOut(engine: Engine, sprites: seq<Sprite>, lines: seq<Line>)

  /**
   * The surface changed size: adopt the viewport's size and regenerate the
   * whole particle store from the label rendered at that size. `raster` is
   * that rendering, or `None` when no offscreen context was available.
   */
  function Resize(e: Engine, viewW: nat, viewH: nat, raster: Option<seq<int>>, rnd: nat -> real): (r: Engine)
    requires raster.Some? ==> IsRaster(viewW, viewH, raster.value)
    ensures r.sim == e.sim.(width := viewW, height := viewH)
    ensures r.particles == Generate(viewW, viewH, raster, rnd)
    ensures viewW == 0 || viewH == 0 || raster.None? ==> r.particles == []
    ensures r.running == e.running && r.notifies == e.notifies
  {
    e.(sim := e.sim.(width := viewW, height := viewH), particles := Generate(viewW, viewH, raster, rnd))
  }

  /**
   * Mounting on a surface whose size is still `w0` by `h0`, with or without
   * a dispersal callback: the pointer starts at that surface's centre, the
   * clock and the impulse at zero, and the first resize then adopts the
   * viewport. The mount goes on to run the first frame at once, so no event
   * sees this state; `Start` is the mount together with that frame.
   */
  function Mount(w0: nat, h0: nat, viewW: nat, viewH: nat, raster: Option<seq<int>>, rnd: nat -> real, notifies: bool): (e: Engine)
    requires raster.Some? ==> IsRaster(viewW, viewH, raster.value)
    ensures e.sim.width == viewW && e.sim.height == viewH
    ensures e.sim.mouseX * 2.0 == w0 as real && e.sim.mouseY * 2.0 == h0 as real
    ensures e.sim.time == 0.0 && e.sim.clickForce == 0.0
    ensures e.sim.clickX == 0.0 && e.sim.clickY == 0.0
    ensures e.particles == Generate(viewW, viewH, raster, rnd)
    ensures e.running && e.notifies == notifies
  {
    var sim := Sim(w0, h0, w0 as real / 2.0, h0 as real / 2.0, 0.0, 0.0, 0.0, 0.0);
    Resize(Engine(sim, [], true, notifies), viewW, viewH, raster, rnd)
  }

  /**
   * The mount followed by its immediate first frame: the clock reads one
   * tick, the impulse is still zero, every generated particle has moved once
   * (or the frame stopped at the pole), and each has kept its anchor.
   */
  function Start(t: Trig, w0: nat, h0: nat, viewW: nat, viewH: nat, raster: Option<seq<int>>, rnd: nat -> real, notifies: bool): (out: FrameOut)
    requires raster.Some? ==> IsRaster(viewW, viewH, raster.value)
    ensures out.engine.sim.time == Tick && out.engine.sim.clickForce == 0.0
    ensures out.engine.sim.width == viewW && out.engine.sim.height == viewH
    ensures |out.engine.particles| == |Generate(viewW, viewH, raster, rnd)|
    ensures forall i :: 0 <= i < |out.engine.particles| ==>
      SameAnchor(out.engine.particles[i], Generate(viewW, viewH, raster, rnd)[i])
    ensures out.engine.notifies == notifies
  {
    Frame(t, Mount(w0, h0, viewW, viewH, raster, rnd, notifies))
  }

  /** The pointer moved to `(x, y)`: only the remembered pointer position changes. */
  function PointerMove(e: Engine, x: real, y: real): (r: Engine)
    ensures r.sim.mouseX == x && r.sim.mouseY == y
    ensures r == Engine(e.sim.(mouseX := x, mouseY := y), e.particles, e.running, e.notifies)
  {
    e.(sim := e.sim.(mouseX := x, mouseY := y))
  }

  /**
   * A click at `(x, y)`: full impulse from that origin, and the dispersal
   * callback runs on each click exactly when one was supplied at mount.
   */
  function Click(e: Engine, x: real, y: real): (out: ClickOutcome)
    ensures out.engine.sim.clickForce == 1.0
    ensures out.engine.sim.clickX == x && out.engine.sim.clickY == y
    ensures out.engine == e.(sim := e.sim.(clickForce := 1.0, clickX := x, clickY := y))
    ensures out.dispersed <==> e.notifies
  {
    ClickOutcome(e.(sim := e.sim.(clickForce := 1.0, clickX := x, clickY := y)), e.notifies)
  }

  /** The engine-level part of a frame, before any particle moves. */
  function BeginFrame(s: Sim): (r: Sim)
    ensures r == s.(time := s.time + Tick, clickForce := s.clickForce * ImpulseDecay)
    ensures 0.0 < s.clickForce ==> 0.0 < r.clickForce < s.clickForce
    ensures s.clickForce == 0.0 ==> r.clickForce == 0.0
  {
    s.(time := s.time + Tick, clickForce := s.clickForce * ImpulseDecay)
  }

  /** The position of the first particle at the pole (depth -400), or the store's size when there is none. */
  function PoleIndex(ps: seq<Particle>): (k: nat)
    ensures k <= |ps|
    ensures forall i :: 0 <= i < k ==> ps[i].z != -Focal
    ensures k < |ps| ==> ps[k].z == -Focal
  {
    if ps == [] then 0
    else if ps[0].z == -Focal then 0
    else 1 + PoleIndex(ps[1..])
  }

  /** Every particle of `ps` updated against the frame state `s`. */
  function Moved(t: Trig, s: Sim, ps: seq<Particle>): (ms: seq<Particle>)
    ensures |ms| == |ps|
    ensures forall i :: 0 <= i < |ps| ==> ms[i] == Step(t, s, ps[i])
  {
    seq(|ps|, i requires 0 <= i < |ps| => Step(t, s, ps[i]))
  }

  /** The store once the loop has updated the particles up to and including position `k`. */
  function Updated(moved: seq<Particle>, ps: seq<Particle>, k: nat): (after: seq<Particle>)
    requires |moved| == |ps|
    ensures |after| == |ps|
    ensures forall i :: 0 <= i < |ps| ==> after[i] == if i <= k then moved[i] else ps[i]
  {
    seq(|ps|, i requires 0 <= i < |ps| => if i <= k then moved[i] else ps[i])
  }

  /** The sprites of the first `k` particles of `after`, none of them at the pole. */
  function Paint(t: Trig, time: real, compact: bool, after: seq<Particle>, k: nat): (sprites: seq<Sprite>)
    requires k <= |after|
    requires forall i :: 0 <= i < k ==> after[i].z != -Focal
    ensures |sprites| == k
    ensures forall i :: 0 <= i < k ==> sprites[i] == SpriteOf(t, time, i, compact, after[i])
  {
    seq(k, i requires 0 <= i < k => SpriteOf(t, time, i, compact, after[i]))
  }

  /**
   * One animation frame: advance the clock and decay the impulse, then
   * update each particle in store order against the frame's state, paint it,
   * and draw its lines to the later, not yet updated, particles. A particle
   * whose updated depth is exactly -400 has an infinite glow radius, which
   * the gradient call rejects with an exception: the frame stops there, after
   * that particle's update and before its painting, the particles after it
   * keep their old state, and no further frame is scheduled. A frame on an
   * engine whose animation has stopped in this way does nothing.
   */
  function Frame(t: Trig, e: Engine): (out: FrameOut)
    ensures !e.running ==> out == FrameOut(e, [], [])
    ensures e.running ==> out.engine.sim == BeginFrame(e.sim)
    ensures out.engine.notifies == e.notifies
    ensures |out.engine.particles| == |e.particles| && |out.sprites| <= |e.particles|
    ensures e.running ==> forall i :: 0 <= i < |e.particles| ==>
      out.engine.particles[i] == if i <= |out.sprites| then Step(t, BeginFrame(e.sim), e.particles[i]) else e.particles[i]
    ensures e.running ==> (out.engine.running <==>
      forall i :: 0 <= i < |e.particles| ==> Step(t, BeginFrame(e.sim), e.particles[i]).z != -Focal)
    ensures e.running ==> (out.engine.running <==> |out.sprites| == |e.particles|)
    ensures e.running && |out.sprites| < |e.particles| ==> !out.engine.running && out.engine.particles[|out.sprites|].z == -Focal
    ensures forall i :: 0 <= i < |out.sprites| ==>
      && out.engine.particles[i].z != -Focal
      && out.sprites[i] == SpriteOf(t, out.engine.sim.time, i, e.sim.width < CompactWidth, out.engine.particles[i])
    ensures out.lines == LinesBelow(t, e.particles, out.engine.particles, |out.sprites|)
  {
    if !e.running then FrameOut(e, [], [])
    else
      var s := BeginFrame(e.sim);
      var moved := Moved(t, s, e.particles);
      var k := PoleIndex(moved);
      var after := Updated(moved, e.particles, k);
      FrameOut(Engine(s, after, k == |after|, e.notifies),
        Paint(t, s.time, s.width < CompactWidth, after, k),
        LinesBelow(t, e.particles, after, k))
  }

  /** The state after `n` frames. */
  function Elapse(t: Trig, e: Engine, n: nat): Engine
    decreases n
  {
    if n == 0 then e else Elapse(t, Frame(t, e).engine, n - 1)
  }

  /** What one frame keeps, in the terms `Elapse` needs. */
  lemma FrameKeeps(t: Trig, e: Engine)
    ensures Frame(t, e).engine.sim.(time := e.sim.time, clickForce := e.sim.clickForce) == e.sim
    ensures Frame(t, e).engine.notifies == e.notifies
    ensures |Frame(t, e).engine.particles| == |e.particles|
    ensures forall i :: 0 <= i < |e.particles| ==> SameAnchor(Frame(t, e).engine.particles[i], e.particles[i])
    ensures 0.0 <= e.sim.clickForce ==> 0.0 <= Frame(t, e).engine.sim.clickForce <= e.sim.clickForce
    ensures !e.running ==> Frame(t, e).engine == e
    ensures Frame(t, e).engine.running ==> e.running && Frame(t, e).engine.sim == BeginFrame(e.sim)
  {
    var out := Frame(t, e);
    forall i | 0 <= i < |e.particles|
      ensures SameAnchor(out.engine.particles[i], e.particles[i])
    {
      if e.running && i <= |out.sprites| {
        assert out.engine.particles[i] == Step(t, BeginFrame(e.sim), e.particles[i]);
      }
    }
  }

  /**
   * Frames never change the surface, the pointer, the click origin or the
   * dispersal flag, nor the number of particles or their anchors, and never
   * strengthen the impulse. Once the animation has stopped nothing changes.
   */
  lemma {:induction false} ElapseKeeps(t: Trig, e: Engine, n: nat)
    ensures Elapse(t, e, n).sim.width == e.sim.width && Elapse(t, e, n).sim.height == e.sim.height
    ensures Elapse(t, e, n).sim.mouseX == e.sim.mouseX && Elapse(t, e, n).sim.mouseY == e.sim.mouseY
    ensures Elapse(t, e, n).sim.clickX == e.sim.clickX && Elapse(t, e, n).sim.clickY == e.sim.clickY
    ensures Elapse(t, e, n).notifies == e.notifies
    ensures |Elapse(t, e, n).particles| == |e.particles|
    ensures forall i :: 0 <= i < |e.particles| ==> SameAnchor(Elapse(t, e, n).particles[i], e.particles[i])
    ensures 0.0 <= e.sim.clickForce ==> 0.0 <= Elapse(t, e, n).sim.clickForce <= e.sim.clickForce
    ensures !e.running ==> Elapse(t, e, n) == e
    decreases n
  {
    if n > 0 {
      var next := Frame(t, e).engine;
      FrameKeeps(t, e);
      ElapseKeeps(t, next, n - 1);
      assert Elapse(t, e, n) == Elapse(t, next, n - 1);
    }
  }

  /** An impulse `c` after `n` frames' decay, one factor at a time. */
  function Decayed(c: real, n: nat): real
    decreases n
  {
    if n == 0 then c else Decayed(c * ImpulseDecay, n - 1)
  }

  /** Decaying `n` times, one factor at a time, multiplies by 0.9^n. */
  lemma {:induction false} DecayedIsPow(c: real, n: nat)
    ensures Decayed(c, n) == c * Pow(ImpulseDecay, n)
    decreases n
  {
    if n > 0 {
      DecayedIsPow(c * ImpulseDecay, n - 1);
      assert Pow(ImpulseDecay, n) == ImpulseDecay * Pow(ImpulseDecay, n - 1);
    }
  }

  lemma DecayStep(c: real, d: real, n: nat)
    requires 0 < n && d == c * ImpulseDecay
    ensures Decayed(c, n) == Decayed(d, n - 1)
  {
  }

  /**
   * While the animation keeps running, the clock advances by 0.01 per frame
   * and the impulse shrinks by a factor 0.9 per frame.
   */
  lemma {:induction false} ElapseClock(t: Trig, e: Engine, n: nat)
    ensures Elapse(t, e, n).running ==>
      && e.running
      && Elapse(t, e, n).sim.time == e.sim.time + n as real * Tick
      && Elapse(t, e, n).sim.clickForce == Decayed(e.sim.clickForce, n)
    decreases n
  {
    if n > 0 {
      var next := Frame(t, e).engine;
      FrameKeeps(t, e);
      ElapseClock(t, next, n - 1);
      assert Elapse(t, e, n) == Elapse(t, next, n - 1);
      if Elapse(t, next, n - 1).running {
        DecayStep(e.sim.clickForce, next.sim.clickForce, n);
      }
    }
  }

  /**
   * The impulse after a click: 1 at the click, 0.9^n after `n` more frames
   * while the animation runs, so the `n`-th frame after a click (which first
   * decays the impulse and then applies it) uses 0.9^n.
   */
  lemma ImpulseAfterClick(t: Trig, e: Engine, x: real, y: real, n: nat)
    ensures Elapse(t, Click(e, x, y).engine, n).running ==>
      Elapse(t, Click(e, x, y).engine, n).sim.clickForce == Pow(ImpulseDecay, n)
  {
    ElapseClock(t, Click(e, x, y).engine, n);
    DecayedIsPow(1.0, n);
  }

  /** Exact values of 0.9^43 and 0.9^44, by repeated squaring. */
  lemma DecayEdges()
    ensures Pow(ImpulseDecay, 43) == 0.0107752636643058178097424660240453423951129
    ensures Pow(ImpulseDecay, 44) == 0.00969773729787523602876821942164080815560161
  {
    var a := ImpulseDecay;
    assert Pow(a, 1) == 0.9;
    PowAdd(a, 1, 1);
    assert Pow(a, 2) == 0.81;
    PowAdd(a, 2, 2);
    assert Pow(a, 4) == 0.6561;
    PowAdd(a, 4, 4);
    assert Pow(a, 8) == 0.43046721;
    PowAdd(a, 8, 8);
    assert Pow(a, 16) == 0.1853020188851841;
    PowAdd(a, 16, 16);
    assert Pow(a, 32) == 0.03433683820292512484657849089281;
    PowAdd(a, 32, 8);
    PowAdd(a, 40, 2);
    PowAdd(a, 42, 1);
    PowAdd(a, 40, 4);
  }

  /**
   * The explosion's window: after a click, frames 1 through 43 apply the
   * explosion and every later frame does not, since 0.9^43 > 0.01 >= 0.9^44.
   */
  lemma ExplosionWindow(n: nat)
    ensures ImpulseFloor < Pow(ImpulseDecay, n) <==> n <= LastBlastFrame
  {
    DecayEdges();
    if n <= LastBlastFrame {
      PowAntitone(ImpulseDecay, n, LastBlastFrame);
    } else {
      PowAntitone(ImpulseDecay, LastBlastFrame + 1, n);
    }
  }

  /** Without a click the impulse stays at zero, so no explosion ever acts. */
  lemma NoClickNoBlast(t: Trig, e: Engine, n: nat)
    requires e.sim.clickForce == 0.0
    ensures Elapse(t, e, n).sim.clickForce == 0.0
  {
    ElapseKeeps(t, e, n);
  }

  /** Frames on an empty store paint nothing, draw no lines and never stop the animation. */
  lemma EmptyFrame(t: Trig, e: Engine)
    requires e.particles == []
    ensures Frame(t, e).sprites == [] && Frame(t, e).lines == []
    ensures Frame(t, e).engine.running == e.running
  {
  }
}
