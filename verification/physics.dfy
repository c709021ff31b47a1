/**
 * The force model and integrator: what one animation frame does to one
 * particle, given the engine state of that frame (pointer position, click
 * impulse and click origin).
 *
 * Order within a frame: the orbit target is computed from the current
 * angle, then the angle advances; pointer repulsion and click explosion are
 * added to the planar velocity; the spring toward the target is added on all
 * three axes; velocity is damped; position moves by the damped velocity.
 */
module Physics {
  import opened RealMath
  import opened Particles

  /** Pointer repulsion acts strictly inside this planar distance. */
  const PointerRadius: real := 250.0
  const PointerGain: real := 4.0
  /** The click explosion acts strictly inside this planar distance of the click. */
  const ClickRadius: real := 600.0
  const ClickGain: real := 15.0
  /** The click explosion acts only while the impulse exceeds this value. */
  const ImpulseFloor: real := 0.01
  const SpringGain: real := 0.15
  /** Velocity is multiplied by this factor once per frame, after all forces. */
  const Damping: real := 0.9
  /** Amplitude of the orbit's depth wobble. */
  const OrbitLift: real := 10.0

  /** A change of planar velocity. */
  datatype Kick = Kick(dvx: real, dvy: real)

  const NoKick: Kick := Kick(0.0, 0.0)

  /** Pointer strength at distance `d`: 1 at the pointer, falling linearly to 0 at the radius. */
  function PointerFalloff(d: real): (f: real)
    ensures 0.0 <= d < PointerRadius ==> 0.0 < f <= 1.0
    ensures f == 1.0 <==> d == 0.0
  {
    (PointerRadius - d) / PointerRadius
  }

  /** Click strength at distance `d`: 1 at the origin, falling linearly to 0 at the radius. */
  function ClickFalloff(d: real): (f: real)
    ensures 0.0 <= d < ClickRadius ==> 0.0 < f <= 1.0
    ensures f == 1.0 <==> d == 0.0
  {
    (ClickRadius - d) / ClickRadius
  }

  /** The most a force of strength `f` and gain `g` can change one velocity component by. */
  function Reach(f: real, g: real): (r: real)
    requires 0.0 < g
    ensures 0.0 <= f ==> 0.0 <= r
    ensures f <= 1.0 ==> r <= g
  {
    f * g
  }

  /**
   * One component of a kick, `c * f * g`: a direction cosine `c` in [-1, 1]
   * times a non-negative strength `f` times a gain `g` is bounded by
   * `f * g`, so by the gain when `f` is at most 1, and for a positive
   * strength has the sign of `c`.
   */
  function Component(c: real, f: real, g: real): (v: real)
    requires 0.0 < g
    ensures -1.0 <= c <= 1.0 && 0.0 <= f ==> -Reach(f, g) <= v <= Reach(f, g)
    ensures -1.0 <= c <= 1.0 && 0.0 <= f <= 1.0 ==> -g <= v <= g
    ensures 0.0 < f && 0.0 < c ==> 0.0 < v
    ensures 0.0 < f && c < 0.0 ==> v < 0.0
    ensures c == 0.0 ==> v == 0.0
    ensures c == 1.0 ==> v == f * g
  {
    KickComponent(c, f, g);
    if -1.0 <= c <= 1.0 && 0.0 <= f then WithinReach(c, f, g); c * f * g else c * f * g
  }

  lemma WithinReach(c: real, f: real, g: real)
    requires 0.0 < g && -1.0 <= c <= 1.0 && 0.0 <= f
    ensures -Reach(f, g) <= c * f * g <= Reach(f, g)
  {
    CosineScaled(c, f);
    ScaleByGain(-f, c * f, g);
    ScaleByGain(c * f, f, g);
    assert (-f) * g == -(f * g);
  }

  /** Multiplying by a positive gain keeps order. */
  lemma ScaleByGain(a: real, b: real, g: real)
    requires a <= b && 0.0 < g
    ensures a * g <= b * g
  {
  }

  /** A factor in [-1, 1] keeps a non-negative `m` within [-m, m]. */
  lemma CosineScaled(c: real, m: real)
    requires -1.0 <= c <= 1.0 && 0.0 <= m
    ensures -m <= c * m <= m
  {
    if 0.0 <= c {
      assert c * m <= 1.0 * m;
    } else {
      assert (-c) * m <= 1.0 * m;
    }
  }

  lemma KickComponent(c: real, f: real, g: real)
    requires 0.0 < g
    ensures -1.0 <= c <= 1.0 && 0.0 <= f <= 1.0 ==> -g <= c * f * g <= g
    ensures 0.0 < f && 0.0 < c ==> 0.0 < c * f * g
    ensures 0.0 < f && c < 0.0 ==> c * f * g < 0.0
    ensures c == 0.0 ==> c * f * g == 0.0
    ensures c == 1.0 ==> c * f * g == f * g
  {
    if 0.0 <= f <= 1.0 {
      if 0.0 <= c <= 1.0 {
        assert c * f <= 1.0 * f;
        assert c * f * g <= 1.0 * g;
      } else if -1.0 <= c < 0.0 {
        assert (-c) * f <= 1.0 * f;
        assert (-c) * f * g <= 1.0 * g;
      }
    }
    if 0.0 < f && c < 0.0 {
      assert 0.0 < (-c) * f * g;
    }
  }

  /**
   * The kick of strength `f` and gain `g` along the direction whose cosine
   * and sine are `c` and `sn`, as both forces compute it.
   */
  function Directed(c: real, sn: real, f: real, g: real): (k: Kick)
    requires 0.0 < g
    ensures -1.0 <= c <= 1.0 && 0.0 <= f ==> -Reach(f, g) <= k.dvx <= Reach(f, g)
    ensures -1.0 <= sn <= 1.0 && 0.0 <= f ==> -Reach(f, g) <= k.dvy <= Reach(f, g)
    ensures -1.0 <= c <= 1.0 && 0.0 <= f <= 1.0 ==> -g <= k.dvx <= g
    ensures -1.0 <= sn <= 1.0 && 0.0 <= f <= 1.0 ==> -g <= k.dvy <= g
    ensures 0.0 < f ==>
      && (0.0 < c ==> 0.0 < k.dvx) && (c < 0.0 ==> k.dvx < 0.0)
      && (0.0 < sn ==> 0.0 < k.dvy) && (sn < 0.0 ==> k.dvy < 0.0)
    ensures c == 1.0 && sn == 0.0 ==> k == Kick(f * g, 0.0)
  {
    Kick(Component(c, f, g), Component(sn, f, g))
  }

  /**
   * The velocity change pointer repulsion gives a particle at `(x, y)`: none
   * at planar distance 250 or more; otherwise away from the pointer on each
   * axis, with strength up to 4 scaled by the falloff at that distance;
   * straight along -x when the pointer sits exactly on the particle.
   */
  function PointerKick(t: Trig, mouseX: real, mouseY: real, x: real, y: real): (k: Kick)
    ensures Hypot2(t, mouseX - x, mouseY - y) >= PointerRadius ==> k == NoKick
    ensures Lawful(t) && Hypot2(t, mouseX - x, mouseY - y) < PointerRadius ==>
      var reach := Reach(PointerFalloff(Hypot2(t, mouseX - x, mouseY - y)), PointerGain);
      -reach <= k.dvx <= reach && -reach <= k.dvy <= reach
    ensures Lawful(t) ==> -PointerGain <= k.dvx <= PointerGain && -PointerGain <= k.dvy <= PointerGain
    ensures Lawful(t) && Hypot2(t, mouseX - x, mouseY - y) < PointerRadius ==>
      && (x < mouseX ==> k.dvx < 0.0) && (mouseX < x ==> 0.0 < k.dvx)
      && (y < mouseY ==> k.dvy < 0.0) && (mouseY < y ==> 0.0 < k.dvy)
    ensures Lawful(t) && mouseX == x && mouseY == y ==> k == Kick(-PointerGain, 0.0)
  {
    var dx := mouseX - x;
    var dy := mouseY - y;
    var distance := Hypot2(t, dx, dy);
    Hypot2Facts(t, dx, dy);
    if distance < PointerRadius then
      var angle := t.atan2(dy, dx);
      UnitRange(t, angle);
      DirectionSigns(t, dy, dx);
      var push := Directed(t.cos(angle), t.sin(angle), PointerFalloff(distance), PointerGain);
      Kick(-push.dvx, -push.dvy)
    else
      NoKick
  }

  /**
   * The velocity change the click explosion gives a particle at `(x, y)`:
   * none once the impulse is at most 0.01 or at planar distance 600 or more
   * from the click; otherwise away from the click origin on each axis, with
   * strength up to 15 times the impulse scaled by the falloff at that
   * distance; straight along +x, at full strength, for a particle exactly at
   * the origin.
   */
  function ClickKick(t: Trig, clickForce: real, clickX: real, clickY: real, x: real, y: real): (k: Kick)
    ensures clickForce <= ImpulseFloor ==> k == NoKick
    ensures Hypot2(t, x - clickX, y - clickY) >= ClickRadius ==> k == NoKick
    ensures Lawful(t) && ImpulseFloor < clickForce && Hypot2(t, x - clickX, y - clickY) < ClickRadius ==>
      var reach := Reach(Attenuated(ClickFalloff(Hypot2(t, x - clickX, y - clickY)), clickForce), ClickGain);
      -reach <= k.dvx <= reach && -reach <= k.dvy <= reach
    ensures Lawful(t) && clickForce <= 1.0 ==>
      -ClickGain <= k.dvx <= ClickGain && -ClickGain <= k.dvy <= ClickGain
    ensures Lawful(t) && ImpulseFloor < clickForce && Hypot2(t, x - clickX, y - clickY) < ClickRadius ==>
      && (clickX < x ==> 0.0 < k.dvx) && (x < clickX ==> k.dvx < 0.0)
      && (clickY < y ==> 0.0 < k.dvy) && (y < clickY ==> k.dvy < 0.0)
    ensures Lawful(t) && ImpulseFloor < clickForce && x == clickX && y == clickY ==>
      k == Kick(ClickGain * clickForce, 0.0)
  {
    if clickForce > ImpulseFloor then
      var cdx := x - clickX;
      var cdy := y - clickY;
      var cdist := Hypot2(t, cdx, cdy);
      Hypot2Facts(t, cdx, cdy);
      if cdist < ClickRadius then
        var angle := t.atan2(cdy, cdx);
        UnitRange(t, angle);
        DirectionSigns(t, cdy, cdx);
        var explosionForce := Attenuated(ClickFalloff(cdist), clickForce);
        Directed(t.cos(angle), t.sin(angle), explosionForce, ClickGain)
      else
        NoKick
    else
      NoKick
  }

  /** The explosion strength: the distance falloff times the current impulse. */
  function Attenuated(falloff: real, impulse: real): (f: real)
    ensures 0.0 < falloff && 0.0 < impulse ==> 0.0 < f
    ensures 0.0 <= falloff <= 1.0 && 0.0 <= impulse <= 1.0 ==> 0.0 <= f <= 1.0
    ensures falloff == 1.0 ==> f == impulse
  {
    ImpulseScaled(falloff, impulse);
    falloff * impulse
  }

  lemma ImpulseScaled(f: real, c: real)
    ensures 0.0 < f && 0.0 < c ==> 0.0 < f * c
    ensures 0.0 <= f <= 1.0 && 0.0 <= c <= 1.0 ==> 0.0 <= f * c <= 1.0
  {
    if 0.0 <= f <= 1.0 && 0.0 <= c <= 1.0 {
      assert f * c <= 1.0 * c;
    }
  }

  /**
   * One frame for one particle, as the engine performs it, one mutation at a
   * time. The engine state `s` is the frame's, with the impulse already
   * decayed.
   */
  function Step(t: Trig, s: Sim, p: Particle): (r: Particle)
    ensures SameAnchor(r, p)
    ensures r.angle == p.angle + p.angleSpeed
    ensures r.targetX == p.baseX + t.cos(p.angle) * p.radius
    ensures r.targetY == p.baseY + t.sin(p.angle) * p.radius
    ensures r.targetZ == p.baseZ + t.sin(p.angle * 2.0) * OrbitLift
    ensures r.vx == Damping * (p.vx + PointerKick(t, s.mouseX, s.mouseY, p.x, p.y).dvx + ClickKick(t, s.clickForce, s.clickX, s.clickY, p.x, p.y).dvx + SpringGain * (r.targetX - p.x))
    ensures r.vy == Damping * (p.vy + PointerKick(t, s.mouseX, s.mouseY, p.x, p.y).dvy + ClickKick(t, s.clickForce, s.clickX, s.clickY, p.x, p.y).dvy + SpringGain * (r.targetY - p.y))
    ensures r.vz == Damping * (p.vz + SpringGain * (r.targetZ - p.z))
    ensures r.x == p.x + r.vx && r.y == p.y + r.vy && r.z == p.z + r.vz
  {
    // orbit target from the current angle, then advance the angle
    var p1 := p.(
      targetX := p.baseX + t.cos(p.angle) * p.radius,
      targetY := p.baseY + t.sin(p.angle) * p.radius,
      targetZ := p.baseZ + t.sin(p.angle * 2.0) * OrbitLift);
    var p2 := p1.(angle := p1.angle + p1.angleSpeed);
    // pointer repulsion
    var push := PointerKick(t, s.mouseX, s.mouseY, p2.x, p2.y);
    var p3 := p2.(vx := p2.vx + push.dvx, vy := p2.vy + push.dvy);
    // click explosion
    var blast := ClickKick(t, s.clickForce, s.clickX, s.clickY, p3.x, p3.y);
    var p4 := p3.(vx := p3.vx + blast.dvx, vy := p3.vy + blast.dvy);
    // spring toward the target
    var p5 := p4.(
      vx := p4.vx + (p4.targetX - p4.x) * SpringGain,
      vy := p4.vy + (p4.targetY - p4.y) * SpringGain,
      vz := p4.vz + (p4.targetZ - p4.z) * SpringGain);
    // damping
    var p6 := p5.(vx := p5.vx * Damping, vy := p5.vy * Damping, vz := p5.vz * Damping);
    // integration
    p6.(x := p6.x + p6.vx, y := p6.y + p6.vy, z := p6.z + p6.vz)
  }

  /**
   * Hard cutoff: once the pointer is 250 or more away, where exactly it is
   * makes no difference to the frame.
   */
  lemma PointerBeyondCutoffIsIgnored(t: Trig, s: Sim, p: Particle, mx: real, my: real)
    requires Hypot2(t, s.mouseX - p.x, s.mouseY - p.y) >= PointerRadius
    requires Hypot2(t, mx - p.x, my - p.y) >= PointerRadius
    ensures Step(t, s, p) == Step(t, s.(mouseX := mx, mouseY := my), p)
  {
    assert PointerKick(t, s.mouseX, s.mouseY, p.x, p.y) == NoKick;
    assert PointerKick(t, mx, my, p.x, p.y) == NoKick;
  }

  /** Once the impulse is at most 0.01, where the click was makes no difference to the frame. */
  lemma SpentImpulseIsIgnored(t: Trig, s: Sim, p: Particle, cx: real, cy: real, c: real)
    requires s.clickForce <= ImpulseFloor && c <= ImpulseFloor
    ensures Step(t, s, p) == Step(t, s.(clickX := cx, clickY := cy, clickForce := c), p)
  {
  }

  /** Neither the pointer nor the click ever touches depth velocity or depth. */
  lemma DepthIgnoresInput(t: Trig, s1: Sim, s2: Sim, p: Particle)
    ensures Step(t, s1, p).vz == Step(t, s2, p).vz
    ensures Step(t, s1, p).z == Step(t, s2, p).z
  {
  }

  /**
   * A particle at rest exactly on the target it is about to compute stays
   * put when neither the pointer nor a click reaches it.
   */
  lemma RestOnTargetStays(t: Trig, s: Sim, p: Particle)
    requires p.vx == 0.0 && p.vy == 0.0 && p.vz == 0.0
    requires p.x == p.baseX + t.cos(p.angle) * p.radius
    requires p.y == p.baseY + t.sin(p.angle) * p.radius
    requires p.z == p.baseZ + t.sin(p.angle * 2.0) * OrbitLift
    requires Hypot2(t, s.mouseX - p.x, s.mouseY - p.y) >= PointerRadius
    requires s.clickForce <= ImpulseFloor
    ensures Step(t, s, p).x == p.x && Step(t, s, p).y == p.y && Step(t, s, p).z == p.z
    ensures Step(t, s, p).vx == 0.0 && Step(t, s, p).vy == 0.0 && Step(t, s, p).vz == 0.0
  {
  }

  /**
   * With neither force reaching it, a particle at rest accelerates toward
   * the target it has just computed, on each axis.
   */
  lemma SpringPullsTowardTarget(t: Trig, s: Sim, p: Particle)
    requires p.vx == 0.0 && p.vy == 0.0 && p.vz == 0.0
    requires Hypot2(t, s.mouseX - p.x, s.mouseY - p.y) >= PointerRadius
    requires s.clickForce <= ImpulseFloor
    ensures var r := Step(t, s, p);
      && (p.x < r.targetX ==> 0.0 < r.vx) && (r.targetX < p.x ==> r.vx < 0.0)
      && (p.y < r.targetY ==> 0.0 < r.vy) && (r.targetY < p.y ==> r.vy < 0.0)
      && (p.z < r.targetZ ==> 0.0 < r.vz) && (r.targetZ < p.z ==> r.vz < 0.0)
  {
  }
}
