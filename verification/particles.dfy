/**
 * The engine's records: one `Particle` per sampled glyph pixel, and the
 * simulation state the animation loop and the input handlers share.
 */
module Particles {

  /**
   * A particle, field for field as the engine keeps it. The base position
   * is the particle's home; the target is recomputed each frame from the
   * base and the orbit angle.
   */
  datatype Particle = Particle(
    x: real, y: real, z: real,
    targetX: real, targetY: real, targetZ: real,
    baseX: real, baseY: real, baseZ: real,
    vx: real, vy: real, vz: real,
    angle: real,
    angleSpeed: real,
    radius: real)

  /**
   * The state the animation loop owns: surface size in pixels, the last
   * pointer position, the frame clock, the click impulse and its origin.
   */
  datatype Sim = Sim(
    width: nat, height: nat,
    mouseX: real, mouseY: real,
    time: real,
    clickForce: real,
    clickX: real, clickY: real)

  /** The anchor, orbit speed and jitter radius: what a frame must never change. */
  predicate SameAnchor(p: Particle, q: Particle) {
    && p.baseX == q.baseX && p.baseY == q.baseY && p.baseZ == q.baseZ
    && p.angleSpeed == q.angleSpeed
    && p.radius == q.radius
  }
}
