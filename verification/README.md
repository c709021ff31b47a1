# Particle canvas engine, modelled in Dafny

A model of the particle engine behind the site's hero canvas
(`src/components/ParticleCanvas.tsx`). The engine renders the label "Aoba"
into an offscreen raster and samples it on a grid. Every inked grid cell
becomes a particle anchored there. Each animation frame then moves every
particle with five effects:

- an orbit around its anchor;
- repulsion from the pointer;
- a decaying explosion after a click;
- a spring back to its orbit target;
- damping.

The frame also paints each particle as a glow disc and a core disc. It draws
faint lines between particles that are close in space.

The model is split into modules that follow the program's structure:

- `RealMath` (`realmath.dfy`): the host's math library. Numbers are `real`s.
  `cos`, `sin`, `sqrt` and `atan2` are an uninterpreted `Trig` value. It is
  constrained only by the `Lawful` facts:
  - cosine and sine lie in [-1, 1];
  - the square root of a non-negative number is non-negative, positive for a
    positive argument, and 0 at 0;
  - for non-zero `x` the cosine of `atan2(y, x)` has the sign of `x`, and for
    non-zero `y` its sine has the sign of `y`;
  - `atan2(0, 0) = 0`, `cos 0 = 1` and `sin 0 = 0`.
- `Particles` (`particles.dfy`): the `Particle` record, and the engine state
  `Sim`. The state holds the surface size, the pointer, the clock, the click
  impulse and the click origin.
- `Seqs` (`seqs.dfy`): a duplicate-free sequence has as many elements as its set.
- `Field` (`field.dfy`): field generation. It covers:
  - the compact/standard profile;
  - the grid scan over the RGBA buffer;
  - the eight random draws per particle;
  - the imperative scan `SampleField`, written as loops with invariants.
- `Physics` (`physics.dfy`): one particle's update in one frame.
- `Render` and `Links` (`render.dfy`):
  - `Render` holds the numbers a particle is painted with;
  - `Links` holds the pair loop for the connective lines.
- `Engine` (`engine.dfy`): the event handlers (mount, resize, pointer move,
  click) and the whole frame. It also covers the impulse's life after a click.

The random draws are a stream `rnd: nat -> real`. The k-th accepted cell
reads draws `8k .. 8k+7`, in the order the source evaluates them: x, y, z,
jitter, target depth, base depth, angle, angular speed. The rasterised label
is an input `seq<int>` of length `4 * w * h`. It is `None` when no offscreen
context exists.

A few details of the code shape the model:

- The click handler calls the dispersal callback on every click, whenever one
  was supplied (lines 139-146). The mount effect has no dependencies and runs
  once, so the handler keeps the callback it saw at mount. The model records
  that as the engine's `notifies` flag.
- The initial pointer position is half the canvas size before the first
  resize, because lines 38-39 run before line 128.
- A new particle's initial `targetZ` is a random draw of its own (line 102),
  and the first frame overwrites it.
- The standard stride `max(4, floor(width / 150))` never reaches its floor.
  A standard surface is at least 768 wide, so its stride is at least 5.
- The mount ends by calling the frame function directly (line 277). `Start`
  is the mount followed by that frame.
- At depth exactly -400 the perspective division at line 220 is by zero. The
  glow radius `size * 2` passed to the gradient call at line 237 is then
  infinite, and that call throws. The exception leaves the frame after the
  particle's update and before its painting. Later particles keep their old
  state. The rescheduling at line 274 is never reached, so no further frame
  runs. The model's `Frame` stops at that particle in the same way, and the
  engine's `running` flag turns false. The pointer, click and resize handlers
  stay registered and keep working.

## Model

| member | source | states |
|---|---|---|
| `Field.ProfileFor` | src/components/ParticleCanvas.tsx:62-64 | compact exactly when the width is below 768; stride 10 on compact; otherwise floor(width/150), which is at least 5, so the floor of 4 never binds; font size is the smaller of its two candidates, so at most 160 on compact and at most 400 on standard |
| `Field.AlphaIndexInBounds` | src/components/ParticleCanvas.tsx:84-85 | the alpha byte `(y*w + x)*4 + 3` of any in-surface pixel lies inside the `4*w*h` buffer |
| `Field.CellsExact` | src/components/ParticleCanvas.tsx:82-87 | the scan yields exactly the on-grid cells inside the surface whose alpha exceeds 128, each once, in row-major order, so their count is the size of that set |
| `Field.Spawn` | src/components/ParticleCanvas.tsx:88-112 | a new particle is anchored and targeted at its cell and starts at rest; with draws in [0,1) its position lies in the surface, its depth in [-150,150), its base and target depth in [-25,25), its angle in [0,2π), its angular speed in [-0.005,0.005), and its jitter radius in [1,2.5) on compact and in [2,7) on standard |
| `Field.Generate` | src/components/ParticleCanvas.tsx:47-115 | a zero-area surface, or a missing offscreen context, leaves the store empty; otherwise there is one particle per accepted cell, each sampled from its on-grid inked cell, all at rest |
| `Field.AcceptedEmpty` | src/components/ParticleCanvas.tsx:52-55 | a surface of zero width or height has no accepted cells |
| `Field.EveryInkedCellSpawns` | src/components/ParticleCanvas.tsx:82-113 | every on-grid cell with alpha above 128 gets a particle anchored on it |
| `Field.RegenerationKeepsAnchors` | src/components/ParticleCanvas.tsx:82-113 | two generations of the same raster with different random draws agree on the count and on every anchor |
| `Field.FreshParticlesInBands` | src/components/ParticleCanvas.tsx:88-112 | with draws in [0,1), every particle of a fresh store starts inside the bands listed for `Spawn` |
| `Field.SampleField` | src/components/ParticleCanvas.tsx:47-115 | the imperative scan, with its early returns, builds exactly the store that `Generate` describes |
| `Field.SampleRows` | src/components/ParticleCanvas.tsx:82-115 | the outer loop over rows, stepping by the stride, builds one particle per accepted cell, in scan order |
| `Field.SampleRow` | src/components/ParticleCanvas.tsx:83-114 | the inner loop over one row reads the alpha byte in bounds and appends one particle per cell whose alpha exceeds 128, using eight draws for each |
| `Physics.PointerFalloff` | src/components/ParticleCanvas.tsx:179 | pointer strength is in (0,1] strictly inside the 250 cutoff, and is 1 exactly at distance 0 |
| `Physics.ClickFalloff` | src/components/ParticleCanvas.tsx:193 | click strength is in (0,1] strictly inside the 600 cutoff, and is 1 exactly at distance 0 |
| `Physics.Attenuated` | src/components/ParticleCanvas.tsx:193 | the explosion strength is positive for a positive falloff and impulse; it is at most 1 when both are in [0,1]; it equals the impulse at the origin |
| `Physics.Directed` | src/components/ParticleCanvas.tsx:181-182 | a kick of strength f along a direction changes each axis by at most f times its gain, so by at most the gain for f in [0,1]; for a positive strength, an axis whose direction cosine or sine is non-zero gets that sign |
| `Physics.PointerKick` | src/components/ParticleCanvas.tsx:173-183 | no kick at distance 250 or more; otherwise each axis is pushed away from the pointer, by at most 4 times the falloff (250-d)/250 at that distance, so by at most 4; a pointer exactly on the particle pushes along -x with strength 4 |
| `Physics.ClickKick` | src/components/ParticleCanvas.tsx:186-198 | no kick while the impulse is at most 0.01, or at distance 600 or more; otherwise each axis is pushed away from the click, by at most 15 times the falloff (600-d)/600 times the impulse, so by at most 15 for an impulse up to 1; a particle exactly at the origin is pushed along +x with strength 15 times the impulse |
| `Physics.Step` | src/components/ParticleCanvas.tsx:161-217 | the target is computed from the angle *before* the angle advances by its speed; per axis `v' = 0.9*(v + pointer + click + 0.15*(target - pos))`, with no pointer or click term on depth; `pos' = pos + v'`; anchor, speed and radius are kept |
| `Physics.PointerBeyondCutoffIsIgnored` | src/components/ParticleCanvas.tsx:173-183 | once the pointer is 250 or more away, moving it elsewhere beyond the cutoff does not change the frame |
| `Physics.SpentImpulseIsIgnored` | src/components/ParticleCanvas.tsx:186-198 | once the impulse is at most 0.01, neither its value nor the click origin changes the frame |
| `Physics.DepthIgnoresInput` | src/components/ParticleCanvas.tsx:173-217 | the pointer and the click never touch depth velocity or depth |
| `Physics.RestOnTargetStays` | src/components/ParticleCanvas.tsx:161-217 | a particle at rest on the target it is about to compute, out of reach of both forces, does not move |
| `Physics.SpringPullsTowardTarget` | src/components/ParticleCanvas.tsx:201-212 | a particle at rest, out of reach of both forces, accelerates toward its new target on every axis |
| `Render.SpriteSize` | src/components/ParticleCanvas.tsx:220-225 | away from depth -400, the core radius is `sizeBase*400/(400+z)` when that is at least 1 and exactly 1 otherwise, with size base 1.8 on compact and 2.5 on standard; so it is never below 1, and behind the pole it is 1 |
| `Render.NearerIsNotSmaller` | src/components/ParticleCanvas.tsx:220-225 | in front of the pole, a nearer particle is never drawn smaller |
| `Render.Brightness` | src/components/ParticleCanvas.tsx:228-229 | brightness lies in [0.4,1]; it is 0.4 at depth -40 or less and 1 at depth 200 or more; in between it is linear in depth |
| `Render.DeeperIsNotDimmer` | src/components/ParticleCanvas.tsx:228-229 | brightness never decreases with depth |
| `Render.Hue` | src/components/ParticleCanvas.tsx:232 | the hue stays in [185,215] and is 200 at phase 0 |
| `Render.Saturation` | src/components/ParticleCanvas.tsx:233 | the saturation stays in [60,90] and is 75 at phase 0 |
| `Render.Lightness` | src/components/ParticleCanvas.tsx:234 | lightness lies in [58,70] for a brightness in [0.4,1], and determines the brightness back |
| `Render.SpriteOf` | src/components/ParticleCanvas.tsx:219-251 | a particle away from depth -400 is painted at its updated planar position; its core radius is the perspective size for the surface's profile, and the glow radius is twice that (lines 237 and 244); its lightness is the one its depth's brightness gives, in [58,70], and the core is 15 points lighter; its hue and saturation are those of its index at the frame's clock, and lie in their bands |
| `Links.LineAlpha` | src/components/ParticleCanvas.tsx:263 | a line's opacity is in (0,0.25] strictly inside distance 40, and is 0.25 exactly at distance 0 |
| `Links.CloserIsNotFainter` | src/components/ParticleCanvas.tsx:263 | a closer pair never gets a fainter line |
| `Links.VisitsExact` | src/components/ParticleCanvas.tsx:254-255 | past the early return, the nested loops reach exactly the pairs i < j, each once, in lexicographic order, n(n-1)/2 of them: no self pairs and no pair in both orders |
| `Links.LineFor` | src/components/ParticleCanvas.tsx:257-268 | a line runs from particle i's updated position to particle j's not-yet-updated one; its opacity is (1 - d/40)*0.25 for their distance d, so in (0,0.25] when they are within 40 |
| `Links.LinesExact` | src/components/ParticleCanvas.tsx:254-271 | the first k outer iterations draw a line for (i,j) exactly when i < k, i < j, and the distance from i's new state to j's old state is below 40; each such pair gets exactly one line, in pair order, from i's new position to j's old one, with opacity (1 - d/40)*0.25 for that distance d; the number of lines equals the number of close pairs |
| `Links.LineCountBound` | src/components/ParticleCanvas.tsx:254-262 | a frame over n particles, whole or stopped early, draws at most n(n-1)/2 lines |
| `Engine.Mount` | src/components/ParticleCanvas.tsx:37-44 | at mount the pointer is at half the pre-resize canvas size; clock, impulse and click origin are zero; the first resize then adopts the viewport and generates the store; the animation is scheduled, and the dispersal flag is whether a callback was supplied |
| `Engine.Start` | src/components/ParticleCanvas.tsx:277 | the mount followed by its immediate first frame leaves the clock at 0.01 and the impulse at 0, the viewport's size, and the generated store's count and anchors |
| `Engine.Resize` | src/components/ParticleCanvas.tsx:121-125 | a resize adopts the viewport size and regenerates the whole store; it keeps the pointer, clock and impulse |
| `Engine.PointerMove` | src/components/ParticleCanvas.tsx:132-135 | a pointer move changes only the remembered pointer position |
| `Engine.Click` | src/components/ParticleCanvas.tsx:139-146 | a click sets the impulse to 1 and records the origin, and leaves everything else alone; it runs the dispersal callback exactly when one was supplied at mount, on every click |
| `Engine.BeginFrame` | src/components/ParticleCanvas.tsx:154-157 | each frame advances the clock by 0.01 and multiplies the impulse by 0.9 before any particle moves, so a positive impulse strictly shrinks and a zero impulse stays zero |
| `Engine.PoleIndex` | src/components/ParticleCanvas.tsx:220 | the position of the first particle at depth -400: every earlier particle is off the pole |
| `Engine.Frame` | src/components/ParticleCanvas.tsx:150-274 | a running frame updates the particles in order against the decayed state. It paints each with its index and the current width's profile, and draws the lines from new to old states. If an updated particle lands at depth -400, the frame stops after that update, unpainted: later particles keep their old state, no lines are drawn from it, and the animation stops. A stopped engine's frame changes nothing. The count is always kept |
| `Engine.FrameKeeps` | src/components/ParticleCanvas.tsx:150-274 | one frame keeps the surface, pointer, click origin, dispersal flag, count and anchors; it never raises a non-negative impulse; it only keeps the animation running if it was already running, and then applies the frame's clock and decay |
| `Engine.ElapseKeeps` | src/components/ParticleCanvas.tsx:150-274 | over n frames the surface, pointer, click origin, dispersal flag, count and anchors do not change, and a non-negative impulse never grows; once the animation has stopped, nothing changes |
| `Engine.ElapseClock` | src/components/ParticleCanvas.tsx:154-157 | if the animation is still running after n frames, it was running before them; the clock has advanced by 0.01n, and the impulse has been decayed n times |
| `Engine.DecayedIsPow` | src/components/ParticleCanvas.tsx:157 | decaying an impulse n times by 0.9 multiplies it by 0.9^n |
| `Engine.ImpulseAfterClick` | src/components/ParticleCanvas.tsx:140-157 | n frames after a click, with the animation still running, the impulse is exactly 0.9^n, so the first frame after the click applies 0.9 |
| `Engine.DecayEdges` | src/components/ParticleCanvas.tsx:157 | 0.9^43 and 0.9^44 have the exact values that put the gate between them |
| `Engine.ExplosionWindow` | src/components/ParticleCanvas.tsx:186 | 0.9^n exceeds the 0.01 gate exactly when n ≤ 43, so the explosion acts in frames 1 to 43 after a click and in no later frame |
| `Engine.NoClickNoBlast` | src/components/ParticleCanvas.tsx:157 | an impulse of zero stays zero through any number of frames |
| `Engine.EmptyFrame` | src/components/ParticleCanvas.tsx:159 | a frame over an empty store paints nothing, draws no lines, and never stops the animation |

## Left out

- Early returns when the component has no canvas element or no 2D context
  (lines 30-34). The model starts from a mounted canvas that has a context.
- Text rasterisation (lines 57-79): `fillText` on an offscreen canvas, then
  `getImageData`. The RGBA buffer is an input, and a missing offscreen context
  is the input `None`. The font size is computed but only reported, since it
  matters only to the rasteriser.
- `Math.random`. It is a stream of draws. The range facts assume each draw is in [0,1).
- `Math.cos`, `Math.sin`, `Math.sqrt`, `Math.atan2`. They are uninterpreted,
  with the sign and range facts of `Lawful` and no exact values. IEEE-754
  rounding is not modelled either: all arithmetic is exact over the reals.
  So no trajectory or convergence property is claimed.
- All drawing calls: the trail `fillRect`, gradients, arcs, strokes, and the
  style strings. They are rendering side effects. Only the numbers passed to
  them are modelled.
- Listener registration and removal, `requestAnimationFrame` scheduling, effect
  clean-up, `console.log`, and the `isDisappearing` opacity class. They are
  host plumbing. Each event is one call on the engine state.
- `Engine.Start`: when the first frame throws at depth -400, the exception leaves the mount effect itself. The model stops the animation as for any frame. How React handles an effect that throws is not modelled.
- `Render.Hue`: the [185,215] bound holds only under `Lawful`. Without facts
  about `Math.sin`, the hue is unconstrained.
- `Render.Saturation`: the [60,90] bound holds only under `Lawful`, for the same reason.
- `src/components/Portfolio.tsx` and `src/App.tsx` are not part of this
  model. They compose static page content and have no engine logic.
