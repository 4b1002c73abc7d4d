# Particle image and glass button — a Dafny model

Two three.js demo pages are modelled here.

The particle-image page (`src/imageOfParticule.js`) builds a point cloud on a 288 × 288 grid. The grid is 16 × a multiplier of 18 in each direction. Two flat position buffers hold three numbers per point:

- `vertices` holds the target grid point `(i, y, 0)`.
- `intPositions` holds the scattered start point `(i - nbColumns/2, y - nbLines/2, randFloat(0, 800))`.

Both buffers are filled by one nested loop, columns outside and lines inside. Point `k` is therefore column `k / nbLines` and line `k % nbLines`. The page's pointer handler maps the pointer to normalized device coordinates (NDC). It then sets the point-size uniform to 0.3 when the picking ray hits the cloud, and to 8 otherwise.

The glass-button page (`src/glassesButton.js`) has a click handler. A click that hits the button flips `isCubeGreen` and recolours the cube and the button text between red and green. Every frame, the button text glows at intensity 50 while the pointer ray hits the button, and at 1 otherwise. The text mesh exists only after its font has loaded.

Modules:

- `Pointer` (`pointer.dfy`): the client-to-NDC map, written once. All three pointer handlers compute this same expression: the particle page's move handler, the button page's click handler and its move handler. Both move handlers store the result, and the models of both call `Pointer.ToNdc`, so the pages agree by construction. The click handler uses the NDC only to aim its picking ray. Since the ray cast is an input, the click model receives the hit count directly. The module also has the inverse map and a round-trip lemma.
- `ParticleBuffers` (`particle_buffers.dfy`): the buffers, specified point by point. `BuildBuffers` is the nested loop, proved against that specification. Lemmas cover the grid's coverage and uniqueness, index alignment, the depth bound and determinism.
- `ParticleHover` (`particle_hover.dfy`): the point-size rule as a function of the latest pointer sample. It includes replays of many moves.
- `GlassesButton` (`glasses_button.dfy`): a state machine for the click, font-load, pointer-move and frame events. It has the colour invariant, the involution, the error path of a click before the font loads, the recovery by the next hit-click once the font has loaded, and the frame's hover loop.

How inputs are modelled:

- Ray casts are inputs. The click handler and the particle move handler receive the picking ray's intersection count. A frame receives the list of objects the ray hit.
- Randomness is an input. `randFloat(low, high)` is three.js's `low + Math.random() * (high - low)`, with one `Math.random()` sample supplied per point, in loop order.
- Numbers are reals. Integer grid indices are naturals.

Facts about the particle page that the model keeps as written:

- The loop does not centre the grid. `geometry.center()` (src/imageOfParticule.js:63) later shifts only `position`, by its bounding-box centre of 143.5. The start buffer is offset by `nbColumns/2` = 144. The model keeps the buffers as the loop writes them and does not claim the two layouts coincide after centring.
- The depth range is the literal `randFloat(0, 800)` (line 45). Nothing configures it and nothing can fail.
- The point size is written on every move (line 196), not only when the hit state changes. Last write wins.

## Model

| member | source | states |
|---|---|---|
| `Pointer.ToNdc` | src/imageOfParticule.js:187-188 | A client point lies inside the window exactly when its NDC lies in [-1, 1], for each axis separately. |
| `Pointer.NdcRoundTrip` | src/glassesButton.js:191-192 | The NDC map has an inverse. Client → NDC → client and NDC → client → NDC are both the identity. |
| `Pointer.NdcCorners` | src/glassesButton.js:221-222 | Client (0, 0) maps to (-1, 1). Client (width, height) maps to (1, -1). The window centre maps to (0, 0). |
| `Pointer.NdcMonotone` | src/imageOfParticule.js:187-188 | NDC x is strictly increasing in client x. NDC y is strictly decreasing in client y. Both are stated as if-and-only-if. |
| `ParticleBuffers.RandFloat` | src/imageOfParticule.js:45 | Given a generator sample in [0, 1), the draw lies in [low, high]. It lies strictly below high when low < high. |
| `ParticleBuffers.BuildBuffers` | src/imageOfParticule.js:42-50 | The nested column/line loop yields buffers of exactly 3·nbColumns·nbLines numbers. Point k of `vertices` is (k / nbLines, k % nbLines, 0). Point k of `intPositions` is that cell shifted by half the grid size, at the depth drawn from the k-th sample. |
| `ParticleBuffers.BuildImageBuffers` | src/imageOfParticule.js:35-50 | With the configured 288 × 288 grid, each buffer has 248,832 numbers and satisfies the same per-point layout. |
| `ParticleBuffers.ConfiguredGrid` | src/imageOfParticule.js:35-37 | nbColumns = nbLines = 16 · 18 = 288. The grid has 82,944 points, and half of 288 is exactly 144. |
| `ParticleBuffers.TargetHasEveryCell` | src/imageOfParticule.js:42-44 | Every cell (i, y) of [0, nbColumns) × [0, nbLines) appears in the target buffer, as (i, y, 0) at flat index i·nbLines + y. |
| `ParticleBuffers.TargetPointsInGrid` | src/imageOfParticule.js:44 | Every target point is an in-range cell, and every target z is 0. |
| `ParticleBuffers.TargetPointsDistinct` | src/imageOfParticule.js:42-47 | No two target points coincide, so each cell appears exactly once. |
| `ParticleBuffers.StartAlignedWithTarget` | src/imageOfParticule.js:44-48 | Start point k has planar coordinates equal to target point k's, minus (nbColumns/2, nbLines/2). |
| `ParticleBuffers.StartDepthBounded` | src/imageOfParticule.js:45 | With generator samples in [0, 1), every start depth lies in [0, 800). |
| `ParticleBuffers.BuffersDeterministic` | src/imageOfParticule.js:42-50 | For the same grid and the same samples, the target and start buffers are each uniquely determined. |
| `ParticleHover.Initial` | src/imageOfParticule.js:181-184 | Before any move, the pointer is at (0, 0), the cursor is not over the cloud, and the point size is the default 8 (`pointSize` at line 40, the uniform's initial value at line 68). |
| `ParticleHover.OnMouseMove` | src/imageOfParticule.js:186-197 | A move stores the pointer's NDC under the shared map. The hit flag is set exactly when the ray had intersections. The point size is 0.3 exactly on a hit and 8 exactly on a miss. |
| `ParticleHover.MoveForgetsPast` | src/imageOfParticule.js:194-196 | The handler's result does not depend on the state before the move. |
| `ParticleHover.MoveIdempotent` | src/imageOfParticule.js:194-196 | Handling the same pointer sample twice gives the same state as handling it once. |
| `ParticleHover.ReplayKeepsLatest` | src/imageOfParticule.js:186-197 | After any non-empty run of moves, the state is what the latest move alone produces. |
| `ParticleHover.ReplayConsistent` | src/imageOfParticule.js:194-196 | Any run of moves keeps the point size equal to 0.3 or 8, matching the hit flag. |
| `ParticleHover.HoldOnCloudStaysSmall` | src/imageOfParticule.js:194-196 | After a miss the size is 8. After the first hit and after every repeated hit that follows, it is 0.3: no oscillation. |
| `GlassesButton.Initial` | src/glassesButton.js:37-46 | The page starts with a red text material, no text mesh and the flag off. The cube is red too (line 76). The state is consistent. |
| `GlassesButton.OnFontLoaded` | src/glassesButton.js:56-72 | Loading the font creates the text mesh and changes nothing else. |
| `GlassesButton.OnCanvasClick` | src/glassesButton.js:188-210 | A miss changes nothing. A hit with the text loaded flips the flag, makes cube and text the colour the new flag names, and changes nothing else. A hit without the text throws a TypeError. In that case only the cube colour has been written, and it now names the opposite of the flag. |
| `GlassesButton.OnMouseMove` | src/glassesButton.js:220-223 | Stores the pointer's NDC under the same map as the other handlers and changes nothing else. |
| `GlassesButton.Tick` | src/glassesButton.js:245-260 | With the text loaded, the glow becomes 50 if the button mesh is among the ray's hits and 1 otherwise. Without the text, nothing changes. |
| `GlassesButton.ClickInvolution` | src/glassesButton.js:201-208 | On a loaded, consistent page, two hit-clicks restore the original state. |
| `GlassesButton.EarlyClickDesyncs` | src/glassesButton.js:202-203 | A hit-click before the font loads throws and leaves the flag unchanged. The cube colour no longer matches the flag. |
| `GlassesButton.RunKeepsConsistent` | src/glassesButton.js:199-209 | Any run of clicks, moves, font loads and frames that has no hit-click before the font loads keeps cube and text colours equal to the colour the flag names: green iff `isCubeGreen`, red otherwise. |
| `GlassesButton.HitClickResynchronises` | src/glassesButton.js:199-208 | Once the text has loaded, a hit-click after any run of events makes cube and text the colour the flag names again. |
| `GlassesButton.InitialEarlyClick` | src/glassesButton.js:185-208 | From the initial page, one hit-click before the font loads leaves the cube green while the flag stays false. The page stays out of step after the font loads, and the next hit-click puts it back in step. |

## Left out

- The scatter-to-grid transition and the noise that `uProgress` and `uFrequency` drive: they live in vertex and fragment shaders that are not part of this model. The page only copies GUI values into uniforms.
- The gsap tween of `uProgress` and the lil-gui panels: external animation and UI libraries.
- `geometry.center()`: a library call that translates only the `position` attribute. The model keeps the buffers as the loop writes them.
- The conversion of both buffers to `Float32Array` (src/imageOfParticule.js:54-55): single-precision rounding is not modelled. The grid coordinates and the half-grid offsets are exactly representable. A depth just below 800 (above 800 − 2⁻¹⁵) rounds up to exactly 800.0, so the shader's `initPosition` depths lie in [0, 800], not [0, 800) as `StartDepthBounded` proves for the JavaScript array.
- `Raycaster` and the camera: their results are inputs, so which pointer positions actually hit the cloud or the button is not modelled.
- Camera, lights, renderer, OrbitControls, texture, HDR and font loading: scene setup with no logic of its own. Font loading is reduced to the `FontLoaded` event.
- Resize handlers and the `requestAnimationFrame` tick loops: browser I/O and frame scheduling. A frame is a single `Frame` event.
- `src/glasses.js`: floating-point geometry and per-frame rotation, with no discrete logic.
- The commented-out particle code in `src/glassesButton.js`: dead code.
- Pointer.ToNdc: requires a window of positive size. For a zero-size window the browser's division yields infinities or NaN, which reals cannot represent.
