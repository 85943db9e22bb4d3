# Water surface animation — a verified model of its core

The program animates a plane of 101 x 101 vertices as a water surface. For
every frame it computes a height for each vertex (x, y) and writes it into
the z coordinate of the plane's position buffer. The height is the product of
two sine waves. Their common phase factor is the sum of three optional noise
terms: a "modified sine", an integer hash, and one-dimensional Perlin noise
fed by that hash. This project models that core in Dafny and proves
properties of it:

- `jsint.dfy` (module `JsInt`): the JavaScript operators the core uses,
  written out over exact integers. These are the int32 `^` and `&` (ToInt32,
  then a bitwise operation, then reinterpretation as signed), the remainder
  `%` that truncates toward zero, and `Math.trunc`.
- `noise.dfy` (module `Noise`): the integer hash and the 512-entry permutation
  table. It also holds `grad1`, `FADE`, `LERP` and `perlinNoise`, over `real`.
- `field.dfy` (module `Field`):
  - the animation attributes;
  - the per-vertex selection of the three noise terms;
  - the phase factor they add up to;
  - the two-wave height formula.

  `Math.sin` and `modSine` are function parameters.
- `grid.dfy` (module `Grid`): the nested vertex loop of the render step. It
  is an imperative method over an `array<real>` and is proved against a
  specification function of the old buffer. A class `WaterSurface` holds the
  state kept between frames: the frame time and the position buffer.

Integer arithmetic is exact, and every JavaScript wrap-around or truncation
is written out. Real arithmetic is exact: the model describes what the float
code computes in exact arithmetic, not its rounding.

### Two points about the code

- **`hash` values.** `34 * i ^ 2 + 10 * i` parses as `(34*i) ^ (2 + 10*i)`,
  because `^` binds more loosely than `+`. So hash(0) = 2, hash(1) = 46,
  hash(2) = 82 and hash(5) = 158 (`Noise.HashFixtures`).
- **Loop bound.** For an integer `ix`, `ix < Math.sqrt(count)` is
  `ix * ix < count`, so each loop runs `ceil(sqrt(count))` times
  (`Grid.CeilSqrt`, `Grid.LoopTest`). A non-square count is therefore fully
  covered, and the loop runs past the end of the buffer. The guarded write
  models the typed array ignoring those stores. On the real square plane the
  count is 101 * 101 (`Grid.PlaneGrid`).

### The permutation table

The table is one constant per source row. `PermRow1` to `PermRow13` are
wat.js:62-74 and hold the permutation; `PermRow1b` to `PermRow13b` are
wat.js:75-87 and write it out a second time. `PermRow<k>` is wat.js line
61 + k, and `PermRow<k>b` is wat.js line 74 + k.

## Model

| member | source | states |
|---|---|---|
| JsInt.JsXor | wat.js:56 | JavaScript `a ^ b` on integers; the result is a signed 32-bit integer |
| JsInt.Xor | wat.js:56 | no ensures beyond a non-negative result; the bitwise exclusive or under `^`, bit by bit from the lowest; see JsInt.XorBelow via JsXorOnNonNegative |
| JsInt.JsXorOnNonNegative | wat.js:56 | for operands in [0, 2^31), `^` is the plain bitwise exclusive or, and its result stays in [0, 2^31) |
| JsInt.JsAnd | wat.js:12-14 | JavaScript `a & b` on integers; the result is a signed 32-bit integer |
| JsInt.BitAnd | wat.js:12-14 | no ensures beyond a non-negative result; the bitwise and under `&`, bit by bit from the lowest; see JsAndMasks, which ties it to `%` |
| JsInt.JsAndMasks | wat.js:97-98 | for every integer n, including negative ones: `n & 15` is n mod 16, `n & 7` is n mod 8, `n & 255` is n mod 256, and `n & 8` is 8 times bit 3 |
| JsInt.JsRem | wat.js:56 | JavaScript `a % n`: the remainder takes the sign of the dividend, is smaller than n in magnitude, and differs from a by a multiple of n |
| JsInt.Trunc | wat.js:94 | `Math.trunc`: rounds toward zero, keeps the sign, and is off by less than 1 |
| Noise.Hash | wat.js:55-58 | `hash(i)` is `((34*i) ^ (2 + 10*i)) % 389`, with a result strictly between -389 and 389 |
| Noise.HashOnSafeRange | wat.js:55-58 | for 0 <= i with 34*i < 2^31, the hash is the exclusive or reduced modulo 389, and lies in [0, 389) |
| Noise.HashFixtures | wat.js:55-58 | hash(0) = 2, hash(1) = 46, hash(2) = 82, hash(5) = 158 |
| Noise.NestedHashInRange | wat.js:203-204 | for 0 <= ix < 101 and a safe iy, the input to the outer hash of `hash(hash(iy) + ix)` is in [0, 490), and the result is in [0, 389) |
| Noise.PermShape | wat.js:62-88 | the table `Perm` (rows PermRow1 to PermRow13b) has 512 entries, each in 0..255, and entry k + 256 equals entry k for every k < 256 |
| Noise.PerlinNoise | wat.js:89-105 | no ensures; `perlinNoise` step for step over the constant table `Perm` (wat.js:62-88, rows PermRow1 to PermRow13b); see PerlinZeroAtIntegers, PerlinPeriodic, PerlinBounded, PerlinBelowZero |
| Noise.PerlinNoiseOver | wat.js:89-105 | no ensures; the body of `perlinNoise` over any 512-entry table: Math.trunc, the fractional parts, the `& 0xff` wraps, FADE, two grad1 calls and 0.188 * LERP; the Perlin lemmas are proved about it |
| Noise.Gradient | wat.js:11-15 | the gradient coefficient is never 0 and at most 8 in magnitude |
| Noise.GradientBits | wat.js:11-15 | with JavaScript `&`: `hash & 15` is hash mod 16, `h & 7` is h mod 8, `h & 8` is set iff h >= 8, and Gradient equals the value `grad1` computes from these masks |
| Noise.GradientValue | wat.js:11-15 | the magnitude is 1 + (hash mod 8), and the coefficient is negative iff bit 3 of hash is set |
| Noise.Grad1 | wat.js:11-16 | `grad1(hash, x)` is 0 iff x is 0; for x > 0 its sign is the gradient's sign |
| Noise.Fade | wat.js:17-19 | no ensures; FADE(t) = t^3 (t (6t - 15) + 10); see FadeEnds, FadeInUnit |
| Noise.Lerp | wat.js:20-22 | no ensures; LERP(t, a, b) = a + t (b - a); see LerpEnds |
| Noise.WrapIndex | wat.js:97-98 | no ensures; the table index n mod 256; see WrapIndexIsJsAnd, which proves it equal to `n & 0xff` |
| Noise.FadeEnds | wat.js:17-19 | FADE(0) = 0 and FADE(1) = 1; FADE(1 - t) = 1 - FADE(t) |
| Noise.FadeInUnit | wat.js:17-19 | FADE maps [0, 1] into [0, 1] |
| Noise.LerpEnds | wat.js:20-22 | LERP(0, a, b) = a and LERP(1, a, b) = b; for t in [0, 1] the result lies between a and b |
| Noise.WrapIndexIsJsAnd | wat.js:97-98 | `n & 0xff` equals the index the model uses (n mod 256) for every integer n, and lies in 0..255; both table reads are in bounds |
| Noise.PerlinZeroAtIntegers | wat.js:89-105 | perlinNoise(k) = 0 for every integer k |
| Noise.PerlinPeriodic | wat.js:94-103 | for x >= 0, perlinNoise(x + 256) = perlinNoise(x): the wrapped indices repeat every 256 cells |
| Noise.PerlinBounded | wat.js:94-104 | for x >= 0, perlinNoise(x) lies in [-1.504, 1.504] (0.188 times the largest gradient 8) |
| Noise.PerlinBelowZero | wat.js:94-104 | perlinNoise(-0.5) is below -1.504 and differs from perlinNoise(255.5): the two properties above fail for negative x |
| Field.NoiseInput | wat.js:203-204 | no ensures; `hash(hash(iy) + ix) * noisescale / 100`; see NoiseInputNonNegative |
| Field.ModsTerm | wat.js:202 | no ensures; `modSine(iy * ix)` when modsineenabled, otherwise 1; see DisabledPhase, InitialPhaseRange |
| Field.HashedTerm | wat.js:203 | no ensures; the scaled nested hash when hashenabled, otherwise 1; see HashedTermRange, DisabledPhase |
| Field.PerlinTerm | wat.js:204 | no ensures; 100 times perlinNoise of the scaled nested hash when perlinenabled, otherwise 1; see PerlinTermBounded |
| Field.Phase | wat.js:202-208 | no ensures; the sum `mods + hashed + perlin` both sine waves share; see DisabledPhase, InitialPhaseRange |
| Field.Angle | wat.js:207-208 | no ensures; the sine argument `frame * speed / 10 * p` |
| Field.Wave | wat.js:206-208 | no ensures; amplitude * (amplitude1 * sin(angle1) * amplitude2 * sin(angle2)); see WaveBounded, HeightAtRest |
| Field.VertexHeight | wat.js:202-208 | no ensures; the z value written for vertex (ix, iy): Wave at that vertex's Phase; see DisabledHeightUniform, HeightAtRest, RenderedVertex |
| Field.Heights | wat.js:202-209 | no ensures; the height function of one frame, VertexHeight as a function of (ix, iy), passed to SampleGrid |
| Field.DisabledPhase | wat.js:202-204 | with all three noise flags off, each term defaults to 1 and the phase factor is 3 at every vertex |
| Field.DisabledHeightUniform | wat.js:202-208 | with all three noise flags off, every vertex of a frame gets the same height |
| Field.HeightAtRest | wat.js:206-208 | at frame time 0, with sin(0) = 0, every vertex has height 0 |
| Field.WaveBounded | wat.js:206-208 | if the sine is bounded by 1, the height is at most |amplitude * amplitude1 * amplitude2| in magnitude, for every phase |
| Field.HashedTermRange | wat.js:203 | on the 101 x 101 grid with a non-negative scale, the hash term lies in [0, 3.88 * noisescale] |
| Field.NoiseInputNonNegative | wat.js:204 | on the 101 x 101 grid with a non-negative scale, the Perlin input `hash(hash(iy) + ix) * noisescale / 100` is non-negative |
| Field.PerlinTermBounded | wat.js:204 | on the 101 x 101 grid with a non-negative scale, the Perlin term lies in [-150.4, 150.4] |
| Field.InitialPhaseRange | wat.js:43-53 | under the initial attributes (the constant `InitialAttributes`, field for field the GUI defaults), the modSine and hash terms are 1 and the phase of every grid vertex lies in [-148.4, 152.4] |
| Grid.CeilSqrt | wat.js:200-201 | the iteration count of `ix < Math.sqrt(count)`: the least n with n * n >= count |
| Grid.LoopTest | wat.js:200-201 | `ix * ix < count` holds exactly for the ix below CeilSqrt(count) |
| Grid.CeilSqrtOfSquare | wat.js:200-201 | for count = side * side, each loop runs exactly `side` times |
| Grid.PlaneGrid | wat.js:32-33 | 100 x 100 segments give 10201 vertices and a 101 x 101 traversal |
| Grid.SampleGrid | wat.js:199-214 | the loop turns the buffer into GridSample of the old buffer (counter invariant i = 3 * (ix * n + iy)), and every x and y slot keeps its value |
| Grid.GridSample | wat.js:199-214 | the buffer after one pass has the length of the old one; z slot of vertex v holds h(v / n, v % n) with n = CeilSqrt(count); see GridSampleAtVertex, ZSlotsCovered, GridSampleKeepsXY, GridSampleIdempotent |
| Grid.GridSampleAtVertex | wat.js:199-210 | on a square grid, slot 3 * (ix * side + iy) + 2 holds h(ix, iy) for every ix, iy < side |
| Grid.ZSlotsCovered | wat.js:199-210 | on a square grid every z slot belongs to a vertex inside the grid, so no z coordinate keeps its old value |
| Grid.ZSlotInjective | wat.js:206-209 | distinct vertices own distinct z slots, so each slot is written once |
| Grid.GridSampleKeepsXY | wat.js:206-209 | a pass leaves every x and y slot unchanged |
| Grid.GridSampleForgetsHeights | wat.js:206-209 | the result depends only on the x and y slots and on h, not on the old heights |
| Grid.GridSampleIdempotent | wat.js:199-214 | a second pass with the same heights changes nothing |
| Grid.WaterSurface.constructor | wat.js:192-194 | the animation starts at frame time 0 over the plane's buffer, with the attributes read once |
| Grid.WaterSurface.Render | wat.js:197-214 | a frame advances the time by 0.01, then rewrites the buffer with the vertex heights at the new time |
| Grid.RenderedVertex | wat.js:197-210 | after a frame on a square plane, vertex (ix, iy) carries VertexHeight at that frame's time |

## Left out

- The three.js scene, camera, plane geometry, material, light, orbit
  controls, GUI sliders, canvas resizing, `requestAnimationFrame` and the
  `needsUpdate` flag: library calls and browser I/O. The vertex count of the
  plane, (segments + 1)^2, is stated as a constant.
- `modSine` (wat.js:59-61): its value is the fractional part of
  `1e6 * Math.sin(i)`, which depends on floating-point rounding. It is a
  parameter `modSine: int -> real` of the model.
- `Math.sin`: a parameter `sin: real -> real`. Only its boundedness by 1 and
  sin(0) = 0 are assumed, and only in the lemmas that say so.
- Floating point: `FADE`, `LERP`, `grad1`, `perlinNoise`, the constant 0.188
  and the accumulation `frame += 0.01` are modelled over exact reals. The
  model makes no claim about bit-exact float results.
- Noise.Hash: the int32-safe range 0 <= i, 34 * i < 2^31 is where its
  properties are proved. Outside it, `^` wraps around as modelled by
  `JsInt.JsXor`, but nothing more is proved there.
- Noise.PerlinPeriodic and Noise.PerlinBounded: proved for x >= 0 only,
  because the code itself loses both properties below 0. `Math.trunc` rounds
  toward zero, so at x = -0.5 the cell is 0 and the fractional part is -0.5.
  FADE(-0.5) = -2.375 extrapolates, and entries 151 and 160 give
  perlinNoise(-0.5) = -1.86825, which is outside [-1.504, 1.504] and differs
  from perlinNoise(255.5) (`Noise.PerlinBelowZero`). Every input the animation
  passes is non-negative (`Field.NoiseInputNonNegative`).
- The attribute snapshot: the render step reads the attributes once into
  locals (wat.js:194). GUI edits therefore never reach it, and the model
  holds the configuration as constant fields of `WaterSurface`.
- The variables `mods`, `hashed` and `perlin` outlive the loop
  (wat.js:192). After a frame they hold the terms of the last vertex;
  nothing reads them there, so they are not modelled.
