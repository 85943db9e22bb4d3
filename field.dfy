/** The per-vertex height of the water surface: the three optional noise
    terms chosen by the configuration flags, the phase they add up to, and
    the product of two sine waves scaled by the amplitudes. `Math.sin` and
    the `modSine` noise are parameters of the model. */
module Field {
  import opened Noise

  /** The animation attributes, read once into locals before the first frame. */
  datatype NoiseConfig = NoiseConfig(
    speed: real,
    speed2: real,
    noiseScale: real,
    amplitude: real,
    amplitude1: real,
    amplitude2: real,
    hashEnabled: bool,
    modSineEnabled: bool,
    perlinEnabled: bool)

  /** The attribute values the animation starts with. */
  const InitialAttributes: NoiseConfig :=
    NoiseConfig(2.0, 1.0, 1.0, 1.0 / 50.0, 1.0, 1.0, false, false, true)

  /** `hash(hash(iy) + ix) * noisescale / 100`: the nested hash of a vertex,
      scaled down to a noise coordinate. */
  function NoiseInput(cfg: NoiseConfig, ix: int, iy: int): (r: real)
  {
    ScaleHash(Hash(Hash(iy) + ix), cfg.noiseScale)
  }

  /** `h * noisescale / 100`. */
  function ScaleHash(h: int, scale: real): (r: real)
  {
    h as real * scale / 100.0
  }

  /** `mods`: `modSine(iy * ix)` when enabled, otherwise 1. */
  function ModsTerm(cfg: NoiseConfig, modSine: int -> real, ix: int, iy: int): (r: real)
  {
    if cfg.modSineEnabled then modSine(iy * ix) else 1.0
  }

  /** `hashed`: the scaled nested hash when enabled, otherwise 1. */
  function HashedTerm(cfg: NoiseConfig, ix: int, iy: int): (r: real)
  {
    if cfg.hashEnabled then NoiseInput(cfg, ix, iy) else 1.0
  }

  /** `perlin`: one hundred times the Perlin noise of the scaled nested hash
      when enabled, otherwise 1. */
  function PerlinTerm(cfg: NoiseConfig, ix: int, iy: int): (r: real)
  {
    if cfg.perlinEnabled then PerlinNoise(NoiseInput(cfg, ix, iy)) * 100.0 else 1.0
  }

  /** The phase factor `mods + hashed + perlin` shared by both sine waves. */
  function Phase(cfg: NoiseConfig, modSine: int -> real, ix: int, iy: int): (r: real)
  {
    ModsTerm(cfg, modSine, ix, iy) + HashedTerm(cfg, ix, iy) + PerlinTerm(cfg, ix, iy)
  }

  /** The product of the two sine waves at animation time `frame` for phase
      factor p: amplitude * (amplitude1 * sin(frame * speed / 10 * p) *
      amplitude2 * sin(frame * speed2 / 10 * p)). */
  function Wave(cfg: NoiseConfig, sin: real -> real, frame: real, p: real): (r: real)
  {
    cfg.amplitude * (cfg.amplitude1 * sin(Angle(frame, cfg.speed, p)) *
                     cfg.amplitude2 * sin(Angle(frame, cfg.speed2, p)))
  }

  /** The argument `frame * speed / 10 * p` of one sine wave. */
  function Angle(frame: real, speed: real, p: real): (r: real)
  {
    frame * speed / 10.0 * p
  }

  /** The z coordinate written for vertex (ix, iy) at animation time `frame`. */
  function VertexHeight(cfg: NoiseConfig, sin: real -> real, modSine: int -> real,
                        frame: real, ix: int, iy: int): (r: real)
  {
    Wave(cfg, sin, frame, Phase(cfg, modSine, ix, iy))
  }

  /** The height function of one frame, as a function of the vertex indices. */
  function Heights(cfg: NoiseConfig, sin: real -> real, modSine: int -> real,
                   frame: real): (h: (int, int) -> real)
  {
    (ix: int, iy: int) => VertexHeight(cfg, sin, modSine, frame, ix, iy)
  }

  predicate AllDisabled(cfg: NoiseConfig)
  {
    !cfg.hashEnabled && !cfg.modSineEnabled && !cfg.perlinEnabled
  }

  /** With every noise switched off each term falls back to 1, so the phase
      is 3 at every vertex, whatever `modSine` would have returned. */
  lemma DisabledPhase(cfg: NoiseConfig, modSine: int -> real, ix: int, iy: int)
    requires AllDisabled(cfg)
    ensures Phase(cfg, modSine, ix, iy) == 3.0
  {
  }

  /** With every noise switched off all vertices of a frame get the same height. */
  lemma DisabledHeightUniform(cfg: NoiseConfig, sin: real -> real, modSine: int -> real,
                              frame: real, ix: int, iy: int, jx: int, jy: int)
    requires AllDisabled(cfg)
    ensures VertexHeight(cfg, sin, modSine, frame, ix, iy)
         == VertexHeight(cfg, sin, modSine, frame, jx, jy)
  {
    DisabledPhase(cfg, modSine, ix, iy);
    DisabledPhase(cfg, modSine, jx, jy);
  }

  /** At frame 0 both sine arguments are 0, so a sine with sin(0) = 0 leaves
      every vertex at height 0. */
  lemma HeightAtRest(cfg: NoiseConfig, sin: real -> real, modSine: int -> real, ix: int, iy: int)
    requires sin(0.0) == 0.0
    ensures VertexHeight(cfg, sin, modSine, 0.0, ix, iy) == 0.0
  {
  }

  /** With a sine bounded by 1 the height never exceeds the product of the
      three amplitudes in magnitude, whatever the phase. */
  lemma WaveBounded(cfg: NoiseConfig, sin: real -> real, frame: real, p: real)
    requires forall t :: -1.0 <= sin(t) <= 1.0
    ensures -RealAbs(cfg.amplitude * cfg.amplitude1 * cfg.amplitude2)
            <= Wave(cfg, sin, frame, p)
            <= RealAbs(cfg.amplitude * cfg.amplitude1 * cfg.amplitude2)
  {
    AmplitudeBound(cfg, sin(Angle(frame, cfg.speed, p)), sin(Angle(frame, cfg.speed2, p)));
  }

  lemma AmplitudeBound(cfg: NoiseConfig, s1: real, s2: real)
    requires -1.0 <= s1 <= 1.0 && -1.0 <= s2 <= 1.0
    ensures var c := cfg.amplitude * cfg.amplitude1 * cfg.amplitude2;
            -RealAbs(c) <= cfg.amplitude * (cfg.amplitude1 * s1 * cfg.amplitude2 * s2) <= RealAbs(c)
  {
    var a, a1, a2 := cfg.amplitude, cfg.amplitude1, cfg.amplitude2;
    assert a1 * s1 * a2 * s2 == (a1 * a2) * (s1 * s2);
    assert a * ((a1 * a2) * (s1 * s2)) == (a * a1 * a2) * (s1 * s2);
    UnitProduct(s1, s2);
    ScaleUnit(a * a1 * a2, s1 * s2);
  }

  function RealAbs(x: real): (r: real)
    ensures r >= 0.0 && (r == x || r == -x)
  {
    if x >= 0.0 then x else -x
  }

  lemma UnitProduct(x: real, y: real)
    requires -1.0 <= x <= 1.0 && -1.0 <= y <= 1.0
    ensures -1.0 <= x * y <= 1.0
  {
    ScaledBound(8.0 * x, y);
  }

  lemma ScaleUnit(c: real, u: real)
    requires -1.0 <= u <= 1.0
    ensures -RealAbs(c) <= c * u <= RealAbs(c)
  {
    var a := RealAbs(c);
    MulNonNeg(a, 1.0 - u);
    MulNonNeg(a, 1.0 + u);
    assert c * u == a * u || c * u == -(a * u);
  }

  /** The hash term of a vertex of the 101 x 101 grid lies in
      [0, 3.88 * noisescale] for a non-negative scale: the nested hash
      is at most 388. */
  lemma HashedTermRange(cfg: NoiseConfig, ix: int, iy: int)
    requires cfg.hashEnabled && cfg.noiseScale >= 0.0
    requires 0 <= ix < 101 && 0 <= iy < 101
    ensures 0.0 <= HashedTerm(cfg, ix, iy) <= 3.88 * cfg.noiseScale
  {
    NestedHashInRange(ix, iy);
    ScaledHashRange(Hash(Hash(iy) + ix), cfg.noiseScale);
  }

  lemma ScaledHashRange(h: int, scale: real)
    requires 0 <= h < HashModulus && scale >= 0.0
    ensures 0.0 <= ScaleHash(h, scale) <= 3.88 * scale
  {
    MulNonNeg(h as real, scale);
    MulNonNeg(388.0 - h as real, scale);
  }

  /** The noise coordinate of a grid vertex is non-negative for a
      non-negative scale. */
  lemma NoiseInputNonNegative(cfg: NoiseConfig, ix: int, iy: int)
    requires cfg.noiseScale >= 0.0
    requires 0 <= ix < 101 && 0 <= iy < 101
    ensures NoiseInput(cfg, ix, iy) >= 0.0
  {
    NestedHashInRange(ix, iy);
    ScaledHashRange(Hash(Hash(iy) + ix), cfg.noiseScale);
  }

  /** The Perlin term of a grid vertex stays within 100 times the noise bound. */
  lemma PerlinTermBounded(cfg: NoiseConfig, ix: int, iy: int)
    requires cfg.perlinEnabled && cfg.noiseScale >= 0.0
    requires 0 <= ix < 101 && 0 <= iy < 101
    ensures -150.4 <= PerlinTerm(cfg, ix, iy) <= 150.4
  {
    NoiseInputNonNegative(cfg, ix, iy);
    PerlinBounded(NoiseInput(cfg, ix, iy));
  }

  /** Under the initial attributes only the Perlin term is live: the other two
      contribute 1 each and the phase of every grid vertex lies in
      [2 - 150.4, 2 + 150.4]. */
  lemma InitialPhaseRange(modSine: int -> real, ix: int, iy: int)
    requires 0 <= ix < 101 && 0 <= iy < 101
    ensures ModsTerm(InitialAttributes, modSine, ix, iy) == 1.0
    ensures HashedTerm(InitialAttributes, ix, iy) == 1.0
    ensures -148.4 <= Phase(InitialAttributes, modSine, ix, iy) <= 152.4
  {
    PerlinTermBounded(InitialAttributes, ix, iy);
  }
}
