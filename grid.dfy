/** The vertex loop of the render step: the position buffer holds x, y, z
    for each vertex in turn, and each frame rewrites only the z coordinates,
    visiting the vertices row by row with a counter that steps by 3. */
module Grid {
  import opened JsInt
  import opened Field

  // ---------------------------------------------------------------------
  // The grid side

  /** The number of iterations of `for (ix = 0; ix < Math.sqrt(count); ix++)`:
      for an integer ix >= 0 the test `ix < sqrt(count)` is `ix * ix < count`,
      so the loop runs the least n with n * n >= count times. */
  function CeilSqrt(count: nat): (n: nat)
    ensures count <= n * n
    ensures n == 0 || (n - 1) * (n - 1) < count
  {
    SqrtFrom(count, 0)
  }

  function SqrtFrom(count: nat, k: nat): (n: nat)
    requires k == 0 || (k - 1) * (k - 1) < count
    ensures count <= n * n
    ensures n == 0 || (n - 1) * (n - 1) < count
    decreases count - k
  {
    if k * k >= count then k
    else
      assert k < count by {
        if k > 0 { MulAtLeast(k, k); }
      }
      SqrtFrom(count, k + 1)
  }

  /** The loop test agrees with the side: an index passes `ix * ix < count`
      exactly when it lies below CeilSqrt(count). */
  lemma LoopTest(count: nat, ix: nat)
    ensures ix * ix < count <==> ix < CeilSqrt(count)
  {
    var n := CeilSqrt(count);
    if ix < n {
      SquareMonotone(ix, n - 1);
    } else {
      SquareMonotone(n, ix);
    }
  }

  lemma SquareMonotone(a: nat, b: nat)
    requires a <= b
    ensures a * a <= b * b
  {
    MulMonotone(a, b, a);
    MulMonotone(a, b, b);
  }

  lemma MulMonotone(a: nat, b: nat, c: nat)
    requires a <= b
    ensures a * c <= b * c
  {
    assert b * c == a * c + (b - a) * c;
  }

  /** On a square grid the loop runs exactly `side` rows of `side` vertices. */
  lemma CeilSqrtOfSquare(side: nat)
    ensures CeilSqrt(side * side) == side
  {
    var n := CeilSqrt(side * side);
    if n < side {
      SquareMonotone(n, side - 1);
    } else if n > side {
      SquareMonotone(side, n - 1);
    }
  }

  /** The plane is built with 100 width and 100 height segments. */
  const Segments: nat := 100

  /** A plane of s x s segments has (s + 1) * (s + 1) vertices. */
  const VertexCount: nat := (Segments + 1) * (Segments + 1)

  /** The animated plane has 10201 vertices on a 101 x 101 grid. */
  lemma PlaneGrid()
    ensures VertexCount == 10201
    ensures CeilSqrt(VertexCount) == 101
  {
    CeilSqrtOfSquare(101);
  }

  // ---------------------------------------------------------------------
  // The buffer after one pass

  /** Slot k of a buffer of `count` vertices after one pass of the loop with
      height function h: a z slot of vertex v gets h(v / n, v % n), where n
      is the number of rows the loop runs, and x and y slots keep their value. */
  function GridSample(s: seq<real>, count: nat, h: (int, int) -> real): (r: seq<real>)
    requires |s| == 3 * count
    ensures |r| == |s|
  {
    var n := CeilSqrt(count);
    seq(|s|, k requires 0 <= k < |s| =>
      if k % 3 == 2 then
        assert n > 0;
        h((k / 3) / n, (k / 3) % n)
      else s[k])
  }

  /** The vertex (ix, iy) of a grid with rows of n is vertex ix * n + iy, and
      the division recovers both indices. */
  lemma VertexOfSlot(ix: int, iy: int, n: int)
    requires 0 <= ix && 0 <= iy < n
    ensures (ix * n + iy) / n == ix && (ix * n + iy) % n == iy
  {
    DivUnique(ix * n + iy, n, ix, iy);
  }

  /** On a square grid the z slot of vertex (ix, iy) holds h(ix, iy). */
  lemma GridSampleAtVertex(s: seq<real>, side: nat, h: (int, int) -> real, ix: int, iy: int)
    requires |s| == 3 * (side * side)
    requires 0 <= ix < side && 0 <= iy < side
    ensures 3 * (ix * side + iy) + 2 < |s|
    ensures GridSample(s, side * side, h)[3 * (ix * side + iy) + 2] == h(ix, iy)
  {
    CeilSqrtOfSquare(side);
    var v := ix * side + iy;
    assert v < side * side by {
      MulMonotone(ix, side - 1, side);
    }
    var k := 3 * v + 2;
    assert k / 3 == v && k % 3 == 2;
    VertexOfSlot(ix, iy, side);
  }

  /** Every z slot of a square grid is the z slot of a vertex inside the
      grid, so no z coordinate keeps its old value. */
  lemma ZSlotsCovered(side: nat, k: int)
    requires 0 <= k < 3 * (side * side) && k % 3 == 2
    ensures 0 <= (k / 3) / side < side && 0 <= (k / 3) % side < side
    ensures k == 3 * (((k / 3) / side) * side + (k / 3) % side) + 2
  {
    var v := k / 3;
    assert side > 0;
    assert v < side * side;
    var ix, iy := v / side, v % side;
    assert v == ix * side + iy;
    if ix >= side {
      MulMonotone(side, ix, side);
    }
  }

  /** Distinct vertices own distinct z slots: each slot is written once. */
  lemma ZSlotInjective(side: nat, ix: int, iy: int, jx: int, jy: int)
    requires 0 <= ix && 0 <= jx && 0 <= iy < side && 0 <= jy < side
    requires 3 * (ix * side + iy) + 2 == 3 * (jx * side + jy) + 2
    ensures ix == jx && iy == jy
  {
    VertexOfSlot(ix, iy, side);
    VertexOfSlot(jx, jy, side);
  }

  /** The pass keeps every x and y coordinate. */
  lemma GridSampleKeepsXY(s: seq<real>, count: nat, h: (int, int) -> real, k: int)
    requires |s| == 3 * count && 0 <= k < |s| && k % 3 != 2
    ensures GridSample(s, count, h)[k] == s[k]
  {
  }

  /** The result depends only on the x and y coordinates of the input and on
      h: the old heights are forgotten. */
  lemma GridSampleForgetsHeights(s: seq<real>, t: seq<real>, count: nat, h: (int, int) -> real)
    requires |s| == 3 * count && |t| == 3 * count
    requires forall k :: 0 <= k < |s| && k % 3 != 2 ==> s[k] == t[k]
    ensures GridSample(s, count, h) == GridSample(t, count, h)
  {
    var a, b := GridSample(s, count, h), GridSample(t, count, h);
    assert forall k :: 0 <= k < |a| ==> a[k] == b[k];
  }

  /** A second pass with the same heights changes nothing. */
  lemma GridSampleIdempotent(s: seq<real>, count: nat, h: (int, int) -> real)
    requires |s| == 3 * count
    ensures GridSample(GridSample(s, count, h), count, h) == GridSample(s, count, h)
  {
    GridSampleForgetsHeights(GridSample(s, count, h), s, count, h);
  }

  // ---------------------------------------------------------------------
  // The loop

  /** The nested `for` loops of the render step over a position buffer of
      `count` vertices, writing `array[i + 2] = h(ix, iy)` with `i` stepping
      by 3. A typed array ignores writes past its end, which the guard on the
      write models. */
  method SampleGrid(a: array<real>, count: nat, h: (int, int) -> real)
    requires a.Length == 3 * count
    modifies a
    ensures a[..] == GridSample(old(a[..]), count, h)
    ensures forall k :: 0 <= k < a.Length && k % 3 != 2 ==> a[k] == old(a[k])
  {
    ghost var n := CeilSqrt(count);
    var i := 0;
    var ix := 0;
    LoopTest(count, ix);
    while ix * ix < count
      invariant 0 <= ix <= n
      invariant ix * ix < count <==> ix < n
      invariant i == 3 * (ix * n)
      invariant forall k :: 0 <= k < a.Length ==>
        a[k] == if k % 3 == 2 && k / 3 < ix * n then h((k / 3) / n, (k / 3) % n) else old(a[k])
      decreases n - ix
    {
      var iy := 0;
      LoopTest(count, iy);
      while iy * iy < count
        invariant 0 <= iy <= n
        invariant iy * iy < count <==> iy < n
        invariant i == 3 * (ix * n + iy)
        invariant forall k :: 0 <= k < a.Length ==>
          a[k] == if k % 3 == 2 && k / 3 < ix * n + iy then h((k / 3) / n, (k / 3) % n) else old(a[k])
        decreases n - iy
      {
        VertexOfSlot(ix, iy, n);
        if i + 2 < a.Length {
          a[i + 2] := h(ix, iy);
        }
        i := i + 3;
        iy := iy + 1;
        LoopTest(count, iy);
      }
      assert ix * n + n == (ix + 1) * n;
      ix := ix + 1;
      LoopTest(count, ix);
    }
    assert forall k :: 0 <= k < a.Length ==> k / 3 < ix * n;
  }

  // ---------------------------------------------------------------------
  // The animated surface

  /** The state the render step keeps between frames: the animation time
      `frame`, the vertex positions of the plane, and the configuration and
      noise functions fixed when the animation starts. */
  class WaterSurface {
    var frame: real
    const positions: array<real>
    const count: nat
    const config: NoiseConfig
    const sin: real -> real
    const modSine: int -> real

    ghost predicate Valid()
      reads this
    {
      positions.Length == 3 * count
    }

    constructor(positions: array<real>, count: nat, config: NoiseConfig,
                sin: real -> real, modSine: int -> real)
      requires positions.Length == 3 * count
      ensures Valid()
      ensures frame == 0.0
      ensures this.positions == positions && this.count == count && this.config == config
      ensures this.sin == sin && this.modSine == modSine
    {
      this.frame := 0.0;
      this.positions := positions;
      this.count := count;
      this.config := config;
      this.sin := sin;
      this.modSine := modSine;
    }

    /** One frame: advance the time by 0.01, then rewrite every z coordinate
        with the height of its vertex at the new time. */
    method Render()
      requires Valid()
      modifies this, positions
      ensures Valid()
      ensures frame == old(frame) + 0.01
      ensures positions[..] == GridSample(old(positions[..]), count, Heights(config, sin, modSine, frame))
    {
      frame := frame + 0.01;
      SampleGrid(positions, count, Heights(config, sin, modSine, frame));
    }
  }

  /** After a frame on a square plane every vertex (ix, iy) carries the
      height of that vertex at the frame's time, x and y untouched. */
  lemma RenderedVertex(s: seq<real>, side: nat, cfg: NoiseConfig, sin: real -> real,
                       modSine: int -> real, frame: real, ix: int, iy: int)
    requires |s| == 3 * (side * side)
    requires 0 <= ix < side && 0 <= iy < side
    ensures 3 * (ix * side + iy) + 2 < |s|
    ensures GridSample(s, side * side, Heights(cfg, sin, modSine, frame))[3 * (ix * side + iy) + 2]
         == VertexHeight(cfg, sin, modSine, frame, ix, iy)
  {
    GridSampleAtVertex(s, side, Heights(cfg, sin, modSine, frame), ix, iy);
  }
}
