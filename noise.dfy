/** The scalar noise primitives of the water animation: the integer hash,
    the 512-entry table (Ken Perlin's permutation of 0..255 written out
    twice), and one-dimensional Perlin noise with
    its gradient, fade and interpolation helpers. JavaScript numbers are
    modelled as exact integers where the code only ever holds integers and
    as reals elsewhere. */
module Noise {
  import opened JsInt

  // ---------------------------------------------------------------------
  // Integer hash

  const HashModulus: int := 389

  /** `hash(i)`: JavaScript reads `34 * i ^ 2 + 10 * i` as
      `(34 * i) ^ (2 + 10 * i)`, because `^` binds more loosely than `+`;
      `%` then truncates toward zero. */
  function Hash(i: int): (r: int)
    ensures -HashModulus < r < HashModulus
  {
    JsRem(JsXor(34 * i, 2 + 10 * i), HashModulus)
  }

  /** Inputs for which `34 * i` stays inside the non-negative int32 range. */
  predicate HashSafe(i: int)
  {
    0 <= i && 34 * i < 0x8000_0000
  }

  /** On the int32-safe range the hash is a plain exclusive or reduced modulo 389. */
  lemma HashOnSafeRange(i: int)
    requires HashSafe(i)
    ensures Hash(i) == Xor(34 * i, 2 + 10 * i) % HashModulus
    ensures 0 <= Hash(i) < HashModulus
  {
    JsXorOnNonNegative(34 * i, 2 + 10 * i);
  }

  /** The sequence the animation actually sees for its first grid indices. */
  lemma HashFixtures()
    ensures Hash(0) == 2 && Hash(1) == 46 && Hash(2) == 82 && Hash(5) == 158
  {
    HashOfSmall();
    HashOfTwo();
    HashOfFive();
  }

  // Each step of Xor halves both operands, so the values below are built
  // from the top bits down.

  lemma HashOfSmall()
    ensures Hash(0) == 2 && Hash(1) == 46
  {
    assert Xor(0, 2) == 2;
    HashOnSafeRange(0);
    assert Xor(2, 0) == 2 && Xor(4, 1) == 5 && Xor(8, 3) == 11;
    assert Xor(17, 6) == 23 && Xor(34, 12) == 46;
    HashOnSafeRange(1);
  }

  lemma HashOfTwo()
    ensures Hash(2) == 82
  {
    assert Xor(2, 0) == 2 && Xor(4, 1) == 5 && Xor(8, 2) == 10;
    assert Xor(17, 5) == 20 && Xor(34, 11) == 41 && Xor(68, 22) == 82;
    HashOnSafeRange(2);
  }

  lemma HashOfFive()
    ensures Hash(5) == 158
  {
    assert Xor(5, 1) == 4 && Xor(10, 3) == 9 && Xor(21, 6) == 19;
    assert Xor(42, 13) == 39 && Xor(85, 26) == 79 && Xor(170, 52) == 158;
    HashOnSafeRange(5);
  }

  /** The nested hash `hash(hash(iy) + ix)` of a grid vertex: the inner hash of
      a safe row index is non-negative, so the outer input stays below
      389 + ix and the outer hash lands in [0, 389). */
  lemma NestedHashInRange(ix: int, iy: int)
    requires 0 <= ix < 101 && HashSafe(iy)
    ensures 0 <= Hash(iy) + ix < 490
    ensures 0 <= Hash(Hash(iy) + ix) < HashModulus
  {
    HashOnSafeRange(iy);
    HashOnSafeRange(Hash(iy) + ix);
  }

  // ---------------------------------------------------------------------
  // Permutation table

  // The table as written, one constant per row: rows 1 to 13 hold the
  // permutation, rows 1b to 13b write it out a second time.
  const PermRow1: seq<int> := [151, 160, 137, 91, 90, 15]
  const PermRow2: seq<int> := [131, 13, 201, 95, 96, 53, 194, 233, 7, 225, 140, 36, 103, 30, 69, 142, 8, 99, 37, 240, 21, 10, 23]
  const PermRow3: seq<int> := [190, 6, 148, 247, 120, 234, 75, 0, 26, 197, 62, 94, 252, 219, 203, 117, 35, 11, 32, 57, 177, 33]
  const PermRow4: seq<int> := [88, 237, 149, 56, 87, 174, 20, 125, 136, 171, 168, 68, 175, 74, 165, 71, 134, 139, 48, 27, 166]
  const PermRow5: seq<int> := [77, 146, 158, 231, 83, 111, 229, 122, 60, 211, 133, 230, 220, 105, 92, 41, 55, 46, 245, 40, 244]
  const PermRow6: seq<int> := [102, 143, 54, 65, 25, 63, 161, 1, 216, 80, 73, 209, 76, 132, 187, 208, 89, 18, 169, 200, 196]
  const PermRow7: seq<int> := [135, 130, 116, 188, 159, 86, 164, 100, 109, 198, 173, 186, 3, 64, 52, 217, 226, 250, 124, 123]
  const PermRow8: seq<int> := [5, 202, 38, 147, 118, 126, 255, 82, 85, 212, 207, 206, 59, 227, 47, 16, 58, 17, 182, 189, 28, 42]
  const PermRow9: seq<int> := [223, 183, 170, 213, 119, 248, 152, 2, 44, 154, 163, 70, 221, 153, 101, 155, 167, 43, 172, 9]
  const PermRow10: seq<int> := [129, 22, 39, 253, 19, 98, 108, 110, 79, 113, 224, 232, 178, 185, 112, 104, 218, 246, 97, 228]
  const PermRow11: seq<int> := [251, 34, 242, 193, 238, 210, 144, 12, 191, 179, 162, 241, 81, 51, 145, 235, 249, 14, 239, 107]
  const PermRow12: seq<int> := [49, 192, 214, 31, 181, 199, 106, 157, 184, 84, 204, 176, 115, 121, 50, 45, 127, 4, 150, 254]
  const PermRow13: seq<int> := [138, 236, 205, 93, 222, 114, 67, 29, 24, 72, 243, 141, 128, 195, 78, 66, 215, 61, 156, 180]

  const PermRow1b: seq<int> := [151, 160, 137, 91, 90, 15]
  const PermRow2b: seq<int> := [131, 13, 201, 95, 96, 53, 194, 233, 7, 225, 140, 36, 103, 30, 69, 142, 8, 99, 37, 240, 21, 10, 23]
  const PermRow3b: seq<int> := [190, 6, 148, 247, 120, 234, 75, 0, 26, 197, 62, 94, 252, 219, 203, 117, 35, 11, 32, 57, 177, 33]
  const PermRow4b: seq<int> := [88, 237, 149, 56, 87, 174, 20, 125, 136, 171, 168, 68, 175, 74, 165, 71, 134, 139, 48, 27, 166]
  const PermRow5b: seq<int> := [77, 146, 158, 231, 83, 111, 229, 122, 60, 211, 133, 230, 220, 105, 92, 41, 55, 46, 245, 40, 244]
  const PermRow6b: seq<int> := [102, 143, 54, 65, 25, 63, 161, 1, 216, 80, 73, 209, 76, 132, 187, 208, 89, 18, 169, 200, 196]
  const PermRow7b: seq<int> := [135, 130, 116, 188, 159, 86, 164, 100, 109, 198, 173, 186, 3, 64, 52, 217, 226, 250, 124, 123]
  const PermRow8b: seq<int> := [5, 202, 38, 147, 118, 126, 255, 82, 85, 212, 207, 206, 59, 227, 47, 16, 58, 17, 182, 189, 28, 42]
  const PermRow9b: seq<int> := [223, 183, 170, 213, 119, 248, 152, 2, 44, 154, 163, 70, 221, 153, 101, 155, 167, 43, 172, 9]
  const PermRow10b: seq<int> := [129, 22, 39, 253, 19, 98, 108, 110, 79, 113, 224, 232, 178, 185, 112, 104, 218, 246, 97, 228]
  const PermRow11b: seq<int> := [251, 34, 242, 193, 238, 210, 144, 12, 191, 179, 162, 241, 81, 51, 145, 235, 249, 14, 239, 107]
  const PermRow12b: seq<int> := [49, 192, 214, 31, 181, 199, 106, 157, 184, 84, 204, 176, 115, 121, 50, 45, 127, 4, 150, 254]
  const PermRow13b: seq<int> := [138, 236, 205, 93, 222, 114, 67, 29, 24, 72, 243, 141, 128, 195, 78, 66, 215, 61, 156, 180]

  /** The first copy: Ken Perlin's permutation of 0..255. */
  const PermFirst: seq<int> :=
    PermRow1 + PermRow2 + PermRow3 + PermRow4 + PermRow5 + PermRow6 + PermRow7
    + PermRow8 + PermRow9 + PermRow10 + PermRow11 + PermRow12 + PermRow13

  /** The second copy. */
  const PermSecond: seq<int> :=
    PermRow1b + PermRow2b + PermRow3b + PermRow4b + PermRow5b + PermRow6b + PermRow7b
    + PermRow8b + PermRow9b + PermRow10b + PermRow11b + PermRow12b + PermRow13b

  /** `perm`: both copies, so that an index up to 511 needs no wrap. */
  const Perm: seq<int> := PermFirst + PermSecond

  predicate IsByteSeq(s: seq<int>)
  {
    forall k :: 0 <= k < |s| ==> 0 <= s[k] <= 255
  }

  lemma ByteSeqAppend(a: seq<int>, b: seq<int>)
    requires IsByteSeq(a) && IsByteSeq(b)
    ensures IsByteSeq(a + b)
  {
    forall k | 0 <= k < |a + b| ensures 0 <= (a + b)[k] <= 255 {
      if k >= |a| {
        assert (a + b)[k] == b[k - |a|];
      }
    }
  }

  lemma Rows1To3AreBytes()
    ensures IsByteSeq(PermRow1) && IsByteSeq(PermRow2) && IsByteSeq(PermRow3)
  {
  }

  lemma Rows4To6AreBytes()
    ensures IsByteSeq(PermRow4) && IsByteSeq(PermRow5) && IsByteSeq(PermRow6)
  {
  }

  lemma Rows7To9AreBytes()
    ensures IsByteSeq(PermRow7) && IsByteSeq(PermRow8) && IsByteSeq(PermRow9)
  {
  }

  lemma Rows10To13AreBytes()
    ensures IsByteSeq(PermRow10) && IsByteSeq(PermRow11) && IsByteSeq(PermRow12) && IsByteSeq(PermRow13)
  {
  }

  lemma PermFirstBytes()
    ensures |PermFirst| == 256 && IsByteSeq(PermFirst)
  {
    Rows1To3AreBytes();
    Rows4To6AreBytes();
    Rows7To9AreBytes();
    Rows10To13AreBytes();
    var acc := PermRow1;
    ByteSeqAppend(acc, PermRow2); acc := acc + PermRow2;
    ByteSeqAppend(acc, PermRow3); acc := acc + PermRow3;
    ByteSeqAppend(acc, PermRow4); acc := acc + PermRow4;
    ByteSeqAppend(acc, PermRow5); acc := acc + PermRow5;
    ByteSeqAppend(acc, PermRow6); acc := acc + PermRow6;
    ByteSeqAppend(acc, PermRow7); acc := acc + PermRow7;
    ByteSeqAppend(acc, PermRow8); acc := acc + PermRow8;
    ByteSeqAppend(acc, PermRow9); acc := acc + PermRow9;
    ByteSeqAppend(acc, PermRow10); acc := acc + PermRow10;
    ByteSeqAppend(acc, PermRow11); acc := acc + PermRow11;
    ByteSeqAppend(acc, PermRow12); acc := acc + PermRow12;
    ByteSeqAppend(acc, PermRow13); acc := acc + PermRow13;
    assert acc == PermFirst;
  }

  /** The second copy repeats the first line for line. */
  lemma CopiesAgree()
    ensures PermSecond == PermFirst
  {
    assert PermRow1b == PermRow1 && PermRow2b == PermRow2 && PermRow3b == PermRow3;
    assert PermRow4b == PermRow4 && PermRow5b == PermRow5 && PermRow6b == PermRow6;
    assert PermRow7b == PermRow7 && PermRow8b == PermRow8 && PermRow9b == PermRow9;
    assert PermRow10b == PermRow10 && PermRow11b == PermRow11 && PermRow12b == PermRow12;
    assert PermRow13b == PermRow13;
  }

  lemma PermLength()
    ensures |Perm| == 512
  {
    CopiesAgree();
  }

  /** The table has 512 byte entries and its second half repeats its first. */
  lemma PermShape()
    ensures |Perm| == 512
    ensures IsByteSeq(Perm)
    ensures forall k :: 0 <= k < 256 ==> Perm[k + 256] == Perm[k]
  {
    PermFirstBytes();
    CopiesAgree();
    Doubled(PermFirst);
  }

  lemma Doubled(a: seq<int>)
    requires IsByteSeq(a)
    ensures IsByteSeq(a + a)
    ensures forall k :: 0 <= k < |a| ==> (a + a)[k + |a|] == (a + a)[k]
  {
    ByteSeqAppend(a, a);
  }

  // ---------------------------------------------------------------------
  // One-dimensional Perlin noise

  /** The local `grad` of `grad1`, with `h = hash & 15`: the magnitude
      `1 + (h & 7)`, negated when `h & 8` is set. The masks are written as
      the remainders they equal; GradientBits proves that JavaScript's int32
      `&` gives exactly these values for every integer. */
  function Gradient(hash: int): (g: int)
    ensures 1 <= Abs(g) <= 8
  {
    var h := hash % 16;
    var grad := 1 + h % 8;
    if h >= 8 then -grad else grad
  }

  /** The three bit tests of `grad1` under JavaScript semantics: `hash & 15`
      is `hash % 16`, `h & 7` is `h % 8` and `h & 8` is non-zero exactly when
      h >= 8, so Gradient is the value `grad1` computes. */
  lemma GradientBits(hash: int)
    ensures JsAnd(hash, 15) == hash % 16
    ensures JsAnd(hash % 16, 7) == (hash % 16) % 8
    ensures JsAnd(hash % 16, 8) != 0 <==> hash % 16 >= 8
    ensures var h := JsAnd(hash, 15);
            Gradient(hash) == if JsAnd(h, 8) != 0 then -(1 + JsAnd(h, 7)) else 1 + JsAnd(h, 7)
  {
    var m := hash % 16;
    assert m % 16 == m;
    JsAndMasks(hash);
    JsAndMasks(m);
  }

  /** In gradient terms: the magnitude is 1 plus the low three bits and the
      sign is bit 3 of the low nibble. */
  lemma GradientValue(hash: int)
    ensures Abs(Gradient(hash)) == 1 + hash % 8
    ensures Gradient(hash) < 0 <==> (hash / 8) % 2 == 1
  {
    var h := hash % 16;
    assert h % 8 == hash % 8;
    assert h >= 8 <==> (hash / 8) % 2 == 1;
  }

  /** `grad1(hash, x)`: the gradient times the distance `x`. */
  function Grad1(hash: int, x: real): (r: real)
    ensures r == 0.0 <==> x == 0.0
    ensures x > 0.0 ==> (r < 0.0 <==> Gradient(hash) < 0)
  {
    var g := Gradient(hash) as real;
    assert g != 0.0;
    if x > 0.0 && g < 0.0 then MulNegPos(g, x); g * x
    else if x > 0.0 then MulPosPos(g, x); g * x
    else g * x
  }

  /** `FADE(t)`: the quintic fade curve t^3 (t (6 t - 15) + 10). */
  function Fade(t: real): (r: real)
  {
    t * t * t * (t * (t * 6.0 - 15.0) + 10.0)
  }

  /** `LERP(t, a, b)`: linear interpolation from a (at t = 0) to b (at t = 1). */
  function Lerp(t: real, a: real, b: real): (r: real)
  {
    a + t * (b - a)
  }

  /** The noise scale constant of `perlinNoise`. */
  const PerlinScale: real := 0.188

  /** `n & 0xff`: the table index of an integer cell, wrapped to 0..255,
      written as the remainder it equals (WrapIndexIsJsAnd). */
  function WrapIndex(n: int): (r: int)
  {
    n % 256
  }

  /** JavaScript's `n & 0xff` is the Euclidean remainder modulo 256 for every
      integer, negative ones included, and lies in 0..255. */
  lemma WrapIndexIsJsAnd(n: int)
    ensures JsAnd(n, 0xff) == WrapIndex(n)
    ensures 0 <= JsAnd(n, 0xff) < 256
  {
    JsAndMasks(n);
  }

  /** `perlinNoise(x)`: the integer part `ix0 = Math.trunc(x)` selects two
      table entries (cells ix0 and ix0 + 1, wrapped), whose gradients are
      evaluated at the two signed distances and blended with the fade of the
      fractional part. */
  function PerlinNoise(x: real): (r: real)
  {
    PermLength();
    PerlinNoiseOver(Perm, x)
  }

  /** The computation of `perlinNoise` with the table as a parameter, so
      that the lemmas below hold for every 512-entry table. */
  function PerlinNoiseOver(perm: seq<int>, x: real): (r: real)
    requires |perm| == 512
  {
    var ix0 := Trunc(x);
    var fx0 := x - ix0 as real;
    var fx1 := fx0 - 1.0;
    var ix1 := WrapIndex(ix0 + 1);
    var ix0w := WrapIndex(ix0);
    var s := Fade(fx0);
    var n0 := Grad1(perm[ix0w], fx0);
    var n1 := Grad1(perm[ix1], fx1);
    PerlinScale * Lerp(s, n0, n1)
  }

  // ---------------------------------------------------------------------
  // Lemmas about the Perlin helpers and the noise

  /** The fade curve pins both ends of the unit interval and is symmetric about 1/2. */
  lemma FadeEnds(t: real)
    ensures Fade(0.0) == 0.0 && Fade(1.0) == 1.0
    ensures Fade(1.0 - t) == 1.0 - Fade(t)
  {
  }

  /** The fade of a point of the unit interval stays in the unit interval. */
  lemma FadeInUnit(t: real)
    requires 0.0 <= t <= 1.0
    ensures 0.0 <= Fade(t) <= 1.0
  {
    FadeNonNegative(t);
    FadeNonNegative(1.0 - t);
    FadeEnds(t);
  }

  lemma FadeNonNegative(t: real)
    requires 0.0 <= t
    ensures 0.0 <= Fade(t)
  {
    var q := t * (t * 6.0 - 15.0) + 10.0;
    assert q == 6.0 * (t - 1.25) * (t - 1.25) + 0.625;
    SquareNonNeg(t - 1.25);
    assert q > 0.0;
    MulNonNeg(t, t);
    MulNonNeg(t * t, t);
    MulNonNeg(t * t * t, q);
  }

  /** Interpolation returns its end points at 0 and 1 and stays between them inside. */
  lemma LerpEnds(t: real, a: real, b: real)
    ensures Lerp(0.0, a, b) == a && Lerp(1.0, a, b) == b
    ensures 0.0 <= t <= 1.0 ==> (a <= Lerp(t, a, b) <= b || b <= Lerp(t, a, b) <= a)
  {
    if 0.0 <= t <= 1.0 {
      if a <= b {
        MulNonNeg(t, b - a);
        MulNonNeg(1.0 - t, b - a);
      } else {
        MulNonNeg(t, a - b);
        MulNonNeg(1.0 - t, a - b);
      }
    }
  }

  /** The noise vanishes at every integer: the fractional part is 0, so the
      fade is 0 and the first gradient is taken at distance 0. */
  lemma PerlinZeroAtIntegers(k: int)
    ensures PerlinNoise(k as real) == 0.0
  {
    PermLength();
    ZeroAtIntegersOver(Perm, k);
  }

  lemma ZeroAtIntegersOver(perm: seq<int>, k: int)
    requires |perm| == 512
    ensures PerlinNoiseOver(perm, k as real) == 0.0
  {
    var x := k as real;
    assert Trunc(x) == k;
    assert Fade(0.0) == 0.0;
    assert Grad1(perm[WrapIndex(k)], 0.0) == 0.0;
  }

  /** Shifting a non-negative input by 256 cells lands on the same table entries. */
  lemma PerlinPeriodic(x: real)
    requires x >= 0.0
    ensures PerlinNoise(x + 256.0) == PerlinNoise(x)
  {
    PermLength();
    PeriodicOver(Perm, x);
  }

  lemma PeriodicOver(perm: seq<int>, x: real)
    requires |perm| == 512 && x >= 0.0
    ensures PerlinNoiseOver(perm, x + 256.0) == PerlinNoiseOver(perm, x)
  {
    var k := Trunc(x);
    TruncShift(x, 256);
    assert WrapIndex(k + 256) == WrapIndex(k);
    assert WrapIndex(k + 256 + 1) == WrapIndex(k + 1);
  }

  /** Below zero the noise leaves the non-negative bound: at -0.5 the
      integer part is 0, the fade extrapolates to -2.375 and the entries
      151 and 160 give 0.188 * -9.9375 = -1.86825. So the restriction of
      PerlinBounded and PerlinPeriodic to x >= 0 is the code's own
      behaviour. */
  lemma PerlinBelowZero()
    ensures PerlinNoise(-0.5) < -1.504
    ensures PerlinNoise(-0.5) != PerlinNoise(255.5)
  {
    PermLength();
    assert Perm[0] == 151 && Perm[1] == 160;
    MinusHalfOver(Perm);
    PerlinBounded(255.5);
  }

  lemma MinusHalfOver(perm: seq<int>)
    requires |perm| == 512 && perm[0] == 151 && perm[1] == 160
    ensures PerlinNoiseOver(perm, -0.5) == 0.188 * (-4.0 + -2.375 * 2.5)
  {
    assert Trunc(-0.5) == 0;
    assert Fade(-0.5) == -2.375;
    assert Gradient(151) == 8 && Gradient(160) == 1;
  }

  /** Truncating a non-negative real shifted by a whole number shifts the result
      by the same amount and keeps the fractional part. */
  lemma TruncShift(x: real, n: nat)
    requires x >= 0.0
    ensures Trunc(x + n as real) == Trunc(x) + n
    ensures (x + n as real) - Trunc(x + n as real) as real == x - Trunc(x) as real
  {
  }

  /** For non-negative inputs, where the fractional part lies in [0, 1), the
      noise stays within 0.188 times the largest gradient magnitude 8. */
  lemma PerlinBounded(x: real)
    requires x >= 0.0
    ensures -1.504 <= PerlinNoise(x) <= 1.504
  {
    PermLength();
    BoundedOver(Perm, x);
  }

  lemma BoundedOver(perm: seq<int>, x: real)
    requires |perm| == 512 && x >= 0.0
    ensures -1.504 <= PerlinNoiseOver(perm, x) <= 1.504
  {
    var ix0 := Trunc(x);
    var fx0 := x - ix0 as real;
    GradScaled(perm[WrapIndex(ix0)], fx0);
    GradScaled(perm[WrapIndex(ix0 + 1)], fx0 - 1.0);
    FadeInUnit(fx0);
    BlendBounded(Fade(fx0), Grad1(perm[WrapIndex(ix0)], fx0), Grad1(perm[WrapIndex(ix0 + 1)], fx0 - 1.0));
  }

  lemma BlendBounded(s: real, n0: real, n1: real)
    requires 0.0 <= s <= 1.0 && -8.0 <= n0 <= 8.0 && -8.0 <= n1 <= 8.0
    ensures -1.504 <= PerlinScale * Lerp(s, n0, n1) <= 1.504
  {
    LerpEnds(s, n0, n1);
  }

  /** A gradient at a distance of at most 1 contributes at most 8 in magnitude. */
  lemma GradScaled(hash: int, x: real)
    requires -1.0 <= x <= 1.0
    ensures -8.0 <= Grad1(hash, x) <= 8.0
  {
    ScaledBound(Gradient(hash) as real, x);
  }

  lemma ScaledBound(g: real, x: real)
    requires -8.0 <= g <= 8.0 && -1.0 <= x <= 1.0
    ensures -8.0 <= g * x <= 8.0
  {
    if x >= 0.0 {
      ScaledBoundNonNeg(g, x);
    } else {
      ScaledBoundNonNeg(g, -x);
      assert g * x == -(g * -x);
    }
  }

  lemma ScaledBoundNonNeg(g: real, x: real)
    requires -8.0 <= g <= 8.0 && 0.0 <= x <= 1.0
    ensures -8.0 <= g * x <= 8.0
  {
    MulNonNeg(8.0 - g, x);
    MulNonNeg(g + 8.0, x);
  }

  lemma MulNonNeg(x: real, y: real)
    requires x >= 0.0 && y >= 0.0
    ensures x * y >= 0.0
  {
  }

  lemma SquareNonNeg(x: real)
    ensures x * x >= 0.0
  {
    if x < 0.0 {
      MulNonNeg(-x, -x);
    } else {
      MulNonNeg(x, x);
    }
  }

  lemma MulPosPos(x: real, y: real)
    requires x > 0.0 && y > 0.0
    ensures x * y > 0.0
  {
  }

  lemma MulNegPos(x: real, y: real)
    requires x < 0.0 && y > 0.0
    ensures x * y < 0.0
  {
    MulPosPos(-x, y);
  }
}
