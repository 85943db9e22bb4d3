/** JavaScript's integer operators as the noise helpers use them.
    JavaScript converts both operands of `^` and `&` to 32-bit two's
    complement (ToInt32), combines the bits and reads the result back as a
    signed 32-bit number; `%` truncates toward zero; `Math.trunc` drops the
    fractional part toward zero. Here all of this is written out over
    unbounded integers and reals. */
module JsInt {

  function Pow2(k: nat): (p: nat)
    ensures p >= 1
  {
    if k == 0 then 1 else 2 * Pow2(k - 1)
  }

  /** Bitwise exclusive or of two non-negative integers, bit by bit from the low end. */
  function Xor(a: nat, b: nat): (r: nat)
  {
    if a == 0 then b
    else if b == 0 then a
    else 2 * Xor(a / 2, b / 2) + (if a % 2 != b % 2 then 1 else 0)
  }

  /** Bitwise and of two non-negative integers, bit by bit from the low end. */
  function BitAnd(a: nat, b: nat): (r: nat)
  {
    if a == 0 || b == 0 then 0
    else 2 * BitAnd(a / 2, b / 2) + (if a % 2 == 1 && b % 2 == 1 then 1 else 0)
  }

  /** The unsigned 32-bit pattern of an integer (ToUint32 of an exact integer). */
  function ToUint32(n: int): (u: nat)
    ensures u < 0x1_0000_0000
    ensures 0 <= n < 0x1_0000_0000 ==> u == n
  {
    n % 0x1_0000_0000
  }

  /** Reads a 32-bit pattern back as a signed 32-bit number. */
  function Signed32(u: nat): (s: int)
    requires u < 0x1_0000_0000
    ensures -0x8000_0000 <= s < 0x8000_0000
    ensures (s - u) % 0x1_0000_0000 == 0
    ensures u < 0x8000_0000 ==> s == u
  {
    if u < 0x8000_0000 then u else u - 0x1_0000_0000
  }

  /** JavaScript `a ^ b` on integer operands. */
  function JsXor(a: int, b: int): (r: int)
    ensures -0x8000_0000 <= r < 0x8000_0000
  {
    Pow2Values();
    XorBelow(ToUint32(a), ToUint32(b), 32);
    Signed32(Xor(ToUint32(a), ToUint32(b)))
  }

  /** JavaScript `a & b` on integer operands. */
  function JsAnd(a: int, b: int): (r: int)
    ensures -0x8000_0000 <= r < 0x8000_0000
  {
    AndBelow(ToUint32(a), ToUint32(b));
    Signed32(BitAnd(ToUint32(a), ToUint32(b)))
  }

  /** JavaScript `a % n` on integers: the remainder takes the sign of the
      dividend (JavaScript yields NaN for n == 0, which no caller here does). */
  function JsRem(a: int, n: int): (r: int)
    requires n != 0
    ensures -Abs(n) < r < Abs(n)
    ensures a >= 0 ==> r >= 0
    ensures a <= 0 ==> r <= 0
    ensures (a - r) % n == 0
  {
    TruncatedRemainder(a, n);
    if a >= 0 then Abs(a) % Abs(n) else -(Abs(a) % Abs(n))
  }

  function Abs(n: int): (r: int)
    ensures r >= 0 && (r == n || r == -n)
  {
    if n < 0 then -n else n
  }

  /** `Math.trunc` of a real: the integer part, rounded toward zero. */
  function Trunc(x: real): (r: int)
    ensures x >= 0.0 ==> 0 <= r && r as real <= x < r as real + 1.0
    ensures x < 0.0 ==> r <= 0 && r as real - 1.0 < x <= r as real
  {
    if x >= 0.0 then x.Floor else -((-x).Floor)
  }

  // ---------------------------------------------------------------------
  // Lemmas

  /** The truncated remainder differs from the dividend by a multiple of the divisor. */
  lemma TruncatedRemainder(a: int, n: int)
    requires n != 0
    ensures var m := Abs(a) % Abs(n); (a - (if a >= 0 then m else -m)) % n == 0
  {
    var m := Abs(a) % Abs(n);
    var q := Abs(a) / Abs(n);
    assert Abs(a) == Abs(n) * q + m;
    var k := if a >= 0 then q else -q;
    assert a - (if a >= 0 then m else -m) == Abs(n) * k;
    var k' := if n >= 0 then k else -k;
    assert Abs(n) * k == n * k';
    DivUnique(Abs(n) * k, n, k', 0);
  }

  /** Euclidean division has exactly one quotient and remainder. */
  lemma DivUnique(a: int, d: int, q: int, r: int)
    requires d != 0 && 0 <= r < Abs(d) && a == d * q + r
    ensures a / d == q && a % d == r
  {
    var q', r' := a / d, a % d;
    assert a == d * q' + r';
    assert d * (q - q') == r' - r;
    if q != q' {
      MulMagnitude(d, q - q');
    }
  }

  lemma MulMagnitude(d: int, m: int)
    requires d != 0 && m != 0
    ensures Abs(d * m) >= Abs(d)
  {
    MulAtLeast(Abs(d), Abs(m));
    if d < 0 && m < 0 {
      assert d * m == Abs(d) * Abs(m);
    } else if d < 0 {
      assert d * m == -(Abs(d) * Abs(m));
    } else if m < 0 {
      assert d * m == -(Abs(d) * Abs(m));
    }
  }

  /** Dividing by 2 and then by h is dividing by 2h; the remainder is rebuilt from both. */
  lemma HalveDivMod(a: nat, h: nat)
    requires h >= 1
    ensures a / (2 * h) == (a / 2) / h
    ensures a % (2 * h) == 2 * ((a / 2) % h) + a % 2
  {
    var x, rest := (a / 2) / h, (a / 2) % h;
    assert a / 2 == h * x + rest;
    assert a == (2 * h) * x + (2 * rest + a % 2);
    DivUnique(a, 2 * h, x, 2 * rest + a % 2);
  }

  lemma MulAtLeast(d: nat, m: int)
    requires m >= 1
    ensures d * m >= d
  {
    assert d * m == d * (m - 1) + d;
    assert d * (m - 1) >= 0;
  }

  /** Both operands below 2^k keep their exclusive or below 2^k. */
  lemma {:induction false} XorBelow(a: nat, b: nat, k: nat)
    requires a < Pow2(k) && b < Pow2(k)
    ensures Xor(a, b) < Pow2(k)
  {
    if a != 0 && b != 0 {
      XorBelow(a / 2, b / 2, k - 1);
    }
  }

  /** A bitwise and never exceeds either operand. */
  lemma {:induction false} AndBelow(a: nat, b: nat)
    ensures BitAnd(a, b) <= a && BitAnd(a, b) <= b
  {
    if a != 0 && b != 0 {
      AndBelow(a / 2, b / 2);
    }
  }

  lemma ZeroMod(p: int)
    requires p >= 1
    ensures 0 % p == 0
  {
    DivUnique(0, p, 0, 0);
  }

  /** One step of the bitwise and: the low bit and the and of the halves. */
  lemma AndStep(a: nat, b: nat)
    requires a != 0 && b != 0
    ensures BitAnd(a, b) == 2 * BitAnd(a / 2, b / 2) + (if a % 2 == 1 && b % 2 == 1 then 1 else 0)
  {
  }

  /** Masking with 2^k - 1 keeps the low k bits: the remainder modulo 2^k. */
  lemma {:induction false} AndLowMask(a: nat, k: nat)
    ensures BitAnd(a, Pow2(k) - 1) == a % Pow2(k)
  {
    if a == 0 {
      ZeroMod(Pow2(k));
    } else if k == 0 {
      assert BitAnd(a, 0) == 0;
    } else {
      AndLowMask(a / 2, k - 1);
      AndLowMaskStep(a, k);
    }
  }

  /** The inductive step of AndLowMask: from the halves to the whole. */
  lemma AndLowMaskStep(a: nat, k: nat)
    requires a != 0 && k != 0
    requires BitAnd(a / 2, Pow2(k - 1) - 1) == (a / 2) % Pow2(k - 1)
    ensures BitAnd(a, Pow2(k) - 1) == a % Pow2(k)
  {
    var half := Pow2(k - 1);
    var mask := Pow2(k) - 1;
    assert Pow2(k) == 2 * half;
    assert mask / 2 == half - 1 && mask % 2 == 1;
    AndStep(a, mask);
    var low := BitAnd(a / 2, half - 1);
    assert BitAnd(a, mask) == 2 * low + a % 2;
    HalveDivMod(a, half);
  }

  /** Masking with 2^k isolates bit k. */
  lemma {:induction false} AndSingleBit(a: nat, k: nat)
    ensures BitAnd(a, Pow2(k)) == Pow2(k) * ((a / Pow2(k)) % 2)
  {
    if a == 0 {
    } else if k == 0 {
      assert BitAnd(a, 1) == a % 2;
    } else {
      var half := Pow2(k - 1);
      assert Pow2(k) == 2 * half;
      assert Pow2(k) % 2 == 0 && Pow2(k) / 2 == half;
      assert BitAnd(a, Pow2(k)) == 2 * BitAnd(a / 2, half);
      AndSingleBit(a / 2, k - 1);
      var bit := ((a / 2) / half) % 2;
      assert BitAnd(a / 2, half) == half * bit;
      HalveDivMod(a, half);
      assert (a / Pow2(k)) % 2 == bit;
      assert 2 * (half * bit) == Pow2(k) * bit;
    }
  }

  lemma Pow2Values()
    ensures Pow2(3) == 8 && Pow2(4) == 16 && Pow2(8) == 256
    ensures Pow2(31) == 0x8000_0000 && Pow2(32) == 0x1_0000_0000
  {
    assert Pow2(8) == 256;
    Pow2Monotone(8, 16);
    Pow2Monotone(16, 32);
    Pow2Monotone(31, 32);
  }

  /** On the int32-safe non-negative range, JavaScript `^` is plain bitwise exclusive or. */
  lemma JsXorOnNonNegative(a: int, b: int)
    requires 0 <= a < 0x8000_0000 && 0 <= b < 0x8000_0000
    ensures JsXor(a, b) == Xor(a, b)
    ensures 0 <= JsXor(a, b) < 0x8000_0000
  {
    Pow2Values();
    XorBelow(a, b, 31);
  }

  /** `n & (2^k - 1)` on any integer is the Euclidean remainder modulo 2^k
      (two's complement keeps the low bits of negative numbers too). */
  lemma JsAndLowMask(n: int, k: nat)
    requires k <= 31
    ensures JsAnd(n, Pow2(k) - 1) == n % Pow2(k)
  {
    var p := Pow2(k);
    Pow2Values();
    Pow2Monotone(k, 31);
    Pow2Monotone(k, 32);
    JsAndSmallMask(n, p - 1);
    AndLowMask(ToUint32(n), k);
    ModOfMod(n, p, 32 - k);
  }

  /** `n & 2^k` on any integer is 2^k when bit k of n is set and 0 otherwise. */
  lemma JsAndSingleBit(n: int, k: nat)
    requires k <= 30
    ensures JsAnd(n, Pow2(k)) == Pow2(k) * ((n % Pow2(k + 1)) / Pow2(k))
  {
    Pow2Values();
    Pow2Monotone(k, 31);
    Pow2Monotone(k + 1, 32);
    var u := ToUint32(n);
    JsAndSmallMask(n, Pow2(k));
    AndSingleBit(u, k);
    ModOfMod(n, Pow2(k + 1), 31 - k);
    BitOfRemainder(u, k);
  }

  /** With a mask below 2^31 the sign bit of the result is clear, so `n & m`
      is the plain bitwise and of n's 32-bit pattern with m. */
  lemma JsAndSmallMask(n: int, m: int)
    requires 0 <= m < 0x8000_0000
    ensures JsAnd(n, m) == BitAnd(ToUint32(n), m)
  {
    AndBelow(ToUint32(n), m);
  }

  /** Bit k of u is read the same from u and from u mod 2^(k+1). */
  lemma BitOfRemainder(u: nat, k: nat)
    ensures (u / Pow2(k)) % 2 == (u % Pow2(k + 1)) / Pow2(k)
  {
    var p := Pow2(k);
    var q := u / p;
    var rem := u % p;
    assert u == p * q + rem;
    assert q == 2 * (q / 2) + q % 2;
    assert u == Pow2(k + 1) * (q / 2) + (p * (q % 2) + rem) by {
      assert p * q == p * (2 * (q / 2)) + p * (q % 2);
    }
    assert p * (q % 2) + rem < Pow2(k + 1) by {
      assert p * (q % 2) <= p;
    }
    DivUnique(u, Pow2(k + 1), q / 2, p * (q % 2) + rem);
    DivUnique(p * (q % 2) + rem, p, q % 2, rem);
  }

  lemma Pow2Monotone(j: nat, k: nat)
    requires j <= k
    ensures Pow2(j) <= Pow2(k)
    ensures Pow2(k) == Pow2(j) * Pow2(k - j)
  {
    if j < k {
      Pow2Monotone(j, k - 1);
      assert Pow2(k) == 2 * Pow2(k - 1);
      assert Pow2(k - j) == 2 * Pow2(k - 1 - j);
    }
  }

  /** Reducing modulo 2^32 before reducing modulo a power-of-two divisor p of 2^32 changes nothing. */
  lemma ModOfMod(n: int, p: nat, e: nat)
    requires p >= 1 && 0x1_0000_0000 == p * Pow2(e)
    ensures (n % 0x1_0000_0000) % p == n % p
  {
    var q := n / 0x1_0000_0000;
    var r := n % 0x1_0000_0000;
    assert n == 0x1_0000_0000 * q + r;
    var r2 := r % p;
    assert r == p * (r / p) + r2;
    assert n == p * (Pow2(e) * q + r / p) + r2 by {
      assert 0x1_0000_0000 * q == p * (Pow2(e) * q);
    }
    DivUnique(n, p, Pow2(e) * q + r / p, r2);
  }

  /** The masks the Perlin code applies: `& 15`, `& 7` and `& 0xff` keep low
      bits, `& 8` isolates bit 3. */
  lemma JsAndMasks(n: int)
    ensures JsAnd(n, 15) == n % 16
    ensures JsAnd(n, 7) == n % 8
    ensures JsAnd(n, 255) == n % 256
    ensures JsAnd(n, 8) == 8 * ((n % 16) / 8)
  {
    Pow2Values();
    JsAndLowMask(n, 4);
    JsAndLowMask(n, 3);
    JsAndLowMask(n, 8);
    JsAndSingleBit(n, 3);
  }
}
