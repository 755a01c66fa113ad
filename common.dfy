/** Shared vocabulary of the model: 8-bit values, RGB triples, the plMin/plMax
    clamp, powers of two and the integer meaning of C's shift and `&` on
    two's-complement values. */
module Common {

  /** An unsigned 8-bit value (pl_uChar). */
  type Byte = x: int | 0 <= x < 256

  /** One palette entry or requested colour: three 8-bit channels. */
  datatype Rgb = Rgb(r: Byte, g: Byte, b: Byte)

  datatype Option<T> = None | Some(value: T)

  /** An RGB triple of signed ints (plMat.Ambient, Diffuse, Specular), not
      yet clamped to a byte. */
  datatype Triple = Triple(r: int, g: int, b: int)

  /** A texture as the palette code sees it (pl_Texture): log2 width and
      height, its own palette, how many of its entries are used, and the
      index data. */
  datatype Texture = Texture(width: nat, height: nat, palette: seq<Rgb>, numColors: nat, data: seq<Byte>)

  /** plMax(lo, plMin(c, hi)). */
  function Clamp(lo: int, hi: int, c: int): (r: int)
    requires lo <= hi
    ensures lo <= r <= hi
    ensures lo <= c <= hi ==> r == c
    ensures c < lo ==> r == lo
    ensures c > hi ==> r == hi
  {
    if c > hi then hi else if c < lo then lo else c
  }

  /** The clamp to 0..255 that every colour generator applies. */
  function ClampByte(c: int): (r: Byte)
    ensures 0 <= c <= 255 ==> r == c
    ensures c < 0 ==> r == 0
    ensures c > 255 ==> r == 255
  {
    Clamp(0, 255, c)
  }

  /** Squared Euclidean distance between two colours (mdist, and the
      distance of plMatMapToPal). */
  function Dist(a: Rgb, b: Rgb): (d: nat)
    ensures d <= 3 * 255 * 255
    ensures d == 0 <==> a == b
  {
    var dr := a.r - b.r;
    var dg := a.g - b.g;
    var db := a.b - b.b;
    SquareBound(dr);
    SquareBound(dg);
    SquareBound(db);
    SquareZero(dr);
    SquareZero(dg);
    SquareZero(db);
    dr * dr + dg * dg + db * db
  }

  lemma SquareBound(d: int)
    requires -255 <= d <= 255
    ensures 0 <= d * d <= 255 * 255
  {
    if d < 0 {
      assert d * d == (-d) * (-d);
    }
  }

  lemma SquareZero(d: int)
    ensures d * d >= 0
    ensures d * d == 0 <==> d == 0
  {
    if d < 0 {
      assert d * d == (-d) * (-d);
    }
  }

  function Pow2(k: nat): (p: nat)
    ensures p >= 1
  {
    if k == 0 then 1 else 2 * Pow2(k - 1)
  }

  /** Storing into a pl_uInt16 keeps the low 16 bits. */
  function U16(x: int): (r: nat)
    ensures r < 0x10000
    ensures 0 <= x < 0x10000 ==> r == x
  {
    x % 0x10000
  }

  lemma {:induction false} Pow2Add(a: nat, b: nat)
    ensures Pow2(a + b) == Pow2(a) * Pow2(b)
  {
    if a > 0 {
      Pow2Add(a - 1, b);
      assert Pow2(a + b) == 2 * Pow2(a - 1 + b);
    }
  }

  lemma {:induction false} Pow2Monotone(a: nat, b: nat)
    requires a <= b
    ensures Pow2(a) <= Pow2(b)
  {
    if a < b {
      Pow2Monotone(a, b - 1);
    }
  }

  /** Arithmetic right shift `x >> s` of a signed value: the floor of
      x / 2^s (Dafny's `/` by a positive divisor is the floor). */
  function Sar(x: int, s: nat): int
  {
    x / Pow2(s)
  }

  /** The bitwise `&` of a two's-complement integer x with a non-negative
      mask y, bit by bit from the lowest. x % 2 is the low bit of x and x / 2
      its arithmetic shift, also for negative x. */
  function BitAnd(x: int, y: nat): (r: nat)
    decreases y
  {
    if y == 0 then 0
    else 2 * BitAnd(x / 2, y / 2) + (if x % 2 == 1 && y % 2 == 1 then 1 else 0)
  }

  lemma {:induction false} MulAtLeast(d: int, k: int)
    requires d > 0 && k >= 1
    ensures d * k >= d
    decreases k
  {
    if k > 1 {
      MulAtLeast(d, k - 1);
      assert d * k == d * (k - 1) + d;
    }
  }

  /** Division and remainder are determined by the defining equation. */
  lemma DivModUnique(x: int, d: int, q: int, r: int)
    requires d > 0 && x == d * q + r && 0 <= r < d
    ensures x / d == q && x % d == r
  {
    var q0, r0 := x / d, x % d;
    assert x == d * q0 + r0;
    assert d * q0 - d * q == r - r0;
    assert d * (q0 - q) == r - r0 by {
      assert d * (q0 - q) == d * q0 - d * q;
    }
    if q0 > q {
      MulAtLeast(d, q0 - q);
    } else if q0 < q {
      MulAtLeast(d, q - q0);
    }
  }

  lemma DivDiv(x: int, a: int, b: int)
    requires a > 0 && b > 0
    ensures (x / a) / b == x / (a * b)
  {
    var q1 := x / a;
    var r1 := x % a;
    var q2 := q1 / b;
    var r2 := q1 % b;
    assert x == a * q1 + r1;
    assert q1 == b * q2 + r2;
    assert a * q1 == (a * b) * q2 + a * r2 by {
      assert a * q1 == a * (b * q2 + r2);
      assert a * (b * q2 + r2) == a * (b * q2) + a * r2;
      assert a * (b * q2) == (a * b) * q2;
    }
    assert a * r2 <= a * (b - 1) by {
      assert a * (b - 1) - a * r2 == a * (b - 1 - r2);
      if b - 1 - r2 > 0 {
        MulAtLeast(a, b - 1 - r2);
      }
    }
    assert a * (b - 1) == a * b - a;
    assert 0 <= a * r2 by {
      if r2 > 0 { MulAtLeast(a, r2); }
    }
    DivModUnique(x, a * b, q2, a * r2 + r1);
  }

  /** (2m)-remainder from the low bit and the m-remainder of the halved value. */
  lemma ModDouble(x: int, m: int)
    requires m > 0
    ensures x % (2 * m) == 2 * ((x / 2) % m) + x % 2
  {
    var q := x / 2;
    var b := x % 2;
    var t := q / m;
    var s := q % m;
    assert x == 2 * q + b;
    assert q == m * t + s;
    assert x == (2 * m) * t + (2 * s + b);
    DivModUnique(x, 2 * m, t, 2 * s + b);
  }

  /** `x & (2^k - 1)` keeps the low k bits: it is x modulo 2^k. */
  lemma {:induction false} BitAndLowMask(x: int, k: nat)
    ensures BitAnd(x, Pow2(k) - 1) == x % Pow2(k)
    decreases k
  {
    if k > 0 {
      BitAndLowMask(x / 2, k - 1);
      LowMaskStep(x, Pow2(k - 1), Pow2(k) - 1);
    }
  }

  /** One bit of BitAndLowMask: a mask of 2m - 1 keeps the low bit and,
      one place up, what a mask of m - 1 keeps of x / 2. */
  lemma LowMaskStep(x: int, m: nat, y: nat)
    requires m >= 1 && y == 2 * m - 1
    requires BitAnd(x / 2, m - 1) == (x / 2) % m
    ensures BitAnd(x, y) == x % (2 * m)
  {
    OddHalf(m);
    BitAndOdd(x, y);
    ModDouble(x, m);
  }

  lemma OddHalf(m: int)
    requires m >= 1
    ensures (2 * m - 1) / 2 == m - 1 && (2 * m - 1) % 2 == 1
  {
    DivModUnique(2 * m - 1, 2, m - 1, 1);
  }

  lemma BitAndOdd(x: int, y: nat)
    requires y % 2 == 1
    ensures BitAnd(x, y) == 2 * BitAnd(x / 2, y / 2) + x % 2
  {
  }

  lemma BitAndEvenMask(y: int, m: nat)
    requires m > 0
    ensures BitAnd(y, 2 * m) == 2 * BitAnd(y / 2, m)
  {
    assert (2 * m) / 2 == m && (2 * m) % 2 == 0;
  }

  lemma FieldMaskStep(p: nat, lo: nat, t: int)
    ensures p * (2 * lo) == 2 * (p * lo)
    ensures 2 * (t * lo) == t * (2 * lo)
  {
  }

  /** `y & ((2^h - 1) << w)` keeps bits w .. w+h-1 of y in place. */
  lemma {:induction false} BitAndFieldMask(y: int, h: nat, w: nat)
    ensures BitAnd(y, (Pow2(h) - 1) * Pow2(w)) == ((y / Pow2(w)) % Pow2(h)) * Pow2(w)
    decreases w
  {
    if w == 0 {
      BitAndLowMask(y, h);
    } else {
      var p: nat := Pow2(h) - 1;
      var lo := Pow2(w - 1);
      var M := p * lo;
      var t := (y / Pow2(w)) % Pow2(h);
      assert Pow2(w) == 2 * lo;
      FieldMaskStep(p, lo, t);
      if p == 0 {
      } else {
        BitAndEvenMask(y, M);
        BitAndFieldMask(y / 2, h, w - 1);
        DivDiv(y, 2, lo);
      }
    }
  }
}
