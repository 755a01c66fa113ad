/** The integer helpers of the texture loader: _plHiBit, the size logic of
    plReadPCXTex that uses it, _plRescaleImage (16.16 nearest-neighbour
    resampling) and _plOptimizeImage (palette compaction with an in-place
    pixel remap). Palettes are arrays of RGB triples: entry k is the three
    bytes at `pal[k*3]`. */
module TextureOps {
  import opened Common

  /** The number of binary digits of x; 0 for 0. */
  function BitLength(x: nat): (r: nat)
    ensures x == 0 <==> r == 0
    ensures r > 0 ==> Pow2(r - 1) <= x < Pow2(r)
  {
    if x == 0 then 0 else 1 + BitLength(x / 2)
  }

  /** The bounds of BitLength determine it. */
  lemma BitLengthUnique(x: nat, r: nat)
    requires r > 0 && Pow2(r - 1) <= x < Pow2(r)
    ensures BitLength(x) == r
  {
    var b := BitLength(x);
    if b < r {
      if b > 0 {
        Pow2Monotone(b, r - 1);
      }
    } else if b > r {
      Pow2Monotone(r, b - 1);
    }
  }

  /** A power of two 2^k has k + 1 digits: BitLength(256) is 9. */
  lemma BitLengthOfPow2(k: nat)
    ensures BitLength(Pow2(k)) == k + 1
  {
    BitLengthUnique(Pow2(k), k + 1);
  }

  /** The powers of two around the 16-bit limit. */
  lemma Pow2Near16()
    ensures Pow2(14) == 16384 && Pow2(15) == 32768
    ensures Pow2(16) == 65536 && Pow2(17) == 131072
  {
    assert Pow2(2) == 4;
    Pow2Add(2, 2);
    Pow2Add(4, 2);
    Pow2Add(4, 4);
    Pow2Add(8, 6);
    assert Pow2(15) == 2 * Pow2(14);
    assert Pow2(16) == 2 * Pow2(15);
    assert Pow2(17) == 2 * Pow2(16);
  }

  /** `x & (1 << k)` is nonzero exactly when bit k of x is set. */
  lemma BitTest(x: nat, k: nat)
    ensures BitAnd(x, Pow2(k)) != 0 <==> (x / Pow2(k)) % 2 == 1
  {
    assert Pow2(1) - 1 == 1;
    BitAndFieldMask(x, 1, k);
    var b := (x / Pow2(k)) % 2;
    if b == 0 {
      assert b * Pow2(k) == 0;
    } else {
      assert b * Pow2(k) == Pow2(k);
    }
  }

  /** Below 2p, the quotient by p is odd exactly from p on. */
  lemma HalfStep(x: nat, p: nat)
    requires 1 <= p && x < 2 * p
    ensures (x / p) % 2 == 1 <==> x >= p
    ensures x < p ==> x / p == 0
  {
    if x >= p {
      DivModUnique(x, p, 1, x - p);
    } else {
      DivModUnique(x, p, 0, x);
    }
  }

  /** _plHiBit: scans the mask from bit 15 down and returns one more than
      the index of the first set bit, 0 when no bit is set. */
  method HiBit(x: int) returns (r: nat)
    requires 0 <= x < 65536
    ensures r == BitLength(x)
    ensures r <= 16
  {
    var i: nat := 16;
    var mask: nat := Pow2(15);
    assert Pow2(16) == 2 * Pow2(15) == 65536;
    while mask != 0
      invariant i <= 16
      invariant mask == if i > 0 then Pow2(i - 1) else 0
      invariant x < Pow2(i)
      decreases i
    {
      BitTest(x, i - 1);
      HalfStep(x, mask);
      if BitAnd(x, mask) != 0 {
        BitLengthUnique(x, i);
        return i;
      }
      mask := mask / 2;
      i := i - 1;
    }
    return 0;
  }

  /** The log2 sizes and the pixel sizes of a texture as plReadPCXTex sets
      them for an x by y image, as written: Width is _plHiBit(x), which is
      one more than the log2 of a power of two, so the power-of-two test
      `1 << Width != x` never fails. Without rescaling the texture claims
      rows of 2^Width > x pixels, twice the true row for a power of two;
      with rescaling every image is blown up to more than twice its width
      and height. The pixel sizes are stored back into the pl_uInt16 `x`
      and `y`, so a rescaled side of 16384 or more, whose power of two is
      2^16 or 2^17, leaves iWidth or iHeight 0. */
  method TextureDimsAsWritten(x: int, y: int, rescale: bool) returns (width: nat, height: nat, ix: nat, iy: nat)
    requires 1 <= x < 65536 && 1 <= y < 65536
    ensures Pow2(width) > x && Pow2(height) > y
    ensures !rescale ==> width == BitLength(x) && height == BitLength(y) && ix == x && iy == y
    ensures rescale ==> width == BitLength(x) + 1 && ix == U16(Pow2(width))
    ensures rescale ==> height == BitLength(y) + 1 && iy == U16(Pow2(height))
    ensures rescale && x < 16384 ==> ix == Pow2(width) && 2 * x < ix <= 4 * x
    ensures rescale && y < 16384 ==> iy == Pow2(height) && 2 * y < iy <= 4 * y
    ensures rescale && x >= 16384 ==> ix == 0
    ensures rescale && y >= 16384 ==> iy == 0
  {
    width := HiBit(x);
    height := HiBit(y);
    PastPow2(width, x);
    PastPow2(height, y);
    ix, iy := x, y;
    if rescale && (Pow2(width) != x || Pow2(height) != y) {
      var nx := width;
      if Pow2(width) != x {
        nx := nx + 1;
      }
      var ny := height;
      if Pow2(height) != y {
        ny := ny + 1;
      }
      assert nx == width + 1 && ny == height + 1;
      StoreBigPow2(x, nx);
      StoreBigPow2(y, ny);
      PastPow2(width, x);
      PastPow2(height, y);
      width, height := nx, ny;
      ix, iy := U16(Pow2(nx)), U16(Pow2(ny));
    }
  }

  /** A rescaled side below 16384 gets a power of two that fits 16 bits; one
      from 16384 on gets 2^16 or 2^17, which a 16-bit store turns into 0. */
  lemma StoreBigPow2(x: nat, n: nat)
    requires 1 <= x < 65536 && n == BitLength(x) + 1
    ensures x < 16384 ==> U16(Pow2(n)) == Pow2(n)
    ensures x >= 16384 ==> U16(Pow2(n)) == 0
  {
    var b := BitLength(x);
    Pow2Near16();
    if x < 16384 {
      if b > 14 {
        Pow2Monotone(14, b - 1);
      }
      Pow2Monotone(n, 15);
    } else {
      if b < 15 {
        Pow2Monotone(b, 14);
      }
      if b > 16 {
        Pow2Monotone(16, b - 1);
      }
      assert n == 16 || n == 17;
    }
  }

  /** With w the bit length of x, 2^w is past x, and 2^(w+1) lies in
      (2x, 4x]. */
  lemma PastPow2(w: nat, x: nat)
    requires 1 <= x && w == BitLength(x)
    ensures Pow2(w) > x && 2 * x < Pow2(w + 1) <= 4 * x
  {
    assert Pow2(w + 1) == 2 * Pow2(w) && Pow2(w) == 2 * Pow2(w - 1);
  }

  /** With 2^w <= x < 2^(w+1), bumping w when 2^w falls short of x gives
      the least power of two at or above x. */
  lemma RoundUp(w: nat, x: nat, nx: nat)
    requires Pow2(w) <= x < 2 * Pow2(w)
    requires nx == if Pow2(w) != x then w + 1 else w
    ensures x <= Pow2(nx) < 2 * x && Pow2(w) <= Pow2(nx)
  {
    assert Pow2(w + 1) == 2 * Pow2(w);
  }

  /** The same size logic with Width the index of the highest set bit (the
      log2 the rasterizers' masks and shifts expect). A power-of-two image
      keeps its size; rescaling goes to the least power of two at or above
      each side, and the log2 sizes then describe the data exactly. The
      pixel sizes still go through the pl_uInt16 `x` and `y`: a side above
      32768 rounds up to 2^16 and is stored as 0. Otherwise 2^Width <=
      iWidth and 2^Height <= iHeight, so a texel address below
      2^(Width+Height) stays inside the iWidth * iHeight pixels. */
  method TextureDims(x: int, y: int, rescale: bool) returns (width: nat, height: nat, ix: nat, iy: nat)
    requires 1 <= x < 65536 && 1 <= y < 65536
    ensures !rescale || x <= 32768 ==> Pow2(width) <= ix
    ensures !rescale || y <= 32768 ==> Pow2(height) <= iy
    ensures !rescale ==> width + 1 == BitLength(x) && height + 1 == BitLength(y) && ix == x && iy == y
    ensures rescale ==> ix == U16(Pow2(width)) && iy == U16(Pow2(height))
    ensures rescale && x <= 32768 ==> ix == Pow2(width) && x <= ix < 2 * x
    ensures rescale && y <= 32768 ==> iy == Pow2(height) && y <= iy < 2 * y
    ensures rescale && x > 32768 ==> ix == 0
    ensures rescale && y > 32768 ==> iy == 0
    ensures Pow2(width) == x && Pow2(height) == y ==> ix == x && iy == y
  {
    var lx := HiBit(x);
    var ly := HiBit(y);
    width, height := lx - 1, ly - 1;
    assert Pow2(width + 1) == 2 * Pow2(width) && Pow2(height + 1) == 2 * Pow2(height);
    SideAbove(x, width);
    SideAbove(y, height);
    ix, iy := x, y;
    if rescale && (Pow2(width) != x || Pow2(height) != y) {
      var nx, sx := RoundSide(x, width);
      var ny, sy := RoundSide(y, height);
      width, height := nx, ny;
      ix, iy := sx, sy;
    }
  }

  /** One side of the rescale: `nx = Width; if ((1 << Width) != x) nx++;`,
      then `x = 1 << nx` stored into the pl_uInt16 `x`. The result is the
      least power of two at or above the side while that fits 16 bits, and
      0 for a side above 32768. */
  method RoundSide(x: int, w: nat) returns (n: nat, size: nat)
    requires 1 <= x < 65536 && w + 1 == BitLength(x)
    ensures size == U16(Pow2(n))
    ensures x <= 32768 ==> size == Pow2(n) && x <= size < 2 * x
    ensures x > 32768 ==> size == 0
    ensures Pow2(w) == x ==> n == w && size == x
  {
    assert Pow2(w + 1) == 2 * Pow2(w);
    n := w;
    if Pow2(w) != x {
      n := n + 1;
    }
    RoundUp(w, x, n);
    StoreRoundedPow2(x, w, n);
    SideAbove(x, w);
    size := U16(Pow2(n));
  }

  /** A side above 32768 has log2 15 and is not a power of two; a power
      of two keeps its value through a 16-bit store. */
  lemma SideAbove(x: nat, w: nat)
    requires 1 <= x < 65536 && w + 1 == BitLength(x)
    ensures x > 32768 ==> w == 15 && Pow2(w) != x
    ensures Pow2(w) == x ==> U16(Pow2(w)) == x && x <= 32768
  {
    Pow2Near16();
    if x > 32768 {
      BitLengthUnique(x, 16);
    } else if Pow2(w) == x {
      if w > 15 {
        Pow2Monotone(16, w);
      }
    }
  }

  /** The least power of two at or above a side fits 16 bits up to 32768;
      above that it is 2^16, which a 16-bit store turns into 0. */
  lemma StoreRoundedPow2(x: nat, w: nat, nx: nat)
    requires 1 <= x < 65536 && w + 1 == BitLength(x)
    requires nx == if Pow2(w) != x then w + 1 else w
    ensures x <= 32768 ==> U16(Pow2(nx)) == Pow2(nx)
    ensures x > 32768 ==> U16(Pow2(nx)) == 0
  {
    Pow2Near16();
    RoundUp(w, x, nx);
    if x > 32768 {
      BitLengthUnique(x, 16);
    }
  }

  /** The 16.16 step `(n << 16) / m` of _plRescaleImage. */
  function Step(n: nat, m: nat): nat
    requires m >= 1
  {
    (n * 65536) / m
  }

  lemma {:induction false} MulMonotone(a: int, b: int, d: nat)
    requires a <= b
    ensures a * d <= b * d
    decreases b - a
  {
    if a < b {
      MulMonotone(a, b - 1, d);
      assert b * d == (b - 1) * d + d;
    }
  }

  /** After j < m steps of (n << 16) / m the integer part is below n, and
      after at most m steps the 16.16 value is at most n << 16 (so the
      32-bit counters never wrap for n < 65536). */
  lemma StepBound(j: nat, n: nat, m: nat)
    requires 1 <= n && 1 <= m && j <= m
    ensures j * Step(n, m) <= n * 65536
    ensures j < m ==> j * Step(n, m) / 65536 < n
  {
    var d := Step(n, m);
    assert m * d <= n * 65536;
    if j < m {
      MulMonotone(j, m - 1, d);
      assert (m - 1) * d == m * d - d;
    } else {
      assert j * d == m * d;
    }
  }

  /** One more 16.16 step, still at most n << 16. */
  lemma StepNext(j: nat, n: nat, m: nat, v: int)
    requires 1 <= n && 1 <= m && j < m && v == j * Step(n, m)
    ensures v + Step(n, m) == (j + 1) * Step(n, m) <= n * 65536
  {
    StepBound(j + 1, n, m);
  }

  /** Row r, column c of a w-wide image lies inside a w by h image. */
  lemma IndexBelow(w: nat, h: nat, r: nat, c: nat)
    requires r < h && c < w
    ensures r * w + c < h * w
  {
    MulMonotone(r + 1, h, w);
    assert (r + 1) * w == r * w + w;
  }

  /** The input pixel _plRescaleImage copies to output row r, column c:
      row (r * dY) >> 16 and column (c * dX) >> 16 of the input. */
  function Nearest(inx: nat, iny: nat, outx: nat, outy: nat, r: nat, c: nat): (i: nat)
    requires 1 <= inx && 1 <= iny && 1 <= outx && 1 <= outy && r < outy && c < outx
    ensures i < iny * inx
  {
    StepBound(r, iny, outy);
    StepBound(c, inx, outx);
    var row := r * Step(iny, outy) / 65536;
    var col := c * Step(inx, outx) / 65536;
    IndexBelow(inx, iny, row, col);
    row * inx + col
  }

  /** One more row of w still fits in h rows. */
  lemma RowFits(r: nat, h: nat, w: nat)
    requires r < h
    ensures (r + 1) * w == r * w + w <= h * w
  {
    MulMonotone(r + 1, h, w);
  }

  /** The address the loops of _plRescaleImage read for output (r, c),
      with ptr the start of input row Y >> 16 and X the column counter. */
  lemma NearestAt(inx: nat, iny: nat, outx: nat, outy: nat, r: nat, c: nat, ptr: int, X: int)
    requires 1 <= inx && 1 <= iny && 1 <= outx && 1 <= outy && r < outy && c < outx
    requires ptr == inx * (r * Step(iny, outy) / 65536) && X == c * Step(inx, outx)
    ensures ptr + X / 65536 == Nearest(inx, iny, outx, outy, r, c)
  {
  }

  /** Output row r of the resampled image. */
  function Row(inp: seq<Byte>, inx: nat, iny: nat, outx: nat, outy: nat, r: nat): (row: seq<Byte>)
    requires |inp| == iny * inx && 1 <= inx && 1 <= iny && 1 <= outx && 1 <= outy && r < outy
    ensures |row| == outx
  {
    seq(outx, c requires 0 <= c < outx => inp[Nearest(inx, iny, outx, outy, r, c)])
  }

  /** The first n output rows, one after the other. */
  function Rows(inp: seq<Byte>, inx: nat, iny: nat, outx: nat, outy: nat, n: nat): (s: seq<Byte>)
    requires |inp| == iny * inx && 1 <= inx && 1 <= iny && 1 <= outx && 1 <= outy && n <= outy
    ensures |s| == n * outx
  {
    if n == 0 then []
    else
      assert n * outx == (n - 1) * outx + outx;
      Rows(inp, inx, iny, outx, outy, n - 1) + Row(inp, inx, iny, outx, outy, n - 1)
  }

  /** Pixel (r, c) of the first n rows is the input pixel nearest to it. */
  lemma {:induction false} RowsPixel(inp: seq<Byte>, inx: nat, iny: nat, outx: nat, outy: nat, n: nat, r: nat, c: nat)
    requires |inp| == iny * inx && 1 <= inx && 1 <= iny && 1 <= outx && 1 <= outy && n <= outy
    requires r < n && c < outx
    ensures r * outx + c < n * outx
    ensures Rows(inp, inx, iny, outx, outy, n)[r * outx + c] == inp[Nearest(inx, iny, outx, outy, r, c)]
  {
    IndexBelow(outx, n, r, c);
    var front := Rows(inp, inx, iny, outx, outy, n - 1);
    if r < n - 1 {
      RowsPixel(inp, inx, iny, outx, outy, n - 1, r, c);
    } else {
      assert r * outx + c == |front| + c;
    }
  }

  /** _plRescaleImage: fills the outx by outy output row by row, each
      pixel from its nearest input pixel as the 16.16 counters X and Y
      advance. Both counts must be at least 1 (do-while loops); the 16.16
      counters stay at or below inx << 16 and iny << 16, so the 32-bit
      counters of the source never wrap. */
  method RescaleImage(inp: array<Byte>, out: array<Byte>, inx: nat, iny: nat, outx: nat, outy: nat)
    requires 1 <= inx < 65536 && 1 <= iny < 65536 && 1 <= outx && 1 <= outy
    requires inp.Length == iny * inx && out.Length == outy * outx
    requires inp != out
    modifies out
    ensures out[..] == Rows(inp[..], inx, iny, outx, outy, outy)
  {
    ghost var src := inp[..];
    var dY := Step(iny, outy);
    var Y: nat := 0;
    var o: nat := 0;
    var rows := outy;
    ghost var r: nat := 0;
    while true
      invariant 1 <= rows <= outy && r == outy - rows
      invariant Y == r * dY && Y <= iny * 65536
      invariant o == r * outx && o + outx <= out.Length
      invariant out[..o] == Rows(src, inx, iny, outx, outy, r)
      decreases rows
    {
      var ptr := inx * (Y / 65536);
      StepNext(r, iny, outy, Y);
      Y := Y + dY;
      CopyRow(inp, out, inx, iny, outx, outy, r, ptr, o);
      assert out[..o + outx] == out[..o] + out[o..o + outx];
      RowFits(r, outy, outx);
      o := o + outx;
      r := r + 1;
      rows := rows - 1;
      if rows == 0 {
        break;
      }
      RowFits(r, outy, outx);
    }
    assert out[..] == out[..o];
  }

  /** The inner loop of _plRescaleImage: output row r, written from out
      pointer o on, from the input row at ptr as X advances by dX. */
  method CopyRow(inp: array<Byte>, out: array<Byte>, inx: nat, iny: nat, outx: nat, outy: nat, ghost r: nat, ptr: int, o: nat)
    requires 1 <= inx < 65536 && 1 <= iny < 65536 && 1 <= outx && 1 <= outy && r < outy
    requires inp.Length == iny * inx && o + outx <= out.Length
    requires ptr == inx * (r * Step(iny, outy) / 65536)
    requires inp != out
    modifies out
    ensures out[..o] == old(out[..o])
    ensures out[o..o + outx] == Row(inp[..], inx, iny, outx, outy, r)
  {
    ghost var row := Row(inp[..], inx, iny, outx, outy, r);
    var dX := Step(inx, outx);
    var X: nat := 0;
    var x := outx;
    var q := o;
    ghost var c: nat := 0;
    while true
      invariant 1 <= x <= outx && c == outx - x && q == o + c
      invariant X == c * dX && X <= inx * 65536
      invariant out[..o] == old(out[..o])
      invariant out[o..o + c] == row[..c]
      decreases x
    {
      NearestAt(inx, iny, outx, outy, r, c, ptr, X);
      out[q] := inp[ptr + X / 65536];
      q := q + 1;
      assert out[o..o + c + 1] == out[o..o + c] + [row[c]];
      assert row[..c + 1] == row[..c] + [row[c]];
      StepNext(c, inx, outx, X);
      X := X + dX;
      c := c + 1;
      x := x - 1;
      if x == 0 {
        break;
      }
    }
    assert row[..c] == row;
  }

  /** The state of _plOptimizeImage's compaction loop, over the pixels d0,
      the palette pal0 as it was, and the current palette, `colors` flags
      and `remap` table, with firstunused f and lastused l:
      - every slot below f is in use and none above l is;
      - each colour c of the image is mapped to a slot in use that holds
        c's original palette entry, and no two colours share a slot;
      - a slot in use above f still holds its own colour, unmoved;
      - every slot in use is the slot of some colour of the image. */
  ghost predicate CompactState(d0: seq<Byte>, pal0: seq<Rgb>, pal: seq<Rgb>, colors: seq<bool>, remap: seq<Byte>, f: int, l: int)
  {
    && |pal0| == 256 && |pal| == 256 && |colors| == 256 && |remap| == 256
    && 0 <= f <= 256 && -1 <= l <= 255
    && (forall p :: 0 <= p < f ==> colors[p])
    && (forall p :: l < p < 256 ==> !colors[p])
    && (forall c: Byte :: c in d0 ==> colors[remap[c]] && pal[remap[c]] == pal0[c])
    && (forall c: Byte, e: Byte :: c in d0 && e in d0 && c != e ==> remap[c] != remap[e])
    && (forall p :: f < p < 256 && colors[p] ==> p in d0 && remap[p] == p)
    && (forall p :: 0 <= p < 256 && colors[p] ==> Hit(remap, d0, p))
  }

  /** Slot p is the remap target of some colour of d0. */
  ghost predicate Hit(remap: seq<Byte>, d0: seq<Byte>, p: int)
    requires |remap| == 256
  {
    exists c: Byte :: c in d0 && remap[c] == p
  }

  /** Before the loop: the flags mark exactly the colours of the image and
      the remap table is the identity. */
  lemma CompactStart(d0: seq<Byte>, pal0: seq<Rgb>, colors: seq<bool>, remap: seq<Byte>)
    requires |pal0| == 256 && |colors| == 256 && |remap| == 256
    requires forall p :: 0 <= p < 256 ==> (colors[p] <==> p in d0)
    requires forall p :: 0 <= p < 256 ==> remap[p] == p
    ensures CompactState(d0, pal0, pal0, colors, remap, 0, 255)
  {
    forall p | 0 <= p < 256 && colors[p]
      ensures Hit(remap, d0, p)
    {
      assert p in d0 && remap[p] == p;
    }
  }

  /** One move of the loop: the entry of the last used slot l is copied to
      the first unused slot f < l, the flags move with it and colour l is
      remapped to f. */
  lemma CompactMove(d0: seq<Byte>, pal0: seq<Rgb>, pal: seq<Rgb>, colors: seq<bool>, remap: seq<Byte>, f: int, l: int)
    requires CompactState(d0, pal0, pal, colors, remap, f, l)
    requires 0 <= f < l && colors[l] && !colors[f]
    ensures CompactState(d0, pal0, pal[f := pal[l]], colors[l := false][f := true], remap[l := f], f, l)
  {
    var pal', colors', remap' := pal[f := pal[l]], colors[l := false][f := true], remap[l := f];
    assert l in d0 && remap[l] == l;
    forall c: Byte | c in d0
      ensures colors'[remap'[c]] && pal'[remap'[c]] == pal0[c]
    {
      if c != l {
        assert remap[c] != l && remap[c] != f;
      }
    }
    forall p | 0 <= p < 256 && colors'[p]
      ensures Hit(remap', d0, p)
    {
      if p == f {
        assert remap'[l] == f;
      } else {
        var c: Byte :| c in d0 && remap[c] == p;
        assert c != l;
        assert remap'[c] == p;
      }
    }
  }

  /** What the compaction achieves, for n colours in use: every colour c of
      d0 has a slot below n holding its original entry pal0[c], distinct
      colours have distinct slots, and every slot below n is some colour's. */
  ghost predicate Compacted(d0: seq<Byte>, pal0: seq<Rgb>, pal: seq<Rgb>, remap: seq<Byte>, n: int)
  {
    && |pal0| == 256 && |pal| == 256 && |remap| == 256
    && 0 <= n <= 256
    && (forall c: Byte :: c in d0 ==> remap[c] < n && pal[remap[c]] == pal0[c])
    && (forall c: Byte, e: Byte :: c in d0 && e in d0 && c != e ==> remap[c] != remap[e])
    && (forall p :: 0 <= p < n ==> Hit(remap, d0, p))
  }

  /** The compaction loop of _plOptimizeImage. The result is lastused + 1;
      every colour of the image then has a slot below it holding its
      original entry, distinct colours have distinct slots, and every slot
      below it belongs to some colour. */
  method Compact(pal: array<Rgb>, colors: array<bool>, remap: array<Byte>, ghost d0: seq<Byte>) returns (n: int)
    requires pal.Length == 256 && colors.Length == 256 && remap.Length == 256
    requires forall p :: 0 <= p < 256 ==> (colors[p] <==> p in d0)
    requires forall p :: 0 <= p < 256 ==> remap[p] == p
    modifies pal, colors, remap
    ensures Compacted(d0, old(pal[..]), pal[..], remap[..], n)
  {
    ghost var pal0 := pal[..];
    CompactStart(d0, pal0, colors[..], remap[..]);
    var lastused := 255;
    var firstunused := 0;
    while true
      invariant CompactState(d0, pal0, pal[..], colors[..], remap[..], firstunused, lastused)
      invariant 0 <= lastused - firstunused + (if firstunused < 256 && colors[firstunused] then 0 else 1)
      decreases lastused - firstunused + (if firstunused < 256 && colors[firstunused] then 0 else 1)
    {
      var done;
      firstunused, lastused, done := CompactTurn(pal, colors, remap, firstunused, lastused, d0, pal0);
      if done {
        break;
      }
    }
    n := lastused + 1;
  }

  /** One turn of the compaction loop: skip the used slots from
      firstunused up and the unused ones from lastused down, stop when no
      move is left, else move. After a move the slot at firstunused is in
      use and lastused - firstunused has not grown. */
  method CompactTurn(pal: array<Rgb>, colors: array<bool>, remap: array<Byte>, f: int, l: int, ghost d0: seq<Byte>, ghost pal0: seq<Rgb>)
    returns (f': int, l': int, done: bool)
    requires CompactState(d0, pal0, pal[..], colors[..], remap[..], f, l)
    modifies pal, colors, remap
    ensures CompactState(d0, pal0, pal[..], colors[..], remap[..], f', l')
    ensures done ==> Compacted(d0, pal0, pal[..], remap[..], l' + 1)
    ensures !done ==> f' < 256 && colors[f']
    ensures !done ==> 0 <= l' - f' < l - f + (if f < 256 && old(colors[f]) then 0 else 1)
  {
    f', l' := f, l;
    while f' < 256 && colors[f']
      invariant f <= f'
      invariant CompactState(d0, pal0, pal[..], colors[..], remap[..], f', l')
    {
      f' := f' + 1;
    }
    if f' > 255 {
      CompactDone(d0, pal0, pal[..], colors[..], remap[..], f', l');
      return f', l', true;
    }
    while l' >= 0 && !colors[l']
      invariant l' <= l
      invariant CompactState(d0, pal0, pal[..], colors[..], remap[..], f', l')
    {
      l' := l' - 1;
    }
    if l' < 0 || l' <= f' {
      CompactDone(d0, pal0, pal[..], colors[..], remap[..], f', l');
      return f', l', true;
    }
    Move(pal, colors, remap, f', l', d0, pal0);
    done := false;
  }

  /** Where the compaction loop stops (no unused slot, no used slot, or the
      last used slot at or below the first unused one), the used slots are
      exactly 0 .. lastused. */
  lemma CompactDone(d0: seq<Byte>, pal0: seq<Rgb>, pal: seq<Rgb>, colors: seq<bool>, remap: seq<Byte>, f: int, l: int)
    requires CompactState(d0, pal0, pal, colors, remap, f, l)
    requires f > 255 || l < 0 || (l <= f && colors[l])
    ensures Compacted(d0, pal0, pal, remap, l + 1)
  {
    if f > 255 {
      assert colors[255];
    }
  }

  /** The body of the compaction loop once firstunused < lastused: copy the
      entry, move the flag, remap the colour. */
  method Move(pal: array<Rgb>, colors: array<bool>, remap: array<Byte>, f: int, l: int, ghost d0: seq<Byte>, ghost pal0: seq<Rgb>)
    requires CompactState(d0, pal0, pal[..], colors[..], remap[..], f, l)
    requires 0 <= f < l && colors[l] && !colors[f]
    modifies pal, colors, remap
    ensures pal[..] == old(pal[..])[f := old(pal[l])]
    ensures colors[..] == old(colors[..])[l := false][f := true]
    ensures remap[..] == old(remap[..])[l := f]
    ensures CompactState(d0, pal0, pal[..], colors[..], remap[..], f, l)
  {
    CompactMove(d0, pal0, pal[..], colors[..], remap[..], f, l);
    pal[f] := pal[l];
    colors[l] := false;
    colors[f] := true;
    remap[l] := f;
  }

  /** _plOptimizeImage over the 256-entry palette pal and the pixels data:
      marks the colours in use, compacts them to the front of the palette
      and rewrites every pixel through the remap table. The result n is the
      number of colours in use: the pixels afterwards are exactly the
      indices 0 .. n-1, each pixel shows the colour it showed before, and
      two pixels get the same index exactly when they had the same one. */
  method OptimizeImage(pal: array<Rgb>, data: array<Byte>) returns (n: int)
    requires pal.Length == 256
    modifies pal, data
    ensures 0 <= n <= 256
    ensures forall i :: 0 <= i < data.Length ==> data[i] < n
    ensures forall i :: 0 <= i < data.Length ==> pal[data[i]] == old(pal[data[i]])
    ensures forall i, j :: 0 <= i < data.Length && 0 <= j < data.Length ==> (data[i] == data[j] <==> old(data[i]) == old(data[j]))
    ensures forall k :: 0 <= k < n ==> k in data[..]
  {
    ghost var d0 := data[..];
    var colors := new bool[256](_ => false);
    var x := 0;
    while x < data.Length
      modifies colors
      invariant 0 <= x <= data.Length
      invariant forall p :: 0 <= p < 256 ==> (colors[p] <==> p in data[..x])
    {
      colors[data[x]] := true;
      x := x + 1;
    }
    assert data[..x] == d0;
    var remap := new Byte[256];
    x := 0;
    while x < 256
      modifies remap
      invariant 0 <= x <= 256
      invariant forall p :: 0 <= p < x ==> remap[p] == p
    {
      remap[x] := x;
      x := x + 1;
    }
    n := Compact(pal, colors, remap, d0);
    ApplyRemap(data, remap);
    RemapDone(d0, old(pal[..]), pal[..], remap[..], n, data[..]);
  }

  /** The last loop of _plOptimizeImage: every pixel through the table. */
  method ApplyRemap(data: array<Byte>, remap: array<Byte>)
    requires remap.Length == 256 && data != remap
    modifies data
    ensures forall i :: 0 <= i < data.Length ==> data[i] == remap[old(data[i])]
  {
    var x := 0;
    while x < data.Length
      invariant 0 <= x <= data.Length
      invariant forall i :: 0 <= i < x ==> data[i] == remap[old(data[i])]
      invariant forall i :: x <= i < data.Length ==> data[i] == old(data[i])
    {
      data[x] := remap[data[x]];
      x := x + 1;
    }
  }

  /** Rewriting every pixel through a compacting remap table gives indices
      below n that show the same colours, keep equal pixels equal and
      distinct ones distinct, and use every index below n. */
  lemma RemapDone(d0: seq<Byte>, pal0: seq<Rgb>, pal: seq<Rgb>, remap: seq<Byte>, n: int, d: seq<Byte>)
    requires Compacted(d0, pal0, pal, remap, n)
    requires |d| == |d0| && forall i :: 0 <= i < |d| ==> d[i] == remap[d0[i]]
    ensures forall i :: 0 <= i < |d| ==> d[i] < n && pal[d[i]] == pal0[d0[i]]
    ensures forall i, j :: 0 <= i < |d| && 0 <= j < |d| ==> (d[i] == d[j] <==> d0[i] == d0[j])
    ensures forall k :: 0 <= k < n ==> k in d
  {
    forall i | 0 <= i < |d|
      ensures d[i] < n && pal[d[i]] == pal0[d0[i]]
    {
      assert d0[i] in d0;
    }
    forall i, j | 0 <= i < |d| && 0 <= j < |d|
      ensures d[i] == d[j] <==> d0[i] == d0[j]
    {
      assert d0[i] in d0 && d0[j] in d0;
    }
    forall k | 0 <= k < n
      ensures k in d
    {
      assert Hit(remap, d0, k);
      var c: Byte :| c in d0 && remap[c] == k;
      var i :| 0 <= i < |d0| && d0[i] == c;
      assert d[i] == k;
    }
  }
}
