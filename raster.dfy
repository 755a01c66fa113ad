/** The integer rules inside the plPF_* rasterizers: which texel a 16.16
    texture coordinate reads, how a shade becomes an index into the remap
    or shade table, the depth-test write rule of one span, and how the
    perspective-correct rasterizers cut a span into chunks. The pointer walk
    over the frame buffer and the float interpolation of U, V, Z and shade
    are not modelled: their per-pixel values are parameters here. */
module Raster {
  import opened Common
  import Palette
  import Materials
  import TextureOps

  /** C's conversion of a float to an integer: truncation toward zero. */
  function Trunc(x: real): (t: int)
    ensures x >= 0.0 ==> t >= 0 && t as real <= x < t as real + 1.0
    ensures x < 0.0 ==> t <= 0 && t as real - 1.0 < x <= t as real
  {
    if x >= 0.0 then x.Floor else -((-x).Floor)
  }

  lemma TruncMonotone(x: real, y: real)
    requires x <= y
    ensures Trunc(x) <= Trunc(y)
  {
  }

  /** A pl_uInt value stored into a pl_sInt32 (two's complement). */
  function S32(x: nat): (r: int)
    requires x < 0x1_0000_0000
    ensures -0x8000_0000 <= r < 0x8000_0000
    ensures x < 0x8000_0000 ==> r == x
    ensures x >= 0x8000_0000 ==> r == x - 0x1_0000_0000
  {
    if x < 0x8000_0000 then x else x - 0x1_0000_0000
  }

  /** The powers of two the rasterizers shift by. */
  lemma Pow2Values()
    ensures Pow2(5) == 32 && Pow2(6) == 64 && Pow2(8) == 256 && Pow2(16) == 0x10000
  {
    assert Pow2(4) == 16;
    assert Pow2(8) == 16 * Pow2(4) by {
      Pow2Add(4, 4);
    }
    assert Pow2(16) == Pow2(8) * Pow2(8) by {
      Pow2Add(8, 8);
    }
  }

  // ---------------------------------------------------------------------
  // Texel addressing

  /** `((U>>16) & MappingU_AND) + ((V>>vshift) & MappingV_AND)` with
      MappingU_AND = (1<<Width)-1, MappingV_AND = ((1<<Height)-1)<<Width and
      vshift = 16-Width, for 16.16 coordinates u and v of a texture of
      2^w by 2^h texels. */
  function TexelAddress(u: int, v: int, w: nat, h: nat): int
    requires w <= 16
  {
    TextureOps.MulMonotone(0, Pow2(h) - 1, Pow2(w));
    BitAnd(Sar(u, 16), Pow2(w) - 1) + BitAnd(Sar(v, 16 - w), (Pow2(h) - 1) * Pow2(w))
  }

  /** The address is that of column (U>>16) mod 2^w in row (V>>16) mod 2^h:
      the texture repeats in both directions, and every read falls inside
      its 2^w * 2^h = 2^(w+h) bytes. The masks must fit a pl_sInt32. */
  lemma TexelAddressWraps(u: int, v: int, w: nat, h: nat)
    requires w <= 16 && w + h <= 31
    ensures TexelAddress(u, v, w, h) == Sar(u, 16) % Pow2(w) + (Sar(v, 16) % Pow2(h)) * Pow2(w)
    ensures 0 <= TexelAddress(u, v, w, h) < Pow2(w) * Pow2(h) == Pow2(w + h)
  {
    var a, b := Sar(u, 16), Sar(v, 16 - w);
    var P, Q := Pow2(w), Pow2(h);
    BitAndLowMask(a, w);
    BitAndFieldMask(b, h, w);
    SarSplit(v, w);
    Pow2Add(w, h);
    TextureOps.IndexBelow(P, Q, Sar(v, 16) % Q, a % P);
  }

  /** Shifting right by 16 - w and then by w is shifting by 16. */
  lemma SarSplit(v: int, w: nat)
    requires w <= 16
    ensures Sar(v, 16 - w) / Pow2(w) == Sar(v, 16)
  {
    DivDiv(v, Pow2(16 - w), Pow2(w));
    Pow2Add(16 - w, w);
    assert 16 - w + w == 16;
  }

  // ---------------------------------------------------------------------
  // Flat shades

  /** A face's flat shade, scaled and truncated, clamped to 0 .. top. With
      scale = top = ColorsUsed-1 it is the shade of plPF_SolidF, with scale
      255 (plPF_TexF) or 256 (plPF_PTexF) and top 255 the shade-table row
      of the flat texture rasterizers. */
  function FlatLevel(fShade: real, scale: real, top: int): (l: int)
    requires top >= 0
    ensures 0 <= l <= top
    ensures 0.0 <= fShade * scale <= top as real ==> l == Trunc(fShade * scale)
    ensures fShade * scale < 1.0 ==> l == 0
    ensures fShade * scale >= top as real ==> l == top
  {
    Clamp(0, top, Trunc(fShade * scale))
  }

  /** A brighter face never gets a lower level, the unlit face gets level 0
      and the fully lit one the top level. */
  lemma FlatLevelMonotone(f1: real, f2: real, scale: real, top: int)
    requires top >= 0 && scale >= top as real && f1 <= f2
    ensures FlatLevel(f1, scale, top) <= FlatLevel(f2, scale, top)
    ensures f1 <= 0.0 ==> FlatLevel(f1, scale, top) == 0
    ensures f2 >= 1.0 ==> FlatLevel(f2, scale, top) == top
  {
    if scale >= 0.0 {
      assert (f2 - f1) * scale >= 0.0;
      assert f1 * scale <= f2 * scale;
      TruncMonotone(f1 * scale, f2 * scale);
      if f1 <= 0.0 {
        assert f1 * scale <= 0.0;
      }
      if f2 >= 1.0 {
        assert (f2 - 1.0) * scale >= 0.0;
      }
    }
  }

  /** The shade of plPF_SolidF, an index of the ColorsUsed-entry remap
      table. With no colours at all the clamp leaves -1, the signed value of
      ColorsUsed-1. */
  function SolidFShade(fShade: real, colorsUsed: nat): (shade: int)
    ensures colorsUsed >= 1 ==> 0 <= shade < colorsUsed
    ensures colorsUsed == 0 ==> shade == -1
  {
    if colorsUsed == 0 then -1 else FlatLevel(fShade, (colorsUsed - 1) as real, colorsUsed - 1)
  }

  lemma SolidFShadeEnds(fShade: real, colorsUsed: nat)
    requires colorsUsed >= 1
    ensures fShade <= 0.0 ==> SolidFShade(fShade, colorsUsed) == 0
    ensures fShade >= 1.0 ==> SolidFShade(fShade, colorsUsed) == colorsUsed - 1
  {
    FlatLevelMonotone(fShade, fShade, (colorsUsed - 1) as real, colorsUsed - 1);
  }

  // ---------------------------------------------------------------------
  // Gouraud shades

  /** The index of plPF_SolidG (n = ColorsUsed) and plPF_TransG (n =
      tsfact) for the 16.16 shade CL: n-1 from maxColor = (n-1)<<16 up,
      CL>>16 above 0, else 0. maxColor and maxColorNonShift are the pl_uInt
      expressions stored into pl_sInt32. */
  function ShadeIndex(cl: int, n: nat): (i: int)
    requires n < 0x1_0000_0000
    ensures 1 <= n <= 0x8000 ==> 0 <= i < n && i == Clamp(0, n - 1, Sar(cl, 16))
  {
    var maxColor := S32(Palette.U32(Palette.U32(n - 1) * 0x10000));
    var maxColorNonShift := S32(Palette.U32(n - 1));
    Pow2Values();
    if cl >= maxColor then maxColorNonShift else if cl > 0 then Sar(cl, 16) else 0
  }

  /** The shade-table row of plPF_TexG and plPF_PTexG for the 8.8 shade CL:
      row 0 below 0, row 255 above 255<<8, else CL>>8, which is CL>>8
      clamped to the table. */
  function TexGLevel(cl: int): (l: int)
    ensures 0 <= l <= 255
    ensures l == Clamp(0, 255, Sar(cl, 8))
  {
    Pow2Values();
    if cl < 0 then 0 else if cl > 255 * 256 then 255 else Sar(cl, 8)
  }

  // ---------------------------------------------------------------------
  // Remap indices

  /** The remap index of a texture rasterizer: the shade-table entry of the
      row (none, and so 0, when the material has no table: plPF_TexF,
      plPF_PTexF) plus the texel. */
  function TexelIndex(table: Option<seq<int>>, level: int, texel: Byte): int
    requires table.Some? ==> 0 <= level < |table.value|
  {
    (if table.Some? then table.value[level] else 0) + texel
  }

  /** The remap index of a textured pixel stays inside the colours its
      generator requested: NumColors of them without a shade table
      (_plGenerateTexturePalette), num_shades * NumColors with the table of
      _plGeneratePhongTexturePalette. */
  lemma TexelIndexInRange(table: Option<seq<int>>, levels: seq<int>, numShades: nat, numColors: nat, level: int, texel: Byte)
    requires texel < numColors && 0 <= level < 256
    requires table.Some? ==> table.value == Materials.ShadeOffsets(levels, numColors) && |levels| == 256
    requires table.Some? ==> (forall j :: 0 <= j < |levels| ==> 0 <= levels[j] < numShades) && numShades * numColors < 0x10000
    ensures table.Some? ==> 0 <= TexelIndex(table, level, texel) < numShades * numColors
    ensures table.None? ==> 0 <= TexelIndex(table, level, texel) < numColors
  {
    if table.Some? {
      Materials.ShadeOffsetInRange(levels, numShades, numColors, level, texel);
    }
  }

  /** The remap index of plPF_TexEnv: `_AddTable` at the environment texel
      plus the texture texel. */
  function EnvIndex(addTable: seq<int>, envTexel: Byte, texTexel: Byte): int
    requires envTexel < |addTable|
  {
    addTable[envTexel] + texTexel
  }

  /** With the table of _plGenerateTextureEnvPalette (entry l is l * the
      texture's colour count) every index is inside the texture-by-
      environment block of colours. */
  lemma EnvIndexInRange(addTable: seq<int>, texColors: nat, envColors: nat, envTexel: Byte, texTexel: Byte)
    requires |addTable| == envColors
    requires forall l :: 0 <= l < envColors ==> addTable[l] == U16(l * texColors)
    requires texColors * envColors < 0x10000
    requires envTexel < envColors && texTexel < texColors
    ensures 0 <= EnvIndex(addTable, envTexel, texTexel) < texColors * envColors
  {
    Materials.LevelBound(envTexel, envColors, texColors, texTexel);
    assert envTexel * texColors >= 0;
    assert addTable[envTexel] == envTexel * texColors;
  }

  // ---------------------------------------------------------------------
  // Translucent shades

  /** bc of plPF_TransF as written: the cast binds to fShade alone, so the
      shade is truncated before it is scaled, (int)fShade * tsfact in
      unsigned arithmetic, then clamped to 0 .. (signed) tsfact-1. */
  function TransFShadeAsWritten(fShade: real, tsfact: nat): (bc: int)
    requires tsfact < 0x8000_0000
    ensures tsfact >= 1 ==> 0 <= bc < tsfact
  {
    var b := S32(Palette.U32(Trunc(fShade) * tsfact));
    var b1 := if b < 0 then 0 else b;
    if b1 > tsfact - 1 then tsfact - 1 else b1
  }

  /** As written, every face darker than full intensity gets the first
      shade: an unclamped fShade in 0 .. 1 yields only levels 0 and
      tsfact-1. */
  lemma TransFAsWrittenTwoLevels(fShade: real, tsfact: nat)
    requires 1 <= tsfact < 0x8000_0000
    requires 0.0 <= fShade <= 1.0
    ensures fShade < 1.0 ==> TransFShadeAsWritten(fShade, tsfact) == 0
    ensures fShade == 1.0 ==> TransFShadeAsWritten(fShade, tsfact) == tsfact - 1
  {
  }

  /** A half-lit face of a 16-level translucent material: shade 0 as
      written where the corrected rule gives level 8. */
  lemma TransFHalfShade()
    ensures TransFShadeAsWritten(0.5, 16) == 0
    ensures TransFShade(0.5, 16) == 8
  {
    assert Trunc(0.5) == 0;
    assert Trunc(0.5 * 16 as real) == 8;
  }

  /** As written, a translucent material with tsfact 0 (shade NONE, from
      _plGenerateTransparentPalette) gets bc = -1, and a pixel over a black
      palette entry reads the remap table one entry before its start. */
  lemma TransFAsWrittenBelowTable(fShade: real, colorsUsed: nat)
    ensures TransFShadeAsWritten(fShade, 0) == -1
    ensures TransFShadeAsWritten(fShade, 0) + Palette.TransparentEntry(Rgb(0, 0, 0), colorsUsed, 0) == -1
  {
    assert Palette.TransparentEntry(Rgb(0, 0, 0), colorsUsed, 0) == 0;
  }

  /** bc of plPF_TransF as evidently intended: the shade scaled by tsfact
      and then truncated, the same rule as plPF_TransG's (Shades*tsfact)>>16,
      and 0 for a material without shade levels. */
  function TransFShade(fShade: real, tsfact: nat): (bc: int)
    ensures tsfact == 0 ==> bc == 0
    ensures tsfact >= 1 ==> 0 <= bc < tsfact
  {
    if tsfact == 0 then 0 else FlatLevel(fShade, tsfact as real, tsfact - 1)
  }

  /** With the corrected shade every translucent pixel stays inside the
      remap table; with tsfact >= 1 this holds for the shade as written
      too. */
  lemma TransFIndexInRange(fShade: real, tsfact: nat, colorsUsed: nat, under: Rgb)
    requires 1 <= colorsUsed < 0x10000 && tsfact <= colorsUsed
    ensures 0 <= TransFShade(fShade, tsfact) + Palette.TransparentEntry(under, colorsUsed, tsfact) < colorsUsed
    ensures tsfact >= 1 ==> 0 <= TransFShadeAsWritten(fShade, tsfact) + Palette.TransparentEntry(under, colorsUsed, tsfact) < colorsUsed
  {
    Palette.TransparentEntryBound(under, colorsUsed, tsfact, TransFShade(fShade, tsfact));
    if tsfact >= 1 {
      Palette.TransparentEntryBound(under, colorsUsed, tsfact, TransFShadeAsWritten(fShade, tsfact));
    }
  }

  /** plPF_TransG: the Gouraud shade index plus the table entry of the
      pixel underneath stays inside the remap table. */
  lemma TransGIndexInRange(cl: int, tsfact: nat, colorsUsed: nat, under: Rgb)
    requires 1 <= tsfact <= colorsUsed < 0x8000
    ensures 0 <= ShadeIndex(cl, tsfact) + Palette.TransparentEntry(under, colorsUsed, tsfact) < colorsUsed
  {
    Palette.TransparentEntryBound(under, colorsUsed, tsfact, ShadeIndex(cl, tsfact));
  }

  // ---------------------------------------------------------------------
  // The depth-tested span

  /** ZL at pixel i of a span: the start depth plus i steps of dZL. */
  function DepthAt(zl: real, dzl: real, i: int): real
  {
    zl + (i as real) * dzl
  }

  /** Whether pixel k of a span starting at x is drawn: always without the
      z-buffer, and only where the stored depth is below ZL with it. */
  predicate Drawn(zb: bool, z: real, x: nat, k: int, zl: real, dzl: real)
  {
    !zb || z < DepthAt(zl, dzl, k - x)
  }

  /** The depth buffer after a span of n pixels from x: ZL stored where the
      z-test passed, the rest unchanged; no depth is written without the
      z-buffer. */
  function SpanDepths(zbuf: seq<real>, x: nat, n: nat, zb: bool, zl: real, dzl: real): (r: seq<real>)
    requires x + n <= |zbuf|
    ensures |r| == |zbuf|
  {
    seq(|zbuf|, k requires 0 <= k < |zbuf| =>
      if zb && x <= k < x + n && Drawn(zb, zbuf[k], x, k, zl, dzl) then DepthAt(zl, dzl, k - x) else zbuf[k])
  }

  /** The frame buffer after the span: pixel k gets its colour vals[k-x]
      where it is drawn, the rest unchanged. */
  function SpanPixels(gmem: seq<Byte>, zbuf: seq<real>, x: nat, vals: seq<Byte>, zb: bool, zl: real, dzl: real): (r: seq<Byte>)
    requires |zbuf| == |gmem| && x + |vals| <= |gmem|
    ensures |r| == |gmem|
  {
    seq(|gmem|, k requires 0 <= k < |gmem| =>
      if x <= k < x + |vals| && Drawn(zb, zbuf[k], x, k, zl, dzl) then vals[k - x] else gmem[k])
  }

  /** The z-buffer only moves toward the viewer: no stored depth decreases. */
  lemma SpanDepthsGrow(zbuf: seq<real>, x: nat, n: nat, zb: bool, zl: real, dzl: real)
    requires x + n <= |zbuf|
    ensures forall k :: 0 <= k < |zbuf| ==> SpanDepths(zbuf, x, n, zb, zl, dzl)[k] >= zbuf[k]
  {
  }

  /** Drawing the same span twice leaves what drawing it once left. */
  lemma SpanIdempotent(gmem: seq<Byte>, zbuf: seq<real>, x: nat, vals: seq<Byte>, zb: bool, zl: real, dzl: real)
    requires |zbuf| == |gmem| && x + |vals| <= |gmem|
    ensures var z1 := SpanDepths(zbuf, x, |vals|, zb, zl, dzl);
            SpanDepths(z1, x, |vals|, zb, zl, dzl) == z1
    ensures var z1 := SpanDepths(zbuf, x, |vals|, zb, zl, dzl);
            var g1 := SpanPixels(gmem, zbuf, x, vals, zb, zl, dzl);
            SpanPixels(g1, z1, x, vals, zb, zl, dzl) == g1
  {
    var z1 := SpanDepths(zbuf, x, |vals|, zb, zl, dzl);
    var g1 := SpanPixels(gmem, zbuf, x, vals, zb, zl, dzl);
    forall k | 0 <= k < |gmem|
      ensures SpanDepths(z1, x, |vals|, zb, zl, dzl)[k] == z1[k]
      ensures SpanPixels(g1, z1, x, vals, zb, zl, dzl)[k] == g1[k]
    {
      if zb && x <= k < x + |vals| && !Drawn(zb, zbuf[k], x, k, zl, dzl) {
        assert z1[k] == zbuf[k];
        assert !Drawn(zb, z1[k], x, k, zl, dzl);
      }
    }
  }

  /** One span of a rasterizer, the `do { } while (--XL2)` over its Xlen
      >= 1 pixels from x: with the z-buffer, a pixel and its depth are
      written only when `*zbuf < ZL`; without it every pixel is written and
      the depths are left alone. vals holds each pixel's colour (for the
      translucent rasterizers, computed from the pixel underneath). */
  method DrawSpan(zbuf: array<real>, gmem: array<Byte>, x: nat, vals: seq<Byte>, zb: bool, zl: real, dzl: real)
    requires 1 <= |vals|
    requires zbuf.Length == gmem.Length && x + |vals| <= gmem.Length
    modifies zbuf, gmem
    ensures zbuf[..] == SpanDepths(old(zbuf[..]), x, |vals|, zb, zl, dzl)
    ensures gmem[..] == SpanPixels(old(gmem[..]), old(zbuf[..]), x, vals, zb, zl, dzl)
  {
    if zb {
      DrawSpanDepth(zbuf, gmem, x, vals, zl, dzl);
    } else {
      DrawSpanPlain(zbuf, gmem, x, vals, zl, dzl);
    }
  }

  /** The z-buffered loop of a span. */
  method DrawSpanDepth(zbuf: array<real>, gmem: array<Byte>, x: nat, vals: seq<Byte>, zl: real, dzl: real)
    requires 1 <= |vals|
    requires zbuf.Length == gmem.Length && x + |vals| <= gmem.Length
    modifies zbuf, gmem
    ensures zbuf[..] == SpanDepths(old(zbuf[..]), x, |vals|, true, zl, dzl)
    ensures gmem[..] == SpanPixels(old(gmem[..]), old(zbuf[..]), x, vals, true, zl, dzl)
  {
    ghost var z0 := zbuf[..];
    ghost var g0 := gmem[..];
    ghost var zs := SpanDepths(z0, x, |vals|, true, zl, dzl);
    ghost var gs := SpanPixels(g0, z0, x, vals, true, zl, dzl);
    var n := |vals|;
    var i := 0;
    var ZL := zl;
    while true
      invariant 0 <= i < |vals| && n == |vals| - i
      invariant ZL == DepthAt(zl, dzl, i)
      invariant forall k :: 0 <= k < zbuf.Length ==> zbuf[k] == if k < x + i then zs[k] else z0[k]
      invariant forall k :: 0 <= k < gmem.Length ==> gmem[k] == if k < x + i then gs[k] else g0[k]
      decreases n
    {
      if zbuf[x + i] < ZL {
        zbuf[x + i] := ZL;
        gmem[x + i] := vals[i];
      }
      assert DepthAt(zl, dzl, i + 1) == ZL + dzl;
      ZL := ZL + dzl;
      i := i + 1;
      n := n - 1;
      if n == 0 {
        break;
      }
    }
    assert zbuf[..] == zs;
    assert gmem[..] == gs;
  }

  /** The loop of a span without the z-buffer: every pixel written, the
      depths left alone. */
  method DrawSpanPlain(zbuf: array<real>, gmem: array<Byte>, x: nat, vals: seq<Byte>, zl: real, dzl: real)
    requires 1 <= |vals|
    requires zbuf.Length == gmem.Length && x + |vals| <= gmem.Length
    modifies gmem
    ensures zbuf[..] == SpanDepths(old(zbuf[..]), x, |vals|, false, zl, dzl)
    ensures gmem[..] == SpanPixels(old(gmem[..]), old(zbuf[..]), x, vals, false, zl, dzl)
  {
    ghost var z0 := zbuf[..];
    ghost var g0 := gmem[..];
    ghost var gs := SpanPixels(g0, z0, x, vals, false, zl, dzl);
    var n := |vals|;
    var i := 0;
    while true
      invariant 0 <= i < |vals| && n == |vals| - i
      invariant forall k :: 0 <= k < gmem.Length ==> gmem[k] == if k < x + i then gs[k] else g0[k]
      decreases n
    {
      gmem[x + i] := vals[i];
      i := i + 1;
      n := n - 1;
      if n == 0 {
        break;
      }
    }
    assert gmem[..] == gs;
    assert zbuf[..] == SpanDepths(z0, x, |vals|, false, zl, dzl);
  }

  // ---------------------------------------------------------------------
  // Perspective chunks

  /** nmb of plPF_PTexF and plPF_PTexG: the number of binary digits of
      PerspectiveCorrect (the `while (nm) { nmb++; nm >>= 1; }` loop),
      capped at 6. A chunk is 1<<nmb pixels: the least power of two above
      PerspectiveCorrect, and 64 from 32 up. */
  method ChunkShift(perspectiveCorrect: Byte) returns (nmb: nat)
    ensures nmb == if TextureOps.BitLength(perspectiveCorrect) < 6 then TextureOps.BitLength(perspectiveCorrect) else 6
    ensures perspectiveCorrect == 0 ==> Pow2(nmb) == 1
    ensures 1 <= perspectiveCorrect < 32 ==> perspectiveCorrect < Pow2(nmb) <= 2 * perspectiveCorrect
    ensures perspectiveCorrect >= 32 ==> Pow2(nmb) == 64
  {
    var nm: nat := perspectiveCorrect;
    nmb := 0;
    while nm != 0
      invariant nmb + TextureOps.BitLength(nm) == TextureOps.BitLength(perspectiveCorrect)
      decreases nm
    {
      nmb := nmb + 1;
      nm := nm / 2;
    }
    if nmb > 6 {
      nmb := 6;
    }
    Pow2Values();
    if perspectiveCorrect >= 32 {
      assert TextureOps.BitLength(perspectiveCorrect) >= 6 by {
        if TextureOps.BitLength(perspectiveCorrect) < 6 {
          Pow2Monotone(TextureOps.BitLength(perspectiveCorrect), 5);
        }
      }
    } else if perspectiveCorrect >= 1 {
      assert nmb <= 5;
    }
  }

  /** The chunk loop of plPF_PTexF and plPF_PTexG over a span of xlen >= 1
      pixels: each turn takes nm pixels off Xlen and shortens the chunk by
      the overshoot, until Xlen is no longer positive. Every chunk but the
      last has nm pixels, the last has 1 .. nm, and together they cover the
      span exactly. */
  method Chunks(xlen: int, nm: nat) returns (chunks: seq<nat>)
    requires xlen >= 1 && nm >= 1
    ensures |chunks| >= 1
    ensures forall i :: 0 <= i < |chunks| - 1 ==> chunks[i] == nm
    ensures 1 <= chunks[|chunks| - 1] <= nm
    ensures (|chunks| - 1) * nm + chunks[|chunks| - 1] == xlen
  {
    var left := xlen;
    chunks := [];
    while true
      invariant left >= 1
      invariant forall i :: 0 <= i < |chunks| ==> chunks[i] == nm
      invariant |chunks| * nm + left == xlen
      decreases left
    {
      var n: int := nm;
      left := left - n;
      if left < 0 {
        n := n + left;
      }
      assert (|chunks| + 1) * nm == |chunks| * nm + nm;
      chunks := chunks + [n];
      if left <= 0 {
        break;
      }
    }
  }
}
