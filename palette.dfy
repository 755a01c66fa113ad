/** The palette lookups of plMatMapToPal and _plMatSetupTransparent: the
    nearest-colour search over a palette range and the 256-entry table that
    maps a palette entry's intensity to a translucency offset. */
module Palette {
  import opened Common

  /** Value of an unsigned 32-bit expression (pl_uInt arithmetic wraps). */
  function U32(x: int): (r: nat)
    ensures r < 0x1_0000_0000
    ensures 0 <= x < 0x1_0000_0000 ==> r == x
  {
    x % 0x1_0000_0000
  }

  /** The nearest-colour search that plMatMapToPal runs for one requested
      colour: the palette index in [pstart, pend] at the least squared
      distance, the lowest such index on a tie (the update is a strict `<`),
      and pstart when the range is empty. */
  method BestMatch(pal: seq<Rgb>, c: Rgb, pstart: int, pend: int) returns (best: int)
    requires 0 <= pstart && pend < |pal|
    ensures pend < pstart ==> best == pstart
    ensures pstart <= pend ==> pstart <= best <= pend
    ensures pstart <= pend ==> forall k :: pstart <= k <= pend ==> Dist(pal[best], c) <= Dist(pal[k], c)
    ensures pstart <= pend ==> forall k :: pstart <= k < best ==> Dist(pal[best], c) < Dist(pal[k], c)
  {
    var bestdiff := 1000000000;
    best := pstart;
    var k := pstart;
    while k <= pend
      invariant pstart <= k <= (if pend < pstart then pstart else pend + 1)
      invariant k == pstart ==> best == pstart && bestdiff == 1000000000
      invariant k > pstart ==> pstart <= best < k && bestdiff == Dist(pal[best], c)
      invariant forall j :: pstart <= j < k ==> bestdiff <= Dist(pal[j], c)
      invariant forall j :: pstart <= j < best ==> bestdiff < Dist(pal[j], c)
    {
      var j := Dist(pal[k], c);
      if j < bestdiff {
        bestdiff := j;
        best := k;
      }
      k := k + 1;
    }
  }

  /** table maps every colour of `colors` to its nearest entry of
      pal[pstart..pend], the lowest on a tie, or to pstart when the range
      is empty. */
  predicate NearestMap(pal: seq<Rgb>, colors: seq<Rgb>, pstart: int, pend: int, table: seq<Byte>)
    requires 0 <= pstart && pend < |pal|
  {
    && |table| == |colors|
    && forall i :: 0 <= i < |colors| ==>
         var k := table[i];
         && (pend < pstart ==> k == pstart)
         && (pstart <= pend ==>
               && pstart <= k <= pend
               && (forall j :: pstart <= j <= pend ==> Dist(pal[k], colors[i]) <= Dist(pal[j], colors[i]))
               && (forall j :: pstart <= j < k ==> Dist(pal[k], colors[i]) < Dist(pal[j], colors[i])))
  }

  /** The loop of plMatMapToPal over the requested colours. */
  method MapColors(pal: seq<Rgb>, colors: seq<Rgb>, pstart: int, pend: int) returns (table: seq<Byte>)
    requires |pal| == 256 && 0 <= pstart < 256 && pend < 256
    ensures NearestMap(pal, colors, pstart, pend, table)
  {
    table := [];
    var i := 0;
    while i < |colors|
      invariant 0 <= i <= |colors|
      invariant NearestMap(pal, colors[..i], pstart, pend, table)
    {
      var k := BestMatch(pal, colors[i], pstart, pend);
      table := table + [k];
      i := i + 1;
      assert colors[..i][..i - 1] == colors[..i - 1];
    }
    assert colors[..i] == colors;
  }

  /** Sum of the three channels of a palette entry. */
  function Intensity(c: Rgb): nat
  {
    c.r + c.g + c.b
  }

  /** One entry of the translucency table: intensity * (ColorsUsed - tsfact)
      / 768 in unsigned 32-bit arithmetic, stored as 16 bits. */
  function TransparentEntry(c: Rgb, colorsUsed: nat, tsfact: nat): nat
  {
    U16(U32(Intensity(c) * U32(colorsUsed - tsfact)) / 768)
  }

  /** The loop of _plMatSetupTransparent over the first 256 palette entries. */
  method TransparentTable(pal: seq<Rgb>, colorsUsed: nat, tsfact: nat) returns (table: seq<int>)
    requires |pal| >= 256
    ensures |table| == 256
    ensures forall x :: 0 <= x < 256 ==> table[x] == TransparentEntry(pal[x], colorsUsed, tsfact)
  {
    table := [];
    var x := 0;
    while x < 256
      invariant 0 <= x <= 256 && |table| == x
      invariant forall y :: 0 <= y < x ==> table[y] == TransparentEntry(pal[y], colorsUsed, tsfact)
    {
      table := table + [TransparentEntry(pal[x], colorsUsed, tsfact)];
      x := x + 1;
    }
  }

  lemma ScaledBelow(i: nat, d: nat)
    requires i <= 765
    ensures i * d <= 765 * d
    ensures (i * d) / 768 <= d
    ensures d > 0 ==> (i * d) / 768 < d
  {
    assert 765 * d - i * d == (765 - i) * d;
    assert (765 - i) * d >= 0;
  }

  /** Without wrap-around (tsfact <= ColorsUsed, both small) an entry is the
      plain quotient and stays below ColorsUsed - tsfact, so the translucent
      rasterizers' index `bc + AddTable[..]` with bc < tsfact stays below
      ColorsUsed, inside _ReMapTable. */
  lemma TransparentEntryBound(c: Rgb, colorsUsed: nat, tsfact: nat, bc: int)
    requires tsfact <= colorsUsed < 0x10000
    requires 0 <= bc < tsfact || (bc == 0 && colorsUsed > 0)
    ensures TransparentEntry(c, colorsUsed, tsfact) == (Intensity(c) * (colorsUsed - tsfact)) / 768
    ensures 0 <= bc + TransparentEntry(c, colorsUsed, tsfact) < colorsUsed
  {
    var d := colorsUsed - tsfact;
    var i := Intensity(c);
    ScaledBelow(i, d);
    assert 765 * d < 0x1_0000_0000;
    assert U32(d) == d;
    assert U32(i * d) == i * d;
    assert (i * d) / 768 < 0x10000;
  }
}
