/** Material set-up (plMatInit): the effective fill and shade type, the
    choice of one of nine rasterizers (_plSetMaterialPutFace), the colour
    list each palette generator requests, and the remap onto a palette
    (plMatMapToPal with _plMatSetupTransparent). */
module Materials {
  import opened Common
  import Palette

  // Shade types (PL_SHADE_*), bit flags except NONE.
  const ShadeNone: Byte := 1
  const ShadeFlat: Byte := 2
  const ShadeFlatDistance: Byte := 4
  const ShadeGouraud: Byte := 8
  const ShadeGouraudDistance: Byte := 16

  // Fill types (PL_FILL_*).
  const FillSolid: Byte := 0
  const FillTexture: Byte := 1
  const FillEnvironment: Byte := 2
  const FillTransparent: Byte := 4

  // Texture/environment combining modes (PL_TEXENV_*).
  const TexEnvAdd: Byte := 0
  const TexEnvMul: Byte := 1
  const TexEnvAvg: Byte := 2
  const TexEnvTexMinusEnv: Byte := 3
  const TexEnvEnvMinusTex: Byte := 4
  const TexEnvMin: Byte := 5
  const TexEnvMax: Byte := 6

  /** The nine plPF_* rasterizers a material can be bound to. */
  datatype Rasterizer = SolidF | SolidG | TexF | TexG | TexEnv | PTexF | PTexG | TransF | TransG
  {
    predicate Gouraud() { this == SolidG || this == TexG || this == PTexG || this == TransG }
    predicate Perspective() { this == PTexF || this == PTexG }
    predicate Translucent() { this == TransF || this == TransG }
    predicate Solid() { this == SolidF || this == SolidG }
  }

  /** The shade values the switch lists as flat: NONE, FLAT, FLAT_DISTANCE
      and FLAT|FLAT_DISTANCE. */
  predicate FlatShade(st: int) { st == 1 || st == 2 || st == 4 || st == 6 }

  /** The shade values the switch lists as Gouraud: GOURAUD,
      GOURAUD_DISTANCE and both. */
  predicate GouraudShade(st: int) { st == 8 || st == 16 || st == 24 }

  predicate ListedShade(st: int) { FlatShade(st) || GouraudShade(st) }

  /** The effective fill type: environment and texture bits, overridden by
      a nonzero Transparent. */
  function ResolveFill(hasTexture: bool, hasEnvironment: bool, transparent: Byte): (ft: Byte)
    ensures ft <= FillTransparent
    ensures ft == FillTransparent <==> transparent != 0
    ensures ft == FillTexture + FillEnvironment <==> transparent == 0 && hasTexture && hasEnvironment
    ensures ft == FillTexture <==> transparent == 0 && hasTexture && !hasEnvironment
    ensures ft == FillEnvironment <==> transparent == 0 && !hasTexture && hasEnvironment
    ensures ft == FillSolid <==> transparent == 0 && !hasTexture && !hasEnvironment
  {
    if transparent != 0 then FillTransparent
    else (if hasEnvironment then FillEnvironment else 0) + (if hasTexture then FillTexture else 0)
  }

  /** The effective shade type: the requested one, except that a combined
      texture and environment fill is never shaded. */
  function ResolveShade(ft: Byte, shadeType: Byte): (st: Byte)
  {
    if ft == FillTexture + FillEnvironment then ShadeNone else shadeType
  }

  /** _plSetMaterialPutFace: the rasterizer for an effective fill and shade
      type, or None (a null _PutFace) for a shade the switch does not list. */
  function SelectPutFace(ft: Byte, st: Byte, perspectiveCorrect: Byte): (r: Option<Rasterizer>)
    ensures r == Some(TexEnv) <==> ft == FillTexture + FillEnvironment
    ensures r.Some? && r.value.Solid() <==> ft == FillSolid && ListedShade(st)
    ensures r.Some? && r.value.Translucent() <==> ft == FillTransparent && ListedShade(st)
    ensures r.Some? && r.value.Perspective() <==>
              (ft == FillTexture || ft == FillEnvironment) && perspectiveCorrect != 0 && ListedShade(st)
    ensures r.Some? && r.value.Gouraud() <==> ft != FillTexture + FillEnvironment && ft <= 4 && GouraudShade(st)
    ensures r.None? <==> ft > 4 || (ft != FillTexture + FillEnvironment && !ListedShade(st))
  {
    if ft == FillTransparent then
      (if FlatShade(st) then Some(TransF) else if GouraudShade(st) then Some(TransG) else None)
    else if ft == FillSolid then
      (if FlatShade(st) then Some(SolidF) else if GouraudShade(st) then Some(SolidG) else None)
    else if ft == FillTexture || ft == FillEnvironment then
      (if perspectiveCorrect != 0 then
         (if FlatShade(st) then Some(PTexF) else if GouraudShade(st) then Some(PTexG) else None)
       else
         (if FlatShade(st) then Some(TexF) else if GouraudShade(st) then Some(TexG) else None))
    else if ft == FillTexture + FillEnvironment then Some(TexEnv)
    else None
  }

  /** What plMatInit's fill/shade resolution and the rasterizer switch
      decide together, stated on the material's own settings. */
  lemma InitRasterizer(hasTexture: bool, hasEnvironment: bool, transparent: Byte, shadeType: Byte, perspectiveCorrect: Byte)
    ensures var ft := ResolveFill(hasTexture, hasEnvironment, transparent);
            var st := ResolveShade(ft, shadeType);
            var r := SelectPutFace(ft, st, perspectiveCorrect);
            && (transparent != 0 ==> st == shadeType && (r.None? || r.value.Translucent()))
            && (transparent == 0 && hasTexture && hasEnvironment ==> st == ShadeNone && r == Some(TexEnv))
            && (r.Some? && r.value.Perspective() <==>
                  transparent == 0 && hasTexture != hasEnvironment && perspectiveCorrect != 0 && ListedShade(shadeType))
            && (r.None? <==> !ListedShade(shadeType) && !(transparent == 0 && hasTexture && hasEnvironment))
  {
  }

  /** Which palette generator plMatInit runs for a fill and shade type. */
  datatype Generator =
    | SingleGen                        // solid, unshaded
    | PhongGen                         // solid, shaded
    | TextureGen(env: bool)            // one map, unshaded; env: the environment map
    | PhongTextureGen(env: bool)       // one map, shaded
    | TextureEnvGen                    // texture and environment
    | TransparentGen                   // translucent, unshaded (tsfact 0)
    | PhongTransparentGen              // translucent, shaded

  function ChooseGenerator(ft: Byte, st: Byte): Generator
    requires ft <= FillTransparent
  {
    if ft == FillSolid then (if st == ShadeNone then SingleGen else PhongGen)
    else if ft == FillTexture then (if st == ShadeNone then TextureGen(false) else PhongTextureGen(false))
    else if ft == FillEnvironment then (if st == ShadeNone then TextureGen(true) else PhongTextureGen(true))
    else if ft == FillTexture + FillEnvironment then TextureEnvGen
    else (if st == ShadeNone then TransparentGen else PhongTransparentGen)
  }

  /** Ambient plus a palette entry, clamped per channel. */
  function AddAmbient(ambient: Triple, c: Rgb): Rgb
  {
    Rgb(ClampByte(ambient.r + c.r), ClampByte(ambient.g + c.g), ClampByte(ambient.b + c.b))
  }

  /** _plGenerateSinglePalette: the one clamped ambient colour. */
  function SinglePalette(ambient: Triple): (colors: seq<Rgb>)
    ensures |colors| == 1
    ensures colors[0] == AddAmbient(ambient, Rgb(0, 0, 0))
  {
    [Rgb(ClampByte(ambient.r), ClampByte(ambient.g), ClampByte(ambient.b))]
  }

  /** _plGenerateTexturePalette: one colour per used palette entry of the
      map, ambient added and clamped. The do-while needs NumColors >= 1. */
  method GenerateTexturePalette(ambient: Triple, palette: seq<Rgb>, numColors: nat) returns (colors: seq<Rgb>)
    requires 1 <= numColors <= |palette|
    ensures |colors| == numColors
    ensures forall i :: 0 <= i < numColors ==> colors[i] == AddAmbient(ambient, palette[i])
  {
    colors := [];
    var i := numColors;
    while i != 0
      invariant 0 <= i <= numColors && |colors| == numColors - i
      invariant forall j :: 0 <= j < |colors| ==> colors[j] == AddAmbient(ambient, palette[j])
    {
      colors := colors + [AddAmbient(ambient, palette[|colors|])];
      i := i - 1;
    }
  }

  /** num_shades of _plGeneratePhongTexturePalette: how many intensity
      levels of the map's NumColors entries fit in NumGradients, at least 1. */
  function NumShades(numGradients: nat, numColors: nat): (n: nat)
    ensures n >= 1
    ensures numColors == 0 || numGradients < numColors ==> n == 1
    ensures numColors > 0 && numGradients >= numColors ==>
              n * numColors <= numGradients < (n + 1) * numColors
  {
    var q := if numColors > 0 then numGradients / numColors else 1;
    if q == 0 then 1 else q
  }

  /** The 256-entry shade table of _plGeneratePhongTexturePalette: level i
      (the truncated sin(i*pi/512) * num_shades, given) times NumColors. */
  function ShadeOffsets(levels: seq<int>, numColors: nat): (t: seq<int>)
    ensures |t| == |levels|
  {
    seq(|levels|, i requires 0 <= i < |levels| => U16(levels[i] * numColors))
  }

  lemma LevelBound(level: nat, numShades: nat, numColors: nat, texel: nat)
    requires level < numShades && texel < numColors
    ensures level * numColors + texel < numShades * numColors
  {
    assert (numShades - level) * numColors >= numColors by {
      MulAtLeast(numColors, numShades - level);
    }
    assert (numShades - level) * numColors == numShades * numColors - level * numColors;
  }

  /** A shaded texel's remap index, shade offset plus texel, stays inside
      the num_shades * NumColors requested colours. */
  lemma ShadeOffsetInRange(levels: seq<int>, numShades: nat, numColors: nat, i: int, texel: nat)
    requires forall j :: 0 <= j < |levels| ==> 0 <= levels[j] < numShades
    requires numShades * numColors < 0x10000
    requires 0 <= i < |levels| && texel < numColors
    ensures 0 <= ShadeOffsets(levels, numColors)[i] + texel < numShades * numColors
  {
    LevelBound(levels[i], numShades, numColors, texel);
    assert levels[i] * numColors >= 0;
    assert ShadeOffsets(levels, numColors)[i] == levels[i] * numColors;
  }

  lemma ProductBound(t: Byte, e: Byte)
    ensures 0 <= t * e <= 255 * 255
  {
    assert (255 - t) * e >= 0;
    assert 255 * (255 - e) >= 0;
  }

  /** One channel of the texture/environment combination, for every mode
      but MAX (which writes nothing); ADD and unknown modes add. */
  function Combine(mode: Byte, t: Byte, e: Byte): (c: Byte)
    ensures mode == TexEnvMul ==> c * 256 <= t * e < (c + 1) * 256
    ensures mode == TexEnvAvg ==> 2 * c <= t + e <= 2 * c + 1
    ensures mode == TexEnvTexMinusEnv ==> c == if t >= e then t - e else 0
    ensures mode == TexEnvEnvMinusTex ==> c == 0
    ensures mode == TexEnvMin ==> c <= t && c <= e && (c == t || c == e)
    ensures !(1 <= mode <= 5) ==> c == if t + e <= 255 then t + e else 255
  {
    ProductBound(t, e);
    if mode == TexEnvMul then (t * e) / 256
    else if mode == TexEnvAvg then (t + e) / 2
    else if mode == TexEnvTexMinusEnv then ClampByte(t - e)
    else if mode == TexEnvEnvMinusTex then ClampByte(-(t as int) - e)
    else if mode == TexEnvMin then (if t < e then t else e)
    else ClampByte(t + e)
  }

  function CombineRgb(mode: Byte, t: Rgb, e: Rgb): Rgb
  {
    Rgb(Combine(mode, t.r, e.r), Combine(mode, t.g, e.g), Combine(mode, t.b, e.b))
  }

  /** The colours one environment level contributes: every texture entry
      combined with that level's environment colour. */
  function TexEnvRow(mode: Byte, tex: seq<Rgb>, e: Rgb): (row: seq<Rgb>)
    ensures |row| == |tex|
  {
    seq(|tex|, i requires 0 <= i < |tex| => CombineRgb(mode, tex[i], e))
  }

  /** The requested colours of _plGenerateTextureEnvPalette: one row per
      environment level, in order. */
  function TexEnvColors(mode: Byte, tex: seq<Rgb>, env: seq<Rgb>): (colors: seq<Rgb>)
    ensures |colors| == |env| * |tex|
  {
    if |env| == 0 then []
    else TexEnvColors(mode, tex, env[..|env| - 1]) + TexEnvRow(mode, tex, env[|env| - 1])
  }

  lemma PrefixOfPrefix<T>(s: seq<T>, k: nat)
    requires k < |s|
    ensures s[..k + 1][..k] == s[..k]
  {
  }

  /** Entry l * texColors + i is texture colour i combined with
      environment colour l. */
  lemma {:induction false} TexEnvEntry(mode: Byte, tex: seq<Rgb>, env: seq<Rgb>, l: int, i: int)
    requires 0 <= l < |env| && 0 <= i < |tex|
    ensures 0 <= l * |tex| + i < |TexEnvColors(mode, tex, env)|
    ensures TexEnvColors(mode, tex, env)[l * |tex| + i] == CombineRgb(mode, tex[i], env[l])
  {
    var n := |env| - 1;
    var front := env[..n];
    assert |TexEnvColors(mode, tex, front)| == n * |tex|;
    LevelBound(l, |env|, |tex|, i);
    if l == n {
      assert TexEnvColors(mode, tex, env)[l * |tex| + i] == TexEnvRow(mode, tex, env[n])[i];
    } else {
      TexEnvEntry(mode, tex, front, l, i);
      assert front[l] == env[l];
    }
  }

  /** One more environment level appends its row. */
  lemma TexEnvColorsStep(mode: Byte, tex: seq<Rgb>, env: seq<Rgb>, level: nat)
    requires level < |env|
    ensures TexEnvColors(mode, tex, env[..level + 1]) == TexEnvColors(mode, tex, env[..level]) + TexEnvRow(mode, tex, env[level])
  {
    PrefixOfPrefix(env, level);
  }

  /** The inner loop of _plGenerateTextureEnvPalette: every texture
      colour combined with environment colour e, in order. */
  method CombineLevel(mode: Byte, tex: seq<Rgb>, e: Rgb) returns (row: seq<Rgb>)
    ensures row == TexEnvRow(mode, tex, e)
  {
    row := [];
    var index := 0;
    while index < |tex|
      invariant 0 <= index <= |tex|
      invariant row == TexEnvRow(mode, tex, e)[..index]
    {
      row := row + [CombineRgb(mode, tex[index], e)];
      index := index + 1;
    }
  }

  /** The ENVMINUSTEX branch computes -tex - env, never positive: every
      colour it requests is black. */
  lemma EnvMinusTexIsBlack(tex: seq<Rgb>, env: seq<Rgb>, l: int, i: int)
    requires 0 <= l < |env| && 0 <= i < |tex|
    ensures 0 <= l * |tex| + i < |TexEnvColors(TexEnvEnvMinusTex, tex, env)|
    ensures TexEnvColors(TexEnvEnvMinusTex, tex, env)[l * |tex| + i] == Rgb(0, 0, 0)
  {
    TexEnvEntry(TexEnvEnvMinusTex, tex, env, l, i);
  }

  /** The AddTable of the first n environment levels: level l starts at
      colour l * nt (stored in a uInt16). */
  function EnvOffsets(nt: nat, n: nat): (t: seq<int>)
    ensures |t| == n && forall l :: 0 <= l < n ==> t[l] == U16(l * nt)
  {
    seq(n, l requires 0 <= l < n => U16(l * nt))
  }

  /** _plGenerateTextureEnvPalette. The buffer starts with whatever the
      allocation held (`prior`); in MAX mode the switch breaks before
      writing, so the buffer keeps it. AddTable[l] is the first colour of
      environment level l. */
  method GenerateTextureEnvPalette(mode: Byte, tex: seq<Rgb>, env: seq<Rgb>, prior: seq<Rgb>)
    returns (colors: seq<Rgb>, addTable: seq<int>)
    requires |prior| == |tex| * |env|
    ensures |colors| == |tex| * |env|
    ensures |addTable| == |env|
    ensures forall l :: 0 <= l < |env| ==> addTable[l] == U16(l * |tex|)
    ensures mode == TexEnvMax ==> colors == prior
    ensures mode != TexEnvMax ==> colors == TexEnvColors(mode, tex, env)
  {
    var out;
    out, addTable := TexEnvLevels(mode, tex, env);
    assert |out| <= |prior|;
    colors := out + prior[|out|..];
  }

  /** The level loop of _plGenerateTextureEnvPalette: what it appends to
      the buffer (nothing in MAX mode) and the AddTable it fills. */
  method TexEnvLevels(mode: Byte, tex: seq<Rgb>, env: seq<Rgb>) returns (out: seq<Rgb>, addTable: seq<int>)
    ensures addTable == EnvOffsets(|tex|, |env|)
    ensures mode == TexEnvMax ==> out == []
    ensures mode != TexEnvMax ==> out == TexEnvColors(mode, tex, env)
  {
    out := [];
    addTable := [];
    var level := 0;
    while level < |env|
      invariant 0 <= level <= |env|
      invariant addTable == EnvOffsets(|tex|, level)
      invariant mode == TexEnvMax ==> out == []
      invariant mode != TexEnvMax ==> out == TexEnvColors(mode, tex, env[..level])
    {
      if mode != TexEnvMax {
        var row := CombineLevel(mode, tex, env[level]);
        out := out + row;
        TexEnvColorsStep(mode, tex, env, level);
      }
      addTable := addTable + [U16(level * |tex|)];
      assert addTable == EnvOffsets(|tex|, level + 1);
      level := level + 1;
    }
    assert env[..level] == env;
  }

  /** The values plMatInit derives from floating point (cos, pow, sin), taken
      as given: the Phong colour ramp, the shade levels of the textured Phong
      table, and the prior content of the TexEnv buffer. */
  datatype Shading = Shading(ramp: seq<Rgb>, levels: seq<int>, prior: seq<Rgb>)

  /** The used part of a map's palette. */
  function UsedColors(t: Texture): seq<Rgb>
    requires t.numColors <= |t.palette|
  {
    t.palette[..t.numColors]
  }

  /** The settings of a pl_Mat that the application chooses and plMatInit
      only reads. */
  datatype Settings = Settings(
    ambient: Triple, shadeType: Byte, transparent: Byte, perspectiveCorrect: Byte,
    texture: Option<Texture>, environment: Option<Texture>, texEnvMode: Byte,
    zBufferable: bool, numGradients: nat)

  /** The fields of a pl_Mat that plMatInit and plMatMapToPal write. */
  datatype Derived = Derived(
    shininess: nat, ft: Byte, st: Byte, putFace: Option<Rasterizer>, colorsUsed: nat,
    requestedColors: Option<seq<Rgb>>, addTable: Option<seq<int>>, tsfact: nat,
    reMapTable: Option<seq<Byte>>)

  /** pl_Mat, restricted to what the integer palette code reads and writes.
      The pointer fields are Options (None: null). */
  class Material {
    var ambient: Triple
    var shininess: nat
    var shadeType: Byte
    var transparent: Byte
    var perspectiveCorrect: Byte
    var texture: Option<Texture>
    var environment: Option<Texture>
    var texEnvMode: Byte
    var zBufferable: bool
    var numGradients: nat
    var colorsUsed: nat
    var st: Byte
    var ft: Byte
    var tsfact: nat
    var addTable: Option<seq<int>>
    var reMapTable: Option<seq<Byte>>
    var requestedColors: Option<seq<Rgb>>
    var putFace: Option<Rasterizer>

    /** plMatCreate: everything zero except the documented defaults. */
    constructor ()
      ensures ambient == Triple(0, 0, 0) && shininess == 4 && numGradients == 32 && zBufferable
      ensures shadeType == 0 && transparent == 0 && perspectiveCorrect == 0 && texEnvMode == TexEnvAdd
      ensures texture.None? && environment.None?
      ensures colorsUsed == 0 && st == 0 && ft == 0 && tsfact == 0
      ensures addTable.None? && reMapTable.None? && requestedColors.None? && putFace.None?
    {
      ambient := Triple(0, 0, 0);
      shininess := 4;
      shadeType := 0;
      transparent := 0;
      perspectiveCorrect := 0;
      texture := None;
      environment := None;
      texEnvMode := TexEnvAdd;
      zBufferable := true;
      numGradients := 32;
      colorsUsed := 0;
      st := 0;
      ft := 0;
      tsfact := 0;
      addTable := None;
      reMapTable := None;
      requestedColors := None;
      putFace := None;
    }

    function Config(): Settings
      reads this`ambient, this`shadeType, this`transparent, this`perspectiveCorrect
      reads this`texture, this`environment, this`texEnvMode, this`zBufferable, this`numGradients
    {
      Settings(ambient, shadeType, transparent, perspectiveCorrect, texture, environment,
               texEnvMode, zBufferable, numGradients)
    }

    function State(): Derived
      reads this`shininess, this`ft, this`st, this`putFace, this`colorsUsed
      reads this`requestedColors, this`addTable, this`tsfact, this`reMapTable
    {
      Derived(shininess, ft, st, putFace, colorsUsed, requestedColors, addTable, tsfact, reMapTable)
    }

    function Fill(): Byte
      reads this`texture, this`environment, this`transparent
    {
      ResolveFill(texture.Some?, environment.Some?, transparent)
    }

    /** The requested colours and their count agree. */
    predicate Consistent()
      reads this`requestedColors, this`colorsUsed
    {
      requestedColors.Some? ==> |requestedColors.value| == colorsUsed
    }

    /** A material plMatMakeOptPal may still initialise: consistent, and
      ready for plMatInit unless its colours are already requested. */
    predicate Pending(s: Shading)
      reads this`requestedColors, this`colorsUsed, this`texture, this`environment
      reads this`transparent, this`shadeType, this`numGradients
    {
      Consistent() && (requestedColors.None? ==> Ready(s))
    }

    /** A material whose colours are requested, as plMatInit leaves it. */
    predicate Done()
      reads this`requestedColors, this`colorsUsed
    {
      requestedColors.Some? && Consistent()
    }

    /** What the generator plMatInit will run demands: the do-while loops
      need a count of at least one, a map's NumColors entries must exist,
      and the given float-derived values must have the sizes the code
      writes (each shade level lies in 0 .. num_shades-1, since
      sin(i*pi/512) < 1 for i < 256). */
    predicate Ready(s: Shading)
      reads this`texture, this`environment, this`transparent, this`shadeType, this`numGradients
    {
      var ft := Fill();
      match ChooseGenerator(ft, ResolveShade(ft, shadeType))
      case SingleGen => true
      case PhongGen => numGradients >= 1 && |s.ramp| == numGradients
      case TransparentGen => numGradients >= 1 && |s.ramp| == numGradients
      case PhongTransparentGen => numGradients >= 1 && |s.ramp| == numGradients
      case TextureGen(e) =>
        var t := if e then environment.value else texture.value;
        1 <= t.numColors <= |t.palette|
      case PhongTextureGen(e) =>
        var t := if e then environment.value else texture.value;
        var n := NumShades(numGradients, t.numColors);
        && 1 <= t.numColors <= |t.palette|
        && |s.ramp| == n * t.numColors
        && |s.levels| == 256
        && (forall i :: 0 <= i < 256 ==> 0 <= s.levels[i] < n)
      case TextureEnvGen =>
        && texture.value.numColors <= |texture.value.palette|
        && environment.value.numColors <= |environment.value.palette|
        && |s.prior| == texture.value.numColors * environment.value.numColors
    }

    /** What plMatInit leaves, given the shininess, AddTable and factor
      the material had before: shininess at least 1, the effective fill
      and shade type, the rasterizer of _plSetMaterialPutFace, and the
      colours of the generator they select. */
    predicate Initialised(s: Shading, oldShininess: nat, oldAddTable: Option<seq<int>>, oldTsfact: nat)
      reads this`shininess, this`ft, this`st, this`putFace, this`perspectiveCorrect, this`shadeType
      reads this`texture, this`environment, this`transparent, this`ambient, this`numGradients
      reads this`texEnvMode, this`colorsUsed, this`requestedColors, this`addTable, this`tsfact
    {
      && shininess == (if oldShininess < 1 then 1 else oldShininess)
      && ft == Fill() && st == ResolveShade(ft, shadeType)
      && putFace == SelectPutFace(ft, st, perspectiveCorrect)
      && Consistent()
      && Generated(s, oldAddTable, oldTsfact)
    }

    /** plMatInit. */
    method Init(s: Shading)
      requires Ready(s)
      modifies this`shininess, this`ft, this`st, this`putFace
      modifies this`colorsUsed, this`requestedColors, this`addTable, this`tsfact
      ensures Initialised(s, old(shininess), old(addTable), old(tsfact))
    {
      Resolve();
      // _plSetMaterialPutFace reads only _ft, _st and PerspectiveCorrect,
      // which no generator writes, so it is done here rather than last.
      putFace := SelectPutFace(ft, st, perspectiveCorrect);
      RunGenerator(s);
    }

    /** What the first loop of plMatMakeOptPal has made of a material that
      had settings c0 and fields d0: settings and remap table kept, a
      material with colours or not yet reached left as it was, one it has
      initialised holding plMatInit's result. */
    predicate PreparedFrom(s: Shading, c0: Settings, d0: Derived)
      reads this
    {
      && Pending(s) && Config() == c0 && reMapTable == d0.reMapTable
      && (d0.requestedColors.Some? || requestedColors.None? ==> State() == d0)
      && (d0.requestedColors.None? && requestedColors.Some? ==> Initialised(s, d0.shininess, d0.addTable, d0.tsfact))
    }

    /** One turn of the first loop of plMatMakeOptPal: plMatInit on a
      material without requested colours, nothing otherwise. c0 and d0
      are the material's settings and fields when the loop began; a turn
      keeps PreparedFrom, also when the material was reached before. */
    method Prepare(s: Shading, ghost c0: Settings, ghost d0: Derived)
      requires PreparedFrom(s, c0, d0)
      modifies this`shininess, this`ft, this`st, this`putFace
      modifies this`colorsUsed, this`requestedColors, this`addTable, this`tsfact
      ensures Done() && PreparedFrom(s, c0, d0)
      ensures old(requestedColors).Some? ==> State() == old(State())
      ensures old(requestedColors).None? ==> Initialised(s, old(shininess), old(addTable), old(tsfact))
    {
      if requestedColors.None? {
        Init(s);
      }
    }

    /** The first part of plMatInit: shininess at least 1, then the
      effective fill and shade type. */
    method Resolve()
      modifies this`shininess, this`ft, this`st
      ensures shininess == if old(shininess) < 1 then 1 else old(shininess)
      ensures ft == Fill() && st == ResolveShade(ft, shadeType)
    {
      if shininess < 1 {
        shininess := 1;
      }
      ft := ResolveFill(texture.Some?, environment.Some?, transparent);
      st := ResolveShade(ft, shadeType);
    }

    /** What the generator chosen by the effective fill and shade type
      leaves in the material, given the table and factor it had before. */
    predicate Generated(s: Shading, oldAddTable: Option<seq<int>>, oldTsfact: nat)
      reads this`ft, this`st, this`texture, this`environment, this`transparent, this`ambient
      reads this`numGradients, this`texEnvMode, this`colorsUsed, this`requestedColors, this`addTable, this`tsfact
    {
      && requestedColors.Some?
      && ft <= FillTransparent
      && match ChooseGenerator(ft, st)
        case SingleGen =>
          colorsUsed == 1 && requestedColors.value == SinglePalette(ambient)
          && addTable == oldAddTable && tsfact == oldTsfact
        case PhongGen =>
          RampGenerated(s) && addTable == oldAddTable && tsfact == oldTsfact
        case TransparentGen =>
          RampGenerated(s) && addTable == oldAddTable && tsfact == 0
        case PhongTransparentGen =>
          RampGenerated(s) && addTable == oldAddTable && tsfact == numGradients / (1 + transparent)
        case TextureGen(e) =>
          var map_ := if e then environment else texture;
          map_.Some? && TextureGenerated(map_.value) && addTable == oldAddTable && tsfact == oldTsfact
        case PhongTextureGen(e) =>
          var map_ := if e then environment else texture;
          map_.Some? && PhongTextureGenerated(s, map_.value) && tsfact == oldTsfact
        case TextureEnvGen =>
          TextureEnvGenerated(s) && tsfact == oldTsfact
    }

    /** What _plGeneratePhongPalette leaves: NumGradients colours, the
      given ramp. */
    predicate RampGenerated(s: Shading)
      reads this`colorsUsed, this`requestedColors, this`numGradients
    {
      colorsUsed == numGradients && requestedColors == Some(s.ramp)
    }

    /** What _plGenerateTexturePalette(t) leaves: one colour per used entry
      of t's palette, ambient added and clamped. */
    predicate TextureGenerated(t: Texture)
      reads this`colorsUsed, this`requestedColors, this`ambient
    {
      && colorsUsed == t.numColors
      && requestedColors.Some? && |requestedColors.value| == colorsUsed
      && (forall i :: 0 <= i < colorsUsed ==> i < |t.palette| && requestedColors.value[i] == AddAmbient(ambient, t.palette[i]))
    }

    /** What _plGeneratePhongTexturePalette(t) leaves: num_shades copies
      of t's used colours (the given ramp) and the 256-entry shade table. */
    predicate PhongTextureGenerated(s: Shading, t: Texture)
      reads this`colorsUsed, this`requestedColors, this`numGradients, this`addTable
    {
      && colorsUsed == NumShades(numGradients, t.numColors) * t.numColors
      && requestedColors == Some(s.ramp)
      && addTable == Some(ShadeOffsets(s.levels, t.numColors))
    }

    /** What _plGenerateTextureEnvPalette leaves: one row of combined
      colours per environment level (the buffer untouched in MAX mode) and
      the first colour of each level in AddTable. */
    predicate TextureEnvGenerated(s: Shading)
      reads this`texture, this`environment, this`texEnvMode, this`colorsUsed, this`requestedColors, this`addTable
    {
      && texture.Some? && texture.value.numColors <= |texture.value.palette|
      && environment.Some? && environment.value.numColors <= |environment.value.palette|
      && var tex := UsedColors(texture.value);
      && var env := UsedColors(environment.value);
      && colorsUsed == |tex| * |env|
      && requestedColors == Some(if texEnvMode == TexEnvMax then s.prior else TexEnvColors(texEnvMode, tex, env))
      && addTable.Some? && |addTable.value| == |env|
      && (forall l :: 0 <= l < |env| ==> addTable.value[l] == U16(l * |tex|))
    }

    /** The generator dispatch of plMatInit, once _ft and _st are set. */
    method RunGenerator(s: Shading)
      requires Ready(s) && ft == Fill() && st == ResolveShade(ft, shadeType)
      modifies this`colorsUsed, this`requestedColors, this`addTable, this`tsfact
      ensures requestedColors.Some? && Consistent()
      ensures Generated(s, old(addTable), old(tsfact))
    {
      match ChooseGenerator(ft, st) {
      case SingleGen =>
        GenerateSingle();
      case PhongGen =>
        GeneratePhong(s);
      case TransparentGen =>
        GenerateTransparent(s);
      case PhongTransparentGen =>
        GeneratePhongTransparent(s);
      case TextureGen(e) =>
        GenerateTexture(if e then environment.value else texture.value);
      case PhongTextureGen(e) =>
        GeneratePhongTexture(s, if e then environment.value else texture.value);
      case TextureEnvGen =>
        GenerateTextureEnv(s);
      }
    }

    /** _plGenerateSinglePalette. */
    method GenerateSingle()
      modifies this`colorsUsed, this`requestedColors
      ensures colorsUsed == 1 && requestedColors == Some(SinglePalette(ambient))
      ensures Consistent()
    {
      colorsUsed := 1;
      requestedColors := Some(SinglePalette(ambient));
    }

    /** _plGeneratePhongPalette, the ramp given. */
    method GeneratePhong(s: Shading)
      requires |s.ramp| == numGradients
      modifies this`colorsUsed, this`requestedColors
      ensures RampGenerated(s) && Consistent()
    {
      colorsUsed := numGradients;
      requestedColors := Some(s.ramp);
    }

    /** _plGenerateTransparentPalette: factor 0, then the Phong ramp. */
    method GenerateTransparent(s: Shading)
      requires |s.ramp| == numGradients
      modifies this`colorsUsed, this`requestedColors, this`tsfact
      ensures RampGenerated(s) && Consistent() && tsfact == 0
    {
      tsfact := 0;
      GeneratePhong(s);
    }

    /** _plGeneratePhongTransparentPalette: factor NumGradients / (1 +
      Transparent), then the Phong ramp. */
    method GeneratePhongTransparent(s: Shading)
      requires |s.ramp| == numGradients
      modifies this`colorsUsed, this`requestedColors, this`tsfact
      ensures RampGenerated(s) && Consistent() && tsfact == numGradients / (1 + transparent)
    {
      tsfact := numGradients / (1 + transparent);
      GeneratePhong(s);
    }

    /** _plGenerateTexturePalette(m, t). */
    method GenerateTexture(t: Texture)
      requires 1 <= t.numColors <= |t.palette|
      modifies this`colorsUsed, this`requestedColors
      ensures TextureGenerated(t) && Consistent()
    {
      colorsUsed := t.numColors;
      var c := GenerateTexturePalette(ambient, t.palette, t.numColors);
      requestedColors := Some(c);
    }

    /** _plGeneratePhongTexturePalette(m, t), the ramp and the shade levels
      given. */
    method GeneratePhongTexture(s: Shading, t: Texture)
      requires |s.ramp| == NumShades(numGradients, t.numColors) * t.numColors
      modifies this`colorsUsed, this`requestedColors, this`addTable
      ensures PhongTextureGenerated(s, t) && Consistent()
    {
      colorsUsed := NumShades(numGradients, t.numColors) * t.numColors;
      requestedColors := Some(s.ramp);
      addTable := Some(ShadeOffsets(s.levels, t.numColors));
    }

    /** _plGenerateTextureEnvPalette on the material's two maps. */
    method GenerateTextureEnv(s: Shading)
      requires texture.Some? && texture.value.numColors <= |texture.value.palette|
      requires environment.Some? && environment.value.numColors <= |environment.value.palette|
      requires |s.prior| == texture.value.numColors * environment.value.numColors
      modifies this`colorsUsed, this`requestedColors, this`addTable
      ensures TextureEnvGenerated(s) && Consistent()
    {
      var tex := UsedColors(texture.value);
      var env := UsedColors(environment.value);
      colorsUsed := |tex| * |env|;
      var c, a := GenerateTextureEnvPalette(texEnvMode, tex, env, s.prior);
      requestedColors := Some(c);
      addTable := Some(a);
    }

    /** plMatMapToPal: initialises the material first when it has no
      requested colours, then maps each requested colour to its nearest
      entry in pal[pstart..pend] and, for a translucent material, rebuilds
      the translucency table from the palette (_plMatSetupTransparent). */
    method MapToPal(pal: seq<Rgb>, pstart: int, pend: int, s: Shading)
      requires |pal| == 256 && 0 <= pstart < 256 && pend < 256
      requires requestedColors.None? ==> Ready(s)
      requires Consistent()
      modifies this`shininess, this`ft, this`st, this`putFace, this`colorsUsed
      modifies this`requestedColors, this`addTable, this`tsfact, this`reMapTable
      ensures requestedColors.Some? && Consistent()
      ensures old(requestedColors).Some? ==>
                && requestedColors == old(requestedColors) && colorsUsed == old(colorsUsed)
                && shininess == old(shininess) && ft == old(ft) && st == old(st)
                && putFace == old(putFace) && tsfact == old(tsfact)
      ensures old(requestedColors).Some? && transparent == 0 ==> addTable == old(addTable)
      ensures old(requestedColors).None? && transparent == 0 ==>
                Initialised(s, old(shininess), old(addTable), old(tsfact))
      // A translucent material's generator leaves AddTable as it was, and
      // the translucency table then replaces it.
      ensures old(requestedColors).None? && transparent != 0 ==>
                Initialised(s, old(shininess), addTable, old(tsfact))
      ensures reMapTable.Some? && Palette.NearestMap(pal, requestedColors.value, pstart, pend, reMapTable.value)
      ensures transparent != 0 ==> addTable.Some? && |addTable.value| == 256
      ensures transparent != 0 ==> forall x :: 0 <= x < 256 ==>
                addTable.value[x] == Palette.TransparentEntry(pal[x], colorsUsed, tsfact)
    {
      if requestedColors.None? {
        Init(s);
      }
      Remap(pal, pstart, pend);
    }

    /** The part of plMatMapToPal after plMatInit: the remap table, then
      the translucency table of a translucent material. */
    method Remap(pal: seq<Rgb>, pstart: int, pend: int)
      requires |pal| == 256 && 0 <= pstart < 256 && pend < 256
      requires requestedColors.Some? && Consistent()
      modifies this`addTable, this`reMapTable
      ensures reMapTable.Some? && Palette.NearestMap(pal, requestedColors.value, pstart, pend, reMapTable.value)
      ensures transparent == 0 ==> addTable == old(addTable)
      ensures transparent != 0 ==> addTable.Some? && |addTable.value| == 256
      ensures transparent != 0 ==> forall x :: 0 <= x < 256 ==>
                addTable.value[x] == Palette.TransparentEntry(pal[x], colorsUsed, tsfact)
    {
      var table := Palette.MapColors(pal, requestedColors.value, pstart, pend);
      reMapTable := Some(table);
      if transparent != 0 {
        var t := Palette.TransparentTable(pal, colorsUsed, tsfact);
        addTable := Some(t);
      }
    }
  }
}
