# A verified model of the integer core of Plush

Plush (`plush.h`) is a single-header 8-bit software renderer: materials
request colours, a palette is fitted to them, faces are transformed,
culled, depth-sorted, clipped against the view frustum and scan-converted
through a remap table into an 8-bit frame buffer with an optional float
z-buffer. This project models the discrete part of that pipeline in Dafny
and proves what each step guarantees:

- **Materials** (`material.dfy`, module `Materials`): how `plMatInit`
  resolves the effective fill and shade type, the rasterizer switch of
  `_plSetMaterialPutFace`, the integer palette generators (single colour,
  texture, texture × environment) and the counts of the Phong ones, and
  `plMatMapToPal` with `_plMatSetupTransparent`. A `pl_Mat` is a class
  whose `_ft`, `_st`, `_ColorsUsed`, `_RequestedColors`, `_AddTable`,
  `_tsfact`, `_ReMapTable` and `_PutFace` fields the methods update.
- **Palette helpers** (`palette.dfy`, module `Palette`): the nearest-colour
  search of `plMatMapToPal`, the translucency table and the unsigned
  16/32-bit stores.
- **Optimal palette** (`optpal.dfy`, module `OptPalette`):
  `plMatMakeOptPal`, with its colour blocks as arrays (`rgb`, `visited`,
  `next` with -1 for a null pointer). It builds the nearest-neighbour
  chain in place, merges the closest adjacent pair by splicing `next`, and
  writes the chain's colours into the palette. Each method is proved
  against functions on sequences (`Scan`, `Chain`, `MergeClosest`,
  `Reduce`), and the properties are proved about those functions.
- **Face sort** (`facesort.dfy`, module `FaceSort`): `_hsort`/`_sift_down`,
  the 1-based in-place heap sort on an array of `_faceInfo`.
- **Render session** (`render.dfy`, module `Render`): `plRenderBegin`,
  `plRenderLight`, `_RenderObj` and `plRenderEnd`. The static face and
  light lists and `plRender_TriStats` are fields of a `Session` object.
- **Clipper** (`clip.dfy`, module `Clip`): the Sutherland–Hodgman pass
  `_ClipToPlane` over real coordinates, the plane loop and the fan
  triangulation of `plClipRenderFace`.
- **Texture helpers** (`texture.dfy`, module `TextureOps`): `_plHiBit`, the
  size logic of `plReadPCXTex`, `_plRescaleImage` and `_plOptimizeImage`,
  each on arrays as the source works in place.
- **Rasterizer index rules** (`raster.dfy`, module `Raster`): texel
  addressing, the shade clamps of the `plPF_*` rasterizers, the z-test span
  loop and the perspective chunking of `plPF_PTexF`/`plPF_PTexG`.
- **Objects** (`objects.dfy`, module `Objects`): `plObjSetMat`,
  `plObjFlipNormals`, `plObjTranslate` and `plObjClone` on object values.
- **Shared definitions** (`common.dfy`, module `Common`): bytes, colours,
  the clamp, the squared colour distance, and C's `>>` and `&` on
  two's-complement integers.

C semantics are written out where they matter. `Trunc` is the float to
int conversion, which truncates toward zero. `Sar` is the arithmetic right
shift, a floor division. `BitAnd` is `&` on two's-complement values.
`U16`/`U32` are unsigned stores, and `S32` turns an unsigned value into a
`pl_sInt32`. A `do { } while (--n)` loop demands a count of at least one,
and its model says so in a precondition.

Values the code computes in floating point are inputs of the model:
- the Phong ramp colours;
- the shade levels `sin(i*pi/512) * num_shades`;
- the lighting and culling results;
- the face depth keys;
- `fShade`.

In `Materials` they travel in a `Shading` record.

## Model

| member | source | states |
|---|---|---|
| Common.Clamp | plush.h:85-86 | plMax(lo, plMin(c, hi)) lies in [lo, hi], is c inside the range and the nearer end outside it |
| Common.ClampByte | plush.h:2176-2178 | the 0..255 clamp of every colour generator: identity on bytes, 0 below, 255 above |
| Common.Dist | plush.h:2408-2410 | mdist: the squared distance of two colours is at most 3·255² and is zero exactly for equal colours |
| Common.BitAndLowMask | plush.h:2775 | `x & ((1 << k) - 1)` is x modulo 2^k, for negative x as well |
| Common.BitAndFieldMask | plush.h:2774 | `y & (((1 << h) - 1) << w)` keeps bits w .. w+h-1 of y in place |
| Common.Pow2Add | plush.h:2774 | shifting by a + b is shifting by a, then by b |
| Palette.BestMatch | plush.h:2149-2167 | the index chosen for one colour lies in [pstart, pend], is at least distance, and every lower index in the range is strictly farther (the strict `<`); with an empty range it is pstart |
| Common.U16 | plush.h:2275 | a store into pl_uInt16 keeps the low 16 bits and is the identity below 65536 |
| Palette.U32 | plush.h:2135 | pl_uInt arithmetic wraps at 2^32 and is the identity below it |
| Palette.TransparentTable | plush.h:2125-2138 | the loop builds exactly 256 entries, entry x being the unsigned intensity · (ColorsUsed − tsfact) / 768 stored as 16 bits |
| Palette.TransparentEntryBound | plush.h:2135 | with tsfact ≤ ColorsUsed the entry is the plain quotient, and a translucent index bc + entry with bc < tsfact stays below ColorsUsed |
| Palette.ScaledBelow | plush.h:2132-2135 | a channel sum of at most 765 scaled by d and divided by 768 stays below d |
| Materials.ResolveFill | plush.h:2096-2100 | the effective fill is transparent exactly when Transparent is nonzero, else texture/environment/both/solid exactly by which maps exist |
| Materials.SelectPutFace | plush.h:2348-2400 | the rasterizer switch: TexEnv exactly for texture+environment, the solid, translucent and perspective variants exactly for their fills and listed shades, Gouraud variants exactly for Gouraud shades, None exactly for an unlisted shade or fill |
| Materials.InitRasterizer | plush.h:2094-2103 | on the material's own settings: a nonzero Transparent forces a translucent rasterizer (or none), texture+environment forces shade NONE and TexEnv, PerspectiveCorrect picks PTex only for a single map, and an unlisted shade leaves _PutFace null |
| Materials.SinglePalette | plush.h:2172-2179 | one colour, the clamped ambient |
| Materials.GenerateTexturePalette | plush.h:2279-2293 | NumColors ≥ 1 colours, colour i being palette entry i plus ambient, clamped |
| Materials.NumShades | plush.h:2302-2305 | num_shades is at least 1, is 1 for no colours or too few gradients, and otherwise is the largest n with n · NumColors ≤ NumGradients |
| Materials.ShadeOffsetInRange | plush.h:2330-2335 | a shaded texel's index, shade-table entry plus texel, stays below num_shades · NumColors |
| Materials.Combine | plush.h:2222-2272 | one channel per mode: MUL is the product >> 8, AVG the floor average, TEXMINUSENV the clamped difference, ENVMINUSTEX always 0, MIN the smaller, ADD and unknown modes the clamped sum |
| Materials.TexEnvEntry | plush.h:2218-2276 | requested colour l · texColors + i is texture colour i combined with environment colour l |
| Materials.TexEnvColorsStep | plush.h:2218-2276 | each environment level appends one row of combined colours |
| Materials.CombineLevel | plush.h:2223-2271 | the inner loop yields every texture colour combined with the level's environment colour, in order |
| Materials.EnvMinusTexIsBlack | plush.h:2243-2249 | the ENVMINUSTEX branch requests only black |
| Materials.EnvOffsets | plush.h:2275 | AddTable[l] is l · texColors stored in 16 bits |
| Materials.TexEnvLevels | plush.h:2218-2276 | the level loop appends nothing in MAX mode and the combined rows otherwise, and fills AddTable with the offsets of each level |
| Materials.GenerateTextureEnvPalette | plush.h:2208-2277 | ColorsUsed = texColors · envColors, AddTable[l] = l · texColors; MAX mode leaves the buffer as allocated, other modes hold the combined colours |
| Materials.Material.constructor | plush.h:2068-2083 | plMatCreate: the documented defaults, every derived field empty |
| Materials.Material.Init | plush.h:2094-2123 | Initialised: shininess at least 1, the resolved fill and shade, the rasterizer of the switch, and the palette of the chosen generator with consistent colour count; only the fields plMatInit writes change |
| Materials.Material.Resolve | plush.h:2095-2103 | shininess raised to 1, fill and shade resolved |
| Materials.Material.RunGenerator | plush.h:2105-2122 | the generator chosen by fill and shade leaves what it promises, and nothing it does not write changes |
| Materials.Material.GenerateSingle | plush.h:2172-2179 | one colour, the clamped ambient |
| Materials.Material.GeneratePhong | plush.h:2181-2206 | NumGradients colours, the given ramp |
| Materials.Material.GenerateTransparent | plush.h:2343-2346 | tsfact 0, then the Phong ramp |
| Materials.Material.GeneratePhongTransparent | plush.h:2338-2341 | tsfact NumGradients/(1+Transparent), then the Phong ramp |
| Materials.Material.GenerateTexture | plush.h:2279-2293 | one colour per used palette entry of the map, ambient added and clamped |
| Materials.Material.GeneratePhongTexture | plush.h:2295-2336 | num_shades · NumColors colours and the 256-entry table of shade offsets |
| Materials.Material.GenerateTextureEnv | plush.h:2208-2277 | the texture × environment colours and AddTable of the two maps |
| Materials.Material.MapToPal | plush.h:2140-2170 | a material without colours ends as plMatInit leaves it (its AddTable then replaced when translucent); one with colours keeps its colours, count, fill, shade, rasterizer, factor and, when opaque, AddTable; every requested colour is mapped to its nearest palette index in range (lowest on a tie, pstart for an empty range); a translucent material gets the translucency table of the palette; only these fields change |
| Materials.Material.Remap | plush.h:2147-2169 | the remap table maps every requested colour to its nearest index in range, AddTable becomes the translucency table when translucent and is kept otherwise |
| Palette.MapColors | plush.h:2147-2168 | the loop over the requested colours builds one nearest-colour index per colour, in order |
| Materials.Material.Prepare | plush.h:2420-2425 | one turn of the first loop: a material without colours gets plMatInit's result, one with colours keeps every field; the loop's invariant PreparedFrom is kept |
| OptPalette.RangeSet | plush.h:2447-2453 | the blocks 0 .. n−1, all unvisited at the start |
| OptPalette.Scan | plush.h:2460-2469 | one scan from the current block keeps every earlier unvisited block, keeps only unvisited blocks, and picks a kept one or none |
| OptPalette.ScanDrops | plush.h:2464-2466 | a block survives the scan exactly when it was unvisited and at distance ≥ 5 from the current block |
| OptPalette.ScanNone | plush.h:2467-2470 | the scan finds no next block only when nothing unvisited is left |
| OptPalette.ScanNearest | plush.h:2467 | the next block is at least distance among the kept blocks, every lower kept block strictly farther |
| OptPalette.NextIsNearest | plush.h:2459-2474 | the step of the chain: close blocks dropped, the nearest remaining one chosen (lowest on a tie), none exactly when nothing remains |
| OptPalette.Chain | plush.h:2459-2475 | the chain extends the linked prefix by unvisited blocks only |
| OptPalette.ChainDistinct | plush.h:2459-2475 | the chain never repeats a block |
| OptPalette.ChainCovers | plush.h:2459-2475 | every colour joins the chain or was dropped within distance 5 of a chain block |
| OptPalette.ChainOfProperties | plush.h:2456-2475 | the chain from colour 0 repeats nothing and leaves out only colours within distance 5 of it |
| OptPalette.ScanBlocks | plush.h:2460-2469 | the scan loop over the blocks computes Scan, marks exactly the dropped blocks visited and counts them |
| OptPalette.LinkStep | plush.h:2470-2473 | linking the nearest block extends the list by one and keeps it distinct |
| OptPalette.ChainStep | plush.h:2459-2474 | one outer pass keeps the first phase's state and either advances the chain, with fewer blocks left, or ends it |
| OptPalette.ChainGrows | plush.h:2470-2473 | linking the next block extends the first phase's state |
| OptPalette.ChainStops | plush.h:2474-2475 | with no next block nothing is left unvisited, and the state carries over |
| OptPalette.RunChain | plush.h:2457-2475 | the outer loop ends with every block linked or dropped and the list equal to the chain of the colours |
| OptPalette.BuildChain | plush.h:2446-2475 | the first phase makes `next` a list of the chain's blocks ending in -1, and numColors its length |
| OptPalette.ChainStateLinked | plush.h:2475 | when nothing is left the list is terminated and numColors counts its blocks |
| OptPalette.ClosestSpec | plush.h:2481-2487 | the walk ends on an adjacent pair at least distance, with every earlier pair strictly farther |
| OptPalette.FirstClosestIsFirstMinimum | plush.h:2481-2487 | the pair merged is the first adjacent pair at least distance |
| OptPalette.MergeClosest | plush.h:2488-2492 | one merge shortens the chain by exactly one |
| OptPalette.MergeClosestEntries | plush.h:2488-2491 | a merge keeps the colours before the pair, puts the floor average in its place and shifts the rest down |
| OptPalette.FindClosest | plush.h:2481-2487 | walking the list finds the front block of the first closest adjacent pair |
| OptPalette.SpliceLinked | plush.h:2491 | splicing out the second block of the pair keeps a list |
| OptPalette.SpliceColors | plush.h:2488-2491 | averaging into the first block and splicing gives the merged colour sequence |
| OptPalette.MergeStep | plush.h:2480-2493 | one merge on the blocks keeps a list whose colours are MergeClosest of the old ones |
| OptPalette.Reduce | plush.h:2480-2493 | merging stops at exactly `len` colours, or earlier when the chain is already short enough |
| OptPalette.OptColors | plush.h:2440-2499 | at most `len` colours are written, and colours that fit are written verbatim |
| OptPalette.OptColorsLength | plush.h:2440-2499 | colours that fit are copied as they are; otherwise exactly `len` colours unless the first phase already left fewer |
| OptPalette.WriteChain | plush.h:2494-2499 | the chain's colours land in slots start .. start+n−1, and nothing else changes |
| OptPalette.WriteColors | plush.h:2440-2444 | the gathered colours land in slots pstart onward, and nothing else changes |
| OptPalette.InitMaterials | plush.h:2420-2425 | every material ends with colours (PreparedFrom): one that had none holds exactly plMatInit's result, one that had colours keeps every field, and no setting or remap table changes |
| OptPalette.Gather | plush.h:2431-2438 | the requested colours of all materials, concatenated in material order, and their number |
| OptPalette.ReduceInto | plush.h:2446-2499 | with more colours than slots, the palette range receives the reduced chain and nothing else changes |
| OptPalette.WriteOptColors | plush.h:2426-2499 | no colours: nothing written; colours that fit: copied verbatim; otherwise the reduction |
| OptPalette.WriteGathered | plush.h:2426-2499 | with every material initialised, p[pstart..] receives OptColors of the materials' requested colours in material order, and the rest of p is unchanged |
| OptPalette.MakeOptPal | plush.h:2412-2501 | every material ends as InitMaterials leaves it (plMatInit's result where it had no colours, untouched otherwise), and p[pstart..] receives OptColors of the gathered colours with the rest of p unchanged |
| FaceSort.HeapTop | plush.h:5181-5193 | the top of a heap is above every entry in it |
| FaceSort.SiftDown | plush.h:5183-5193 | a sift makes positions L..U a heap, permutes only those positions and changes nothing else |
| FaceSort.SwapDown | plush.h:5190-5191 | one swap moves the single heap violation from L down to the chosen child |
| FaceSort.SwapKeepsHeap | plush.h:5188-5191 | the same on sequences |
| FaceSort.Swap | plush.h:5176 | an exchange of two positions is a permutation |
| FaceSort.ExtractTop | plush.h:5176 | swapping the top behind the heap extends the sorted tail, which stays above every remaining entry |
| FaceSort.ExtractTopKeeps | plush.h:5176 | the same on sequences |
| FaceSort.SortStep | plush.h:5175-5178 | one turn of the second loop: the heap shrinks by one and the sorted tail grows by one, as a permutation |
| FaceSort.SiftKeepsTail | plush.h:5177 | a sift over the front positions leaves the sorted tail in order and above the front |
| FaceSort.HeapSort | plush.h:5171-5179 | the result is a permutation of the input, with keys non-increasing for dir 0 and non-decreasing for dir 1 |
| Render.AcceptFaces | plush.h:5036-5143 | accepting faces only touches the accepted counter among the statistics |
| Render.AcceptFacesCount | plush.h:5036-5143 | the visible faces are appended to the list, each counted once in TriStats[1], never more than were offered |
| Render.RenderObjKeeps | plush.h:4977-5146 | rendering an object keeps the list below the face cap and consistent with the counters, only appends, and leaves TriStats[2] alone |
| Render.RenderChildrenKeeps | plush.h:5004-5005 | the same for the children, in slot order |
| Render.Drawn | plush.h:5157-5164 | the faces handed to the clipper are those with a rasterizer, in order |
| Render.DrawStats | plush.h:1435-1458 | clipping never touches TriStats[0] and TriStats[1], and TriStats[2] grows by at most one per face |
| Render.DrawStatsStep | plush.h:1435-1458 | a face keeping n > 2 vertices adds 1 to TriStats[2] and n − 2 to TriStats[3], else nothing |
| Render.DrawnStep | plush.h:5159 | a face joins the drawn list exactly when its material has a rasterizer |
| Render.DrawAll | plush.h:5157-5164 | the loop draws exactly the drawable faces and updates the counters accordingly |
| Render.ClipRenderFaceCounts | plush.h:5159-5162 | plClipRenderFace's counter update is the DrawStats step when survivors(f) is the size of f's polygon after the plane loop |
| Render.Session.Begin | plush.h:4945-4957 | counters, faces and lights cleared; the camera's sort mode kept |
| Render.Session.RenderLight | plush.h:4959-4975 | a NONE light or one past the 32-light cap is ignored, any other is appended |
| Render.Session.RenderObj | plush.h:5149-5151 | the session's faces and counters become those of rendering the object tree |
| Render.Session.End | plush.h:5153-5167 | the faces are a permutation of the list, sorted by depth as Sort asks (list order for Sort 0), the drawable ones are clipped and counted, and both lists are emptied |
| Clip.Succ | plush.h:1512 | `(i + 1) % numVerts` is the next vertex, cyclically |
| Clip.ClipToPlane | plush.h:1499-1553 | the pass produces ClipPoly: each edge adds its start vertex when inside, then a crossing when its ends are on different sides |
| Clip.ClipCount | plush.h:1511-1551 | one output vertex per inside vertex and one per side change |
| Clip.ClipOutput | plush.h:1511-1551 | every output vertex is an inside input vertex or lies on the plane |
| Clip.CrossingOnPlane | plush.h:1525-1535 | a crossing lies exactly on the plane |
| Clip.CrossingScale | plush.h:1526 | the crossing's scale lies in [0, 1]: it is a point of the edge |
| Clip.CrossingOutside | plush.h:1525-1535 | a point on an edge with both ends outside another plane is outside it |
| Clip.ClipAllInside | plush.h:1511-1551 | a polygon inside the plane comes through unchanged |
| Clip.ClipAllOutside | plush.h:1511-1551 | a polygon outside the plane vanishes |
| Clip.ClipKeepsOutside | plush.h:1511-1551 | clipping against one plane keeps a polygon outside another plane outside it |
| Clip.CrossingInside | plush.h:1525-1535 | a point on an edge with both ends inside another plane is inside it |
| Clip.ClipKeepsInside | plush.h:1511-1551 | clipping against one plane keeps a polygon inside another plane inside it |
| Clip.ClipFromKeepsInside | plush.h:1429-1434 | the rest of the plane loop keeps a polygon inside a plane inside it |
| Clip.ClipFromInsidePlanes | plush.h:1428-1434 | a polygon that survives the plane loop lies inside every plane from the start plane on |
| Clip.CrossParity | plush.h:1524-1525 | along an open path the side changes an even number of times exactly when it ends on its starting side |
| Clip.CrossingsEven | plush.h:1511-1551 | around the polygon the crossings come in pairs |
| Clip.StartPlane | plush.h:1428 | the plane loop starts at the back plane or the one after it |
| Clip.BackPlaneSkipped | plush.h:1350-1352 | the back plane is skipped exactly when ClipBack ≤ 0 |
| Clip.ClipFrom | plush.h:1429-1434 | a polygon of two or fewer vertices is not clipped further |
| Clip.ClipFromInside | plush.h:1429-1434 | a face inside every remaining plane comes through unchanged |
| Clip.ClipFromOutside | plush.h:1429-1434 | a face outside one of the planes yields no triangle |
| Clip.Fan | plush.h:1435-1457 | N > 2 vertices give N − 2 triangles (0, k−1, k); N ≤ 2 gives none |
| Clip.FanCovers | plush.h:1437-1454 | the fan's indices are in range, adjacent triangles share an edge, and every vertex is a corner |
| Clip.ClipRenderFace | plush.h:1412-1460 | the triangles are the fan over the clipped polygon, every corner inside every plane clipped against; TriStats[3] grows by their number and TriStats[2] by 1 when there are any |
| TextureOps.BitLength | plush.h:4799-4806 | the number of binary digits: 0 for 0, else 2^(r−1) ≤ x < 2^r |
| TextureOps.BitLengthOfPow2 | plush.h:4799-4806 | a power 2^k has k + 1 digits, so `_plHiBit(256)` is 9 |
| TextureOps.HiBit | plush.h:4799-4806 | `_plHiBit` returns the bit length of its argument, at most 16 |
| TextureOps.TextureDimsAsWritten | plush.h:4765-4788 | as written, 2^Width exceeds the width; without rescaling the sizes are kept; with rescaling every side, a power of two included, grows to 2^Width stored in the pl_uInt16 `x`/`y`: a power of two in (2x, 4x] for a side below 16384, and 0 for a side of 16384 or more |
| TextureOps.TextureDims | plush.h:4765-4788 | corrected: a power-of-two image keeps its size; rescaling stores 2^Width into the pl_uInt16 `x`/`y`, which is the least power of two ≥ the side up to 32768 and 0 above it; 2^Width fits within the data except for such a wrapped side |
| TextureOps.RoundSide | plush.h:4769-4785 | one side of the rescale: the least power of two at or above the side while it fits 16 bits, 0 for a side above 32768, and a power-of-two side unchanged |
| TextureOps.RoundUp | plush.h:4769-4772 | bumping a log2 that falls short gives the least power of two at or above the size |
| TextureOps.StepBound | plush.h:4886-4904 | the 16.16 counters stay at or below n << 16, so they never wrap, and the integer part stays below the input size |
| TextureOps.Nearest | plush.h:4886-4904 | the source pixel of an output pixel is inside the input |
| TextureOps.RowsPixel | plush.h:4886-4904 | output pixel (r, c) is the input pixel at row (r·dY)>>16, column (c·dX)>>16 |
| TextureOps.RescaleImage | plush.h:4886-4904 | the whole output is the nearest-neighbour resampling of the input |
| TextureOps.CopyRow | plush.h:4895-4901 | the inner loop writes output row r and leaves the rows before it |
| TextureOps.CompactStart | plush.h:4813-4818 | before the loop the flags mark exactly the image's colours and the remap is the identity |
| TextureOps.CompactMove | plush.h:4825-4830 | one move keeps the compaction invariant |
| TextureOps.CompactDone | plush.h:4819-4824 | where the loop stops, the used slots are exactly 0 .. lastused |
| TextureOps.Compact | plush.h:4815-4831 | every colour of the image gets a slot below n holding its original entry, distinct colours get distinct slots, every slot below n belongs to some colour |
| TextureOps.CompactTurn | plush.h:4820-4830 | one turn keeps the invariant and either stops compacted or shrinks the gap |
| TextureOps.Move | plush.h:4825-4830 | the move copies the entry, moves the flag, remaps the colour and keeps the invariant |
| TextureOps.ApplyRemap | plush.h:4832-4833 | every pixel goes through the remap table |
| TextureOps.RemapDone | plush.h:4832-4834 | the remapped pixels are below n, show their original colours, keep equal pixels equal and distinct ones distinct, and use every index below n |
| TextureOps.OptimizeImage | plush.h:4808-4835 | n ≤ 256, every pixel is below n afterwards, shows the colour it showed before, equal pixels stay equal and distinct ones distinct, and every index below n is used |
| Raster.Trunc | plush.h:3198 | C's float to int conversion truncates toward zero |
| Raster.S32 | plush.h:3316-3317 | an unsigned value stored into pl_sInt32 wraps at 2^31 |
| Raster.TexelAddressWraps | plush.h:2774-2776 | the texel address is column (U>>16) mod 2^W in row (V>>16) mod 2^H, always inside the 2^(W+H) texels |
| Raster.SarSplit | plush.h:2776 | shifting V by 16 − W and then by W is shifting by 16 |
| Raster.FlatLevel | plush.h:3198-3200 | a flat shade scaled, truncated and clamped to 0..top: the truncation when in range, 0 below 1, top at or above it |
| Raster.FlatLevelMonotone | plush.h:3684-3686 | a brighter face never gets a lower level; unlit gives 0, fully lit the top |
| Raster.SolidFShade | plush.h:3197-3201 | the plPF_SolidF shade indexes the ColorsUsed-entry remap table, and is −1 when ColorsUsed is 0 |
| Raster.SolidFShadeEnds | plush.h:3197-3200 | unlit faces get shade 0 and fully lit ones ColorsUsed − 1 |
| Raster.ShadeIndex | plush.h:3315-3317 | the Gouraud index of plPF_SolidG and plPF_TransG is CL>>16 clamped to 0 .. n−1 |
| Raster.TexGLevel | plush.h:3975-3996 | the shade-table row of plPF_TexG/plPF_PTexG is CL>>8 clamped to 0..255 |
| Raster.TexelIndexInRange | plush.h:3140-3146 | a textured pixel's remap index stays inside the colours its generator requested, with or without a shade table |
| Raster.EnvIndexInRange | plush.h:3616-3619 | the plPF_TexEnv index stays inside the texture × environment colours |
| Raster.TransFShadeAsWritten | plush.h:4028-4035 | as written: bc lies in 0 .. tsfact − 1 when tsfact ≥ 1 |
| Raster.TransFAsWrittenTwoLevels | plush.h:4028 | as written, every face darker than full intensity gets shade 0 |
| Raster.TransFHalfShade | plush.h:4028 | a half-lit face of 16 levels: 0 as written, 8 corrected |
| Raster.TransFAsWrittenBelowTable | plush.h:4033-4035 | as written, with 32-bit pl_sInt32, tsfact 0 gives bc = −1, an index before the remap table |
| Raster.TransFShade | plush.h:4028-4035 | corrected: the shade scaled then truncated, clamped to 0 .. tsfact − 1, and 0 without shade levels |
| Raster.TransFIndexInRange | plush.h:4114-4120 | with the corrected shade every translucent pixel indexes inside the remap table |
| Raster.TransGIndexInRange | plush.h:4247-4259 | the plPF_TransG index plus the table entry underneath stays inside the remap table |
| Raster.SpanDepthsGrow | plush.h:3281-3289 | the z-buffer only moves toward the viewer |
| Raster.SpanIdempotent | plush.h:3281-3290 | drawing a span twice leaves what drawing it once left |
| Raster.DrawSpan | plush.h:3281-3290 | with the z-buffer a pixel and its depth are written only where `*zbuf < ZL`; without it every pixel is written and no depth |
| Raster.DrawSpanDepth | plush.h:3281-3289 | the z-buffered span loop |
| Raster.DrawSpanPlain | plush.h:3290 | the span loop without the z-buffer |
| Raster.ChunkShift | plush.h:2770-2773 | nmb is the bit length of PerspectiveCorrect capped at 6, so a chunk is the least power of two above it, and 64 from 32 up |
| Raster.Chunks | plush.h:2905-2907 | every chunk but the last has nm pixels, the last 1..nm, and together they cover the span exactly |
| Objects.SetMat | plush.h:2681-2687 | every face of the object gets the material, vertices are untouched, and children change only when th is set |
| Objects.SetMatHierarchy | plush.h:2685-2686 | with th the whole hierarchy ends with the material |
| Objects.SetMatShallow | plush.h:2681-2687 | without th the sub-objects keep their materials |
| Objects.FlipNormals | plush.h:2592-2607 | every vertex and face normal negated, positions and structure unchanged |
| Objects.FlipNormalsInvolution | plush.h:2592-2607 | flipping twice restores the object |
| Objects.Translate | plush.h:2583-2590 | every vertex position moves by d; faces and children are untouched, so translation does not recurse |
| Objects.TranslateInverse | plush.h:2583-2590 | translating back by −d undoes it |
| Objects.TranslateCompose | plush.h:2583-2590 | two translations add up |
| Objects.Clone | plush.h:2642-2679 | the clone has the same vertices, the same face corners, normals, materials and mappings, the cloned children, the copied position, rotation and flags, and zeroed lighting and matrices |
| Objects.CloneIdempotent | plush.h:2642-2679 | cloning a clone gives the clone |
| Objects.CloneDropsStaticLighting | plush.h:2620-2679 | a face with static lighting is not copied exactly |
| Objects.CloneCommutesWithSetMat | plush.h:2642-2687 | cloning and then setting the material hierarchy-wide equals doing it the other way round |

## Left out

- Floating point is not modelled bit for bit. The following are inputs or reals:
  - the Phong `cos`/`pow`/`sin` ramps and shade tables;
  - the lighting sums;
  - the backface and `plClipNeeded` tests;
  - the face depth keys;
  - `fShade`;
  - the screen projection (`Scrx`, `Scry`, `Scrz`) in plClipRenderFace;
  - the rounding of the clip crossings, which are exact reals here.
- Materials.Material.GeneratePhongTransparent: tsfact is the integer quotient NumGradients / (1 + Transparent). The source computes it in double precision and truncates, which can differ by rounding.
- The frustum plane derivation (`tan`) of plClipSetFrustum: only the back plane and its ClipBack sign are modelled.
- File readers (3DS, COB, JAW, PCX), memory allocation and freeing with their failure paths, the text overlay, the demo program and plSpline: these are I/O or float code.
- The rasterizers' scan-conversion pointer walk, the edge interpolation and `idUL`/`idVL`: only the index rules, the span write rule and the chunking are modelled.
- The lights' transform in plRenderLight: a light is kept as an identifier with its type.
- plObjScale, plObjStretch and plObjCalcNormals: float geometry.
- Objects are values: in-place update and sharing between pl_Obj nodes are not captured, and the 16 child slots may hold any number of entries.
- OptPalette.MakeOptPal requires pstart ≤ pend. The source, given pend < pstart, computes a slot count of at most 0, and then writes past the range when there are colours.
- Materials.Material.MapToPal requires a 256-entry palette and 0 ≤ pstart, pend < 256. The source's second early return (no colours after plMatInit) cannot happen for a material ready for plMatInit, so it is not modelled.
- plRender_TriStats are unbounded integers: the 32-bit wrap of the pl_uInt32 counters is not modelled.
- The clip buffer `m_cl` has 8 vertex slots: the model's polygon sequences are unbounded, and no bound on the clipped polygon's size is proved.
- TextureOps.TextureDimsAsWritten and TextureOps.TextureDims keep plReadPCXTex's pl_uInt16 store `x = 1<<nx; y = 1<<ny;` (plush.h:4760, 4785): a rescaled side of 2^16 or more is stored as 0, so iWidth/iHeight are 0 and the 2^Width ≤ iWidth bound holds only below that. The allocation and the `_plRescaleImage` call at those sizes are not modelled.
- Integer widths: pl_sInt32 and pl_uInt32 are `long` (plush.h:170-171) and are taken as 32 bits, as their typedef comments say; pl_uInt is 32 bits. On an LP64 target `long` has 64 bits. There an unsigned `_tsfact-1` or `_ColorsUsed-1` of 0 (plush.h:3199, 4035) is stored as 4294967295 rather than −1, and Raster.S32 does not wrap as it does here.
- OptPalette.InitMaterials and OptPalette.MakeOptPal require a material listed twice to come with the same Shading: the Shading stands for floating-point values plMatInit computes from the material's own settings, so only the first listing is initialised.
- Raster.ShadeIndex: the clamp is proved for 1 ≤ n ≤ 32768. Larger counts make `(n−1)<<16` overflow pl_sInt32, and 16.16 CL values that overflow are not modelled.
- Raster.TransFShadeAsWritten requires tsfact < 2^31, where C's product still fits the 32-bit conversion.
- Raster.SolidFShade: with ColorsUsed 0 the float product is modelled as the clamp's result −1. The source's behaviour there is undefined anyway, because it reads the remap table at −1.
- Materials.GenerateTextureEnvPalette: in MAX mode the source leaves the new buffer with whatever malloc returned. That is modelled as the `prior` input. Some descriptions of Plush say MAX behaves like ADD, but the code breaks out before writing, and the model follows the code.

## Findings

| source | as written | input that shows it | evidently intended | confidence | as-written member | corrected member |
|---|---|---|---|---|---|---|
| plush.h:4765-4785 | Width = `_plHiBit(x)` is one more than log2 of a power of two, so the test `1 << Width != x` always holds | a 256 × 256 PCX: Width 9, so rows are addressed 512 wide; with rescale it is resampled to 1024 × 1024 | Width = index of the highest set bit; a power-of-two image is kept and others round up to the least power of two | not executed; high | TextureOps.TextureDimsAsWritten, TextureOps.BitLengthOfPow2 | TextureOps.TextureDims |
| plush.h:4028 | `(pl_sInt32) TriFace->fShade * tsfact`: the cast truncates fShade before the multiplication | fShade 0.5, tsfact 16: bc = 0 | the shade scaled by tsfact, then truncated (bc = 8), like plPF_TransG | not executed; high | Raster.TransFShadeAsWritten, Raster.TransFAsWrittenTwoLevels, Raster.TransFHalfShade | Raster.TransFShade, Raster.TransFIndexInRange |
| plush.h:4033-4035 | with tsfact 0 the clamp stores the unsigned `_tsfact-1`: bc = −1 with a 32-bit pl_sInt32, 4294967295 with a 64-bit `long` | a translucent material of shade NONE (tsfact 0, from _plGenerateTransparentPalette) over a black pixel reads `remap[-1]`, or `remap[4294967295]` on LP64: out of bounds on both widths | bc = 0 when there are no shade levels | not executed; medium | Raster.TransFAsWrittenBelowTable | Raster.TransFShade, Raster.TransFIndexInRange |
