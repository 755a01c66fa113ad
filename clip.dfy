/** The clipper of plClipRenderFace: the Sutherland-Hodgman pass of
    _ClipToPlane over each frustum plane in turn, and the fan of triangles
    handed to the rasterizer. Coordinates and the interpolated attributes
    are mathematical reals; the source stores crossings as pl_Float. */
module Clip {

  /** One vertex of the clip buffer (m_cl): transformed position, shade,
      texture and environment coordinates. */
  datatype ClipVertex = ClipVertex(x: real, y: real, z: real, shade: real, u: real, v: real, eu: real, ev: real)

  /** A clip plane: normal (a, b, c) and offset d; a vertex is inside when
      its dot product with the normal is at least d. */
  datatype Plane = Plane(a: real, b: real, c: real, d: real)

  /** The number of planes plClipSetFrustum sets up (NUM_CLIP_PLANES):
      back, left, right, top, bottom. */
  const NumClipPlanes := 5

  function Dot(p: Plane, v: ClipVertex): real
  {
    v.x * p.a + v.y * p.b + v.z * p.c
  }

  predicate Inside(p: Plane, v: ClipVertex)
  {
    Dot(p, v) >= p.d
  }

  /** v + (w - v) * s, componentwise. */
  function Lerp(v: ClipVertex, w: ClipVertex, s: real): ClipVertex
  {
    ClipVertex(v.x + (w.x - v.x) * s, v.y + (w.y - v.y) * s, v.z + (w.z - v.z) * s,
               v.shade + (w.shade - v.shade) * s, v.u + (w.u - v.u) * s, v.v + (w.v - v.v) * s,
               v.eu + (w.eu - v.eu) * s, v.ev + (w.ev - v.ev) * s)
  }

  /** The vertex _ClipToPlane inserts on an edge from v to w whose ends lie
      on different sides: the point at scale (d - dot v) / (dot w - dot v). */
  function Crossing(p: Plane, v: ClipVertex, w: ClipVertex): (r: ClipVertex)
    requires Inside(p, v) != Inside(p, w)
  {
    Lerp(v, w, (p.d - Dot(p, v)) / (Dot(p, w) - Dot(p, v)))
  }

  /** `(i + 1) % numVerts`: the vertex after i, cyclically. */
  function Succ(n: int, i: int): (j: int)
    requires 0 <= i < n
    ensures j == if i + 1 < n then i + 1 else 0
  {
    (i + 1) % n
  }

  /** What edge i (from vertex i to vertex i + 1, cyclically) contributes:
      its start vertex when that is inside, then a crossing when the edge
      changes side. */
  function EdgeOut(vs: seq<ClipVertex>, p: Plane, i: int): seq<ClipVertex>
    requires 0 <= i < |vs|
  {
    var w := vs[Succ(|vs|, i)];
    (if Inside(p, vs[i]) then [vs[i]] else [])
      + (if Inside(p, vs[i]) != Inside(p, w) then [Crossing(p, vs[i], w)] else [])
  }

  /** The output of the first k edges. */
  function ClipUpTo(vs: seq<ClipVertex>, p: Plane, k: int): seq<ClipVertex>
    requires 0 <= k <= |vs|
  {
    if k == 0 then [] else ClipUpTo(vs, p, k - 1) + EdgeOut(vs, p, k - 1)
  }

  /** The polygon _ClipToPlane leaves in m_cl[1]. */
  function ClipPoly(vs: seq<ClipVertex>, p: Plane): seq<ClipVertex>
  {
    ClipUpTo(vs, p, |vs|)
  }

  /** _ClipToPlane: walks the polygon once, carrying the side of the
      current vertex, and appends to the output buffer. */
  method ClipToPlane(vs: seq<ClipVertex>, p: Plane) returns (out: seq<ClipVertex>)
    requires |vs| >= 1
    ensures out == ClipPoly(vs, p)
  {
    out := [];
    var curdot := Dot(p, vs[0]);
    var curin := curdot >= p.d;
    var i := 0;
    while i < |vs|
      invariant 0 <= i <= |vs|
      invariant out == ClipUpTo(vs, p, i)
      invariant i < |vs| ==> curdot == Dot(p, vs[i]) && curin == Inside(p, vs[i])
    {
      ghost var before := out;
      var nextvert := Succ(|vs|, i);
      if curin {
        out := out + [vs[i]];
      }
      var nextdot := Dot(p, vs[nextvert]);
      var nextin := nextdot >= p.d;
      if curin != nextin {
        var scale := (p.d - curdot) / (nextdot - curdot);
        out := out + [Lerp(vs[i], vs[nextvert], scale)];
      }
      assert out == before + EdgeOut(vs, p, i);
      curdot := nextdot;
      curin := nextin;
      i := i + 1;
    }
  }

  /** How many vertices of vs[..k] are inside. */
  function CountIn(vs: seq<ClipVertex>, p: Plane, k: int): nat
    requires 0 <= k <= |vs|
  {
    if k == 0 then 0 else CountIn(vs, p, k - 1) + (if Inside(p, vs[k - 1]) then 1 else 0)
  }

  /** How many of the first k edges change side. */
  function CountCross(vs: seq<ClipVertex>, p: Plane, k: int): nat
    requires 0 <= k <= |vs|
  {
    if k == 0 then 0
    else CountCross(vs, p, k - 1) + (if Inside(p, vs[k - 1]) != Inside(p, vs[Succ(|vs|, k - 1)]) then 1 else 0)
  }

  /** The clipped polygon has one vertex per inside vertex and one per edge
      that changes side. */
  lemma {:induction false} ClipCount(vs: seq<ClipVertex>, p: Plane, k: int)
    requires 0 <= k <= |vs|
    ensures |ClipUpTo(vs, p, k)| == CountIn(vs, p, k) + CountCross(vs, p, k)
  {
    if k > 0 {
      ClipCount(vs, p, k - 1);
    }
  }

  /** The vertices kept and the crossings created: every output vertex is
      an inside input vertex or lies on the plane. */
  lemma {:induction false} ClipOutput(vs: seq<ClipVertex>, p: Plane, k: int)
    requires 0 <= k <= |vs|
    ensures forall o :: o in ClipUpTo(vs, p, k) ==>
              (Inside(p, o) && o in vs[..k]) || Dot(p, o) == p.d
  {
    if k > 0 {
      ClipOutput(vs, p, k - 1);
      var v, w := vs[k - 1], vs[Succ(|vs|, k - 1)];
      assert vs[..k] == vs[..k - 1] + [v];
      forall o | o in EdgeOut(vs, p, k - 1)
        ensures (Inside(p, o) && o in vs[..k]) || Dot(p, o) == p.d
      {
        if Inside(p, v) != Inside(p, w) {
          CrossingOnPlane(p, v, w);
        }
      }
    }
  }

  /** A crossing lies exactly on the plane. */
  lemma CrossingOnPlane(p: Plane, v: ClipVertex, w: ClipVertex)
    requires Inside(p, v) != Inside(p, w)
    ensures Dot(p, Crossing(p, v, w)) == p.d
  {
    var dv, dw := Dot(p, v), Dot(p, w);
    var s := (p.d - dv) / (dw - dv);
    DivTimes(p.d - dv, dw - dv);
    DotLerp(p, v, w, s);
    assert Crossing(p, v, w) == Lerp(v, w, s);
  }

  /** Real division undone by the divisor. */
  lemma DivTimes(a: real, b: real)
    requires b != 0.0
    ensures (a / b) * b == a && b * (a / b) == a
  {
  }

  /** A quotient of a and b lies in [0, 1] when a lies between 0 and b. */
  lemma UnitQuotient(a: real, b: real)
    requires (0.0 < b && 0.0 <= a <= b) || (b < 0.0 && b <= a <= 0.0)
    ensures 0.0 <= a / b <= 1.0
  {
    var s := a / b;
    DivTimes(a, b);
    if b > 0.0 {
      if s < 0.0 {
        MulNegPos(s, b);
      }
      if s > 1.0 {
        MulPosPos(s - 1.0, b);
      }
    } else {
      if s < 0.0 {
        MulPosPos(-s, -b);
      }
      if s > 1.0 {
        MulPosPos(s - 1.0, -b);
      }
    }
  }

  lemma MulPosPos(x: real, y: real)
    requires x > 0.0 && y > 0.0
    ensures x * y > 0.0
  {
  }

  lemma MulNegPos(x: real, y: real)
    requires x < 0.0 && y > 0.0
    ensures x * y < 0.0
  {
    MulPosPos(-x, y);
  }

  /** A polygon entirely inside the plane comes through unchanged. */
  lemma {:induction false} ClipAllInside(vs: seq<ClipVertex>, p: Plane, k: int)
    requires 0 <= k <= |vs|
    requires forall i :: 0 <= i < |vs| ==> Inside(p, vs[i])
    ensures ClipUpTo(vs, p, k) == vs[..k]
  {
    if k > 0 {
      ClipAllInside(vs, p, k - 1);
      assert vs[..k] == vs[..k - 1] + [vs[k - 1]];
    }
  }

  /** A polygon entirely outside the plane vanishes. */
  lemma {:induction false} ClipAllOutside(vs: seq<ClipVertex>, p: Plane, k: int)
    requires 0 <= k <= |vs|
    requires forall i :: 0 <= i < |vs| ==> !Inside(p, vs[i])
    ensures ClipUpTo(vs, p, k) == []
  {
    if k > 0 {
      ClipAllOutside(vs, p, k - 1);
    }
  }

  /** Side changes along an open path of the first k edges: even exactly
      when the path ends on the side it started. */
  lemma {:induction false} CrossParity(vs: seq<ClipVertex>, p: Plane, k: int)
    requires 1 <= k <= |vs|
    ensures CountCross(vs, p, k - 1) % 2 == if Inside(p, vs[0]) == Inside(p, vs[k - 1]) then 0 else 1
  {
    if k > 1 {
      CrossParity(vs, p, k - 1);
      var before := CountCross(vs, p, k - 2);
      var flip := Inside(p, vs[k - 2]) != Inside(p, vs[k - 1]);
      assert CountCross(vs, p, k - 1) == before + (if flip then 1 else 0);
      ParityStep(before, flip);
    }
  }

  /** Adding one flips the parity, adding zero keeps it. */
  lemma ParityStep(b: nat, flip: bool)
    ensures (b + (if flip then 1 else 0)) % 2 == if flip then 1 - b % 2 else b % 2
  {
  }

  /** Around the whole polygon the side changes an even number of times,
      so the crossings come in pairs. */
  lemma CrossingsEven(vs: seq<ClipVertex>, p: Plane)
    requires |vs| >= 1
    ensures CountCross(vs, p, |vs|) % 2 == 0
  {
    var n := |vs|;
    CrossParity(vs, p, n);
    var before := CountCross(vs, p, n - 1);
    var flip := Inside(p, vs[n - 1]) != Inside(p, vs[0]);
    assert CountCross(vs, p, n) == before + (if flip then 1 else 0);
    ParityStep(before, flip);
  }

  /** The back plane as plClipSetFrustum sets it for a ClipBack distance. */
  function BackPlane(clipBack: real): Plane
  {
    Plane(0.0, 0.0, -1.0, -clipBack)
  }

  /** The first plane plClipRenderFace clips against: the back plane only
      when its offset is negative. */
  function StartPlane(planes: seq<Plane>): (a: int)
    requires |planes| >= 1
    ensures a == 0 || a == 1
  {
    if planes[0].d < 0.0 then 0 else 1
  }

  /** The back plane is skipped exactly when ClipBack is not positive. */
  lemma BackPlaneSkipped(planes: seq<Plane>, clipBack: real)
    requires |planes| >= 1 && planes[0] == BackPlane(clipBack)
    ensures StartPlane(planes) == 1 <==> clipBack <= 0.0
  {
  }

  /** The plane loop from plane a on: clip while planes remain and the
      polygon still has three vertices. */
  function ClipFrom(vs: seq<ClipVertex>, planes: seq<Plane>, a: int): (r: seq<ClipVertex>)
    requires 0 <= a
    ensures |vs| <= 2 ==> r == vs
    decreases |planes| - a
  {
    if a >= |planes| || |vs| <= 2 then vs
    else ClipFrom(ClipPoly(vs, planes[a]), planes, a + 1)
  }

  /** A face inside every plane from a on comes through unchanged. */
  lemma {:induction false} ClipFromInside(vs: seq<ClipVertex>, planes: seq<Plane>, a: int)
    requires 0 <= a
    requires forall j, i :: a <= j < |planes| && 0 <= i < |vs| ==> Inside(planes[j], vs[i])
    ensures ClipFrom(vs, planes, a) == vs
    decreases |planes| - a
  {
    if a < |planes| && |vs| > 2 {
      ClipAllInside(vs, planes[a], |vs|);
      assert vs[..|vs|] == vs;
      ClipFromInside(vs, planes, a + 1);
    }
  }

  /** The dot product is affine along an edge. */
  lemma DotLerp(q: Plane, v: ClipVertex, w: ClipVertex, s: real)
    ensures Dot(q, Lerp(v, w, s)) == Dot(q, v) + (Dot(q, w) - Dot(q, v)) * s
  {
  }

  /** The crossing's scale lies in [0, 1]: it is a point of the edge. */
  lemma CrossingScale(p: Plane, v: ClipVertex, w: ClipVertex)
    requires Inside(p, v) != Inside(p, w)
    ensures var s := (p.d - Dot(p, v)) / (Dot(p, w) - Dot(p, v));
            0.0 <= s <= 1.0
  {
    var dv, dw := Dot(p, v), Dot(p, w);
    UnitQuotient(p.d - dv, dw - dv);
  }

  /** A point of an edge whose ends are both outside plane q is outside q. */
  lemma CrossingOutside(p: Plane, q: Plane, v: ClipVertex, w: ClipVertex)
    requires Inside(p, v) != Inside(p, w)
    requires !Inside(q, v) && !Inside(q, w)
    ensures !Inside(q, Crossing(p, v, w))
  {
    var s := (p.d - Dot(p, v)) / (Dot(p, w) - Dot(p, v));
    CrossingScale(p, v, w);
    DotLerp(q, v, w, s);
    Convex(s, Dot(q, v), Dot(q, w), q.d);
    assert Crossing(p, v, w) == Lerp(v, w, s);
  }

  /** A point between two values below d is below d. */
  lemma Convex(s: real, x: real, y: real, d: real)
    requires 0.0 <= s <= 1.0 && x < d && y < d
    ensures x + (y - x) * s < d
  {
    var t := y - x;
    if t >= 0.0 {
      assert t * (1.0 - s) >= 0.0;
      assert t * s + t * (1.0 - s) == t;
    } else {
      assert (-t) * s >= 0.0;
    }
  }

  /** A point between two values at least d is at least d. */
  lemma ConvexAtLeast(s: real, x: real, y: real, d: real)
    requires 0.0 <= s <= 1.0 && x >= d && y >= d
    ensures x + (y - x) * s >= d
  {
    var t := y - x;
    if t >= 0.0 {
      MulNonNeg(t, s);
    } else {
      MulNonNeg(-t, 1.0 - s);
      assert t * s + t * (1.0 - s) == t;
    }
  }

  lemma MulNonNeg(x: real, y: real)
    requires x >= 0.0 && y >= 0.0
    ensures x * y >= 0.0
  {
    if x > 0.0 && y > 0.0 {
      MulPosPos(x, y);
    }
  }

  /** A point of an edge whose ends are both inside plane q is inside q. */
  lemma CrossingInside(p: Plane, q: Plane, v: ClipVertex, w: ClipVertex)
    requires Inside(p, v) != Inside(p, w)
    requires Inside(q, v) && Inside(q, w)
    ensures Inside(q, Crossing(p, v, w))
  {
    var s := (p.d - Dot(p, v)) / (Dot(p, w) - Dot(p, v));
    CrossingScale(p, v, w);
    DotLerp(q, v, w, s);
    ConvexAtLeast(s, Dot(q, v), Dot(q, w), q.d);
    assert Crossing(p, v, w) == Lerp(v, w, s);
  }

  /** Clipping against one plane keeps a polygon inside another plane
      inside it. */
  lemma {:induction false} ClipKeepsInside(vs: seq<ClipVertex>, p: Plane, q: Plane, k: int)
    requires 0 <= k <= |vs|
    requires forall i :: 0 <= i < |vs| ==> Inside(q, vs[i])
    ensures forall o :: o in ClipUpTo(vs, p, k) ==> Inside(q, o)
  {
    if k > 0 {
      ClipKeepsInside(vs, p, q, k - 1);
      var w := vs[Succ(|vs|, k - 1)];
      if Inside(p, vs[k - 1]) != Inside(p, w) {
        CrossingInside(p, q, vs[k - 1], w);
      }
    }
  }

  /** The rest of the plane loop keeps a polygon inside plane q inside
      it. */
  lemma {:induction false} ClipFromKeepsInside(vs: seq<ClipVertex>, planes: seq<Plane>, a: int, q: Plane)
    requires 0 <= a
    requires forall i :: 0 <= i < |vs| ==> Inside(q, vs[i])
    ensures forall o :: o in ClipFrom(vs, planes, a) ==> Inside(q, o)
    decreases |planes| - a
  {
    if a < |planes| && |vs| > 2 {
      var ws := ClipPoly(vs, planes[a]);
      ClipKeepsInside(vs, planes[a], q, |vs|);
      assert forall i :: 0 <= i < |ws| ==> ws[i] in ws;
      ClipFromKeepsInside(ws, planes, a + 1, q);
    }
  }

  /** The polygon that survives the plane loop lies inside every plane it
      was clipped against. */
  lemma {:induction false} ClipFromInsidePlanes(vs: seq<ClipVertex>, planes: seq<Plane>, a: int)
    requires 0 <= a
    requires |ClipFrom(vs, planes, a)| > 2
    ensures forall j, o :: a <= j < |planes| && o in ClipFrom(vs, planes, a) ==> Inside(planes[j], o)
    decreases |planes| - a
  {
    if a < |planes| {
      var ws := ClipPoly(vs, planes[a]);
      var r := ClipFrom(vs, planes, a);
      assert r == ClipFrom(ws, planes, a + 1);
      ClipFromInsidePlanes(ws, planes, a + 1);
      ClipOutput(vs, planes[a], |vs|);
      assert forall i :: 0 <= i < |ws| ==> ws[i] in ws;
      ClipFromKeepsInside(ws, planes, a + 1, planes[a]);
    }
  }

  /** Clipping against one plane keeps a polygon outside another plane
      outside it. */
  lemma {:induction false} ClipKeepsOutside(vs: seq<ClipVertex>, p: Plane, q: Plane, k: int)
    requires 0 <= k <= |vs|
    requires forall i :: 0 <= i < |vs| ==> !Inside(q, vs[i])
    ensures forall o :: o in ClipUpTo(vs, p, k) ==> !Inside(q, o)
  {
    if k > 0 {
      ClipKeepsOutside(vs, p, q, k - 1);
      var w := vs[Succ(|vs|, k - 1)];
      if Inside(p, vs[k - 1]) != Inside(p, w) {
        CrossingOutside(p, q, vs[k - 1], w);
      }
    }
  }

  /** A face entirely outside one of the planes it is clipped against
      yields no triangle. */
  lemma {:induction false} ClipFromOutside(vs: seq<ClipVertex>, planes: seq<Plane>, a: int, j: int)
    requires 0 <= a <= j < |planes|
    requires forall i :: 0 <= i < |vs| ==> !Inside(planes[j], vs[i])
    ensures |ClipFrom(vs, planes, a)| <= 2
    decreases j - a
  {
    if |vs| > 2 {
      var ws := ClipPoly(vs, planes[a]);
      if a == j {
        ClipAllOutside(vs, planes[a], |vs|);
      } else {
        ClipKeepsOutside(vs, planes[a], planes[j], |vs|);
        assert forall i :: 0 <= i < |ws| ==> ws[i] in ws;
        ClipFromOutside(ws, planes, a + 1, j);
      }
    }
  }

  /** One triangle of the fan: three indices into the clipped polygon. */
  datatype Tri = Tri(i0: int, i1: int, i2: int)

  /** The loop `for k = 2 .. numVerts - 1` of plClipRenderFace: triangle
      k - 2 takes vertices 0, k - 1 and k. */
  method Fan(numVerts: int) returns (tris: seq<Tri>)
    ensures numVerts <= 2 ==> tris == []
    ensures numVerts > 2 ==> |tris| == numVerts - 2
    ensures forall t :: 0 <= t < |tris| ==> tris[t] == Tri(0, t + 1, t + 2)
  {
    tris := [];
    var k := 2;
    while k < numVerts
      invariant 2 <= k && (numVerts > 2 ==> k <= numVerts) && (numVerts <= 2 ==> k == 2)
      invariant |tris| == k - 2
      invariant forall t :: 0 <= t < |tris| ==> tris[t] == Tri(0, t + 1, t + 2)
    {
      var w0 := 0;
      var w1 := 1 + (k - 2);
      var w2 := 2 + (k - 2);
      tris := tris + [Tri(w0, w1, w2)];
      k := k + 1;
    }
  }

  /** The fan covers the polygon: every index is below numVerts, each
      triangle shares its edge (0, k) with the next, and every vertex
      appears in some triangle. */
  lemma FanCovers(numVerts: int, tris: seq<Tri>)
    requires numVerts > 2 && |tris| == numVerts - 2
    requires forall t :: 0 <= t < |tris| ==> tris[t] == Tri(0, t + 1, t + 2)
    ensures forall t :: 0 <= t < |tris| ==> 0 <= tris[t].i0 < tris[t].i1 < tris[t].i2 < numVerts
    ensures forall t :: 0 <= t < |tris| - 1 ==> tris[t].i2 == tris[t + 1].i1 && tris[t].i0 == tris[t + 1].i0
    ensures forall v :: 0 <= v < numVerts ==> Covered(tris, v)
  {
    forall v | 0 <= v < numVerts
      ensures Covered(tris, v)
    {
      var t := if v <= 1 then 0 else v - 2;
      assert Corner(tris[t], v);
    }
  }

  predicate Corner(t: Tri, v: int)
  {
    t.i0 == v || t.i1 == v || t.i2 == v
  }

  /** Vertex v is a corner of some triangle. */
  predicate Covered(tris: seq<Tri>, v: int)
  {
    exists t :: 0 <= t < |tris| && Corner(tris[t], v)
  }

  /** The counters plClipRenderFace bumps: TriStats[2] counts faces that
      survive clipping, TriStats[3] the triangles drawn. */
  datatype Stats = Stats(objFaces: nat, accepted: nat, clipped: nat, drawn: nat)

  /** plClipRenderFace on one triangle: clip from the start plane on, then
      hand the fan over the surviving polygon to the rasterizer. Returns the
      triangles (as vertex triples) and the updated counters. */
  method ClipRenderFace(tri: seq<ClipVertex>, planes: seq<Plane>, stats: Stats)
    returns (faces: seq<(ClipVertex, ClipVertex, ClipVertex)>, stats': Stats)
    requires |tri| == 3 && |planes| == NumClipPlanes
    ensures var poly := ClipFrom(tri, planes, StartPlane(planes));
            && (|poly| > 2 ==> |faces| == |poly| - 2)
            && (|poly| <= 2 ==> faces == [])
            && (forall t :: 0 <= t < |faces| ==> faces[t] == (poly[0], poly[t + 1], poly[t + 2]))
    ensures forall t, j :: 0 <= t < |faces| && StartPlane(planes) <= j < |planes| ==>
              Inside(planes[j], faces[t].0) && Inside(planes[j], faces[t].1) && Inside(planes[j], faces[t].2)
    ensures stats'.objFaces == stats.objFaces && stats'.accepted == stats.accepted
    ensures stats'.drawn == stats.drawn + |faces|
    ensures stats'.clipped == stats.clipped + (if |faces| > 0 then 1 else 0)
  {
    var vs := tri;
    var a := StartPlane(planes);
    while a < NumClipPlanes && |vs| > 2
      invariant 0 <= a <= NumClipPlanes
      invariant ClipFrom(vs, planes, a) == ClipFrom(tri, planes, StartPlane(planes))
      decreases NumClipPlanes - a
    {
      vs := ClipToPlane(vs, planes[a]);
      a := a + 1;
    }
    faces := [];
    stats' := stats;
    if |vs| > 2 {
      var tris := Fan(|vs|);
      var k := 0;
      while k < |tris|
        invariant 0 <= k <= |tris| && |faces| == k
        invariant forall t :: 0 <= t < k ==> faces[t] == (vs[0], vs[t + 1], vs[t + 2])
        invariant stats' == stats.(drawn := stats.drawn + k)
      {
        faces := faces + [(vs[tris[k].i0], vs[tris[k].i1], vs[tris[k].i2])];
        stats' := stats'.(drawn := stats'.drawn + 1);
        k := k + 1;
      }
      stats' := stats'.(clipped := stats'.clipped + 1);
      ClipFromInsidePlanes(tri, planes, StartPlane(planes));
      assert forall t :: 0 <= t < |faces| ==> faces[t].0 in vs && faces[t].1 in vs && faces[t].2 in vs;
    }
  }
}
