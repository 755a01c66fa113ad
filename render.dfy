/** The frame protocol of plRenderBegin, plRenderLight, plRenderObj
    (_RenderObj) and plRenderEnd. The static globals `_faces`/`_numfaces`,
    `_lights`/`_numlights`, `_cam->Sort` and plRender_TriStats become the
    fields of one session object. Geometry, lighting and the culling tests
    are inputs: each face arrives with its depth key and whether it passed
    the backface and plClipNeeded tests. */
module Render {
  import opened FaceSort
  import opened Clip

  /** PL_MAX_TRIANGLES, PL_MAX_LIGHTS, PL_MAX_CHILDREN. */
  const MaxTriangles := 16384
  const MaxLights := 32
  const MaxChildren := 16

  /** PL_LIGHT_NONE. */
  const LightNone := 0

  /** A light handed to plRenderLight: its type and which light it is. */
  datatype Light = Light(kind: int, id: nat)

  /** A face of an object as _RenderObj sees it after transformation. */
  datatype SceneFace = SceneFace(id: nat, visible: bool, zd: int)

  /** An object: its faces, its vertex count and its non-null children in
      slot order. */
  datatype Obj = Obj(faces: seq<SceneFace>, numVertices: nat, children: seq<Obj>)

  /** The part of the session _RenderObj changes. */
  datatype Frame = Frame(faces: seq<FaceInfo>, stats: Stats)

  /** The visible faces of fs, appended in order, each counted in
      TriStats[1]. */
  function AcceptFaces(f: Frame, fs: seq<SceneFace>): (r: Frame)
    ensures r.stats == f.stats.(accepted := r.stats.accepted)
  {
    if fs == [] then f
    else
      var g := AcceptFaces(f, fs[..|fs| - 1]);
      var face := fs[|fs| - 1];
      if face.visible then Frame(g.faces + [FaceInfo(face.zd, face.id)], g.stats.(accepted := g.stats.accepted + 1))
      else g
  }

  /** _RenderObj: the children first, then the object's own faces unless it
      has none, has no vertices, or would take the face list to
      PL_MAX_TRIANGLES; a skipped object adds nothing to TriStats[0]. */
  function RenderObjSpec(f: Frame, o: Obj): Frame
    decreases o, 1
  {
    var g := RenderChildrenSpec(f, o.children);
    if |o.faces| == 0 || o.numVertices == 0 then g
    else if |g.faces| + |o.faces| >= MaxTriangles then g
    else AcceptFaces(g.(stats := g.stats.(objFaces := g.stats.objFaces + |o.faces|)), o.faces)
  }

  function RenderChildrenSpec(f: Frame, cs: seq<Obj>): Frame
    decreases cs, 0
  {
    if cs == [] then f else RenderObjSpec(RenderChildrenSpec(f, cs[..|cs| - 1]), cs[|cs| - 1])
  }

  /** The counters and the face list agree: the list stays below the face
      cap, every listed face was counted as accepted and not yet clipped,
      and no more faces are accepted than the objects offered. */
  predicate FrameOk(f: Frame)
  {
    && |f.faces| < MaxTriangles
    && f.stats.clipped + |f.faces| <= f.stats.accepted <= f.stats.objFaces
  }

  /** Accepting faces appends exactly the visible ones, as many as
      TriStats[1] grows by, and never more than were offered. */
  lemma {:induction false} AcceptFacesCount(f: Frame, fs: seq<SceneFace>)
    ensures var r := AcceptFaces(f, fs);
            && f.faces <= r.faces
            && |r.faces| - |f.faces| == r.stats.accepted - f.stats.accepted
            && |f.faces| <= |r.faces| <= |f.faces| + |fs|
    decreases |fs|
  {
    if fs != [] {
      var g := AcceptFaces(f, fs[..|fs| - 1]);
      AcceptFacesCount(f, fs[..|fs| - 1]);
      var r := AcceptFaces(f, fs);
      if fs[|fs| - 1].visible {
        assert g.faces <= r.faces;
      }
    }
  }

  /** Every object rendered keeps the frame consistent and only appends to
      the face list. */
  lemma {:induction false} RenderObjKeeps(f: Frame, o: Obj)
    requires FrameOk(f)
    ensures var r := RenderObjSpec(f, o);
            FrameOk(r) && f.faces <= r.faces && r.stats.clipped == f.stats.clipped
    decreases o, 1
  {
    var g := RenderChildrenSpec(f, o.children);
    RenderChildrenKeeps(f, o.children);
    if |o.faces| > 0 && o.numVertices > 0 && |g.faces| + |o.faces| < MaxTriangles {
      var h := g.(stats := g.stats.(objFaces := g.stats.objFaces + |o.faces|));
      AcceptFacesCount(h, o.faces);
      var r := AcceptFaces(h, o.faces);
    }
  }

  lemma {:induction false} RenderChildrenKeeps(f: Frame, cs: seq<Obj>)
    requires FrameOk(f)
    ensures var r := RenderChildrenSpec(f, cs);
            FrameOk(r) && f.faces <= r.faces && r.stats.clipped == f.stats.clipped
    decreases cs, 0
  {
    if cs != [] {
      var g := RenderChildrenSpec(f, cs[..|cs| - 1]);
      RenderChildrenKeeps(f, cs[..|cs| - 1]);
      RenderObjKeeps(g, cs[|cs| - 1]);
      var r := RenderObjSpec(g, cs[|cs| - 1]);
    }
  }

  /** The faces plRenderEnd hands to plClipRenderFace: those whose material
      has a rasterizer, in list order. */
  function Drawn(order: seq<FaceInfo>, drawable: nat -> bool): (r: seq<nat>)
    ensures |r| <= |order|
  {
    if order == [] then []
    else Drawn(order[..|order| - 1], drawable) + (if drawable(order[|order| - 1].face) then [order[|order| - 1].face] else [])
  }

  /** The counters after clipping the drawn faces, `survivors(f)` being the
      vertex count face f has after the plane loop. */
  function DrawStats(s: Stats, drawn: seq<nat>, survivors: nat -> nat): (r: Stats)
    ensures r.objFaces == s.objFaces && r.accepted == s.accepted
    ensures s.clipped <= r.clipped <= s.clipped + |drawn|
  {
    if drawn == [] then s
    else
      var t := DrawStats(s, drawn[..|drawn| - 1], survivors);
      var n := survivors(drawn[|drawn| - 1]);
      if n > 2 then t.(clipped := t.clipped + 1, drawn := t.drawn + (n - 2)) else t
  }

  /** Drawing a face that keeps n > 2 vertices counts it once in
      TriStats[2] and adds its n - 2 fan triangles to TriStats[3]. */
  lemma DrawStatsStep(s: Stats, drawn: seq<nat>, f: nat, survivors: nat -> nat)
    ensures var r := DrawStats(s, drawn + [f], survivors);
            var t := DrawStats(s, drawn, survivors);
            && (survivors(f) > 2 ==> r == t.(clipped := t.clipped + 1, drawn := t.drawn + survivors(f) - 2))
            && (survivors(f) <= 2 ==> r == t)
  {
    assert (drawn + [f])[..|drawn|] == drawn;
  }

  /** plClipRenderFace is what moves the counters DrawStats describes: with
      survivors(f) the size of face f's polygon after the plane loop, its
      update of TriStats[2] and TriStats[3] is the DrawStats step for f. */
  method ClipRenderFaceCounts(tri: seq<ClipVertex>, planes: seq<Plane>, s: Stats, drawn: seq<nat>, f: nat, survivors: nat -> nat)
    returns (stats': Stats)
    requires |tri| == 3 && |planes| == NumClipPlanes
    requires survivors(f) == |ClipFrom(tri, planes, StartPlane(planes))|
    ensures stats' == DrawStats(s, drawn + [f], survivors)
  {
    var faces;
    faces, stats' := ClipRenderFace(tri, planes, DrawStats(s, drawn, survivors));
    DrawStatsStep(s, drawn, f, survivors);
  }

  /** One more face of the order extends the drawn list by that face
      exactly when it is drawable. */
  lemma DrawnStep(order: seq<FaceInfo>, drawable: nat -> bool, k: nat)
    requires k < |order|
    ensures Drawn(order[..k + 1], drawable) == Drawn(order[..k], drawable) + (if drawable(order[k].face) then [order[k].face] else [])
  {
    assert order[..k + 1][..k] == order[..k];
  }

  /** The loop of plRenderEnd over the ordered faces: each face whose
      material has a rasterizer goes to plClipRenderFace, which updates
      TriStats[2] and TriStats[3]. */
  method DrawAll(order: seq<FaceInfo>, drawable: nat -> bool, survivors: nat -> nat, s: Stats)
    returns (rendered: seq<nat>, s': Stats)
    ensures rendered == Drawn(order, drawable)
    ensures s' == DrawStats(s, rendered, survivors)
  {
    rendered := [];
    s' := s;
    var k := 0;
    while k < |order|
      invariant 0 <= k <= |order|
      invariant rendered == Drawn(order[..k], drawable)
      invariant s' == DrawStats(s, rendered, survivors)
    {
      DrawnStep(order, drawable, k);
      var f := order[k].face;
      if drawable(f) {
        DrawStatsStep(s, rendered, f, survivors);
        var n := survivors(f);
        if n > 2 {
          s' := s'.(clipped := s'.clipped + 1, drawn := s'.drawn + (n - 2));
        }
        rendered := rendered + [f];
      }
      k := k + 1;
    }
    assert order[..k] == order;
  }

  class Session {
    var faces: seq<FaceInfo>
    var lights: seq<Light>
    var sort: int
    var triStats: Stats

    predicate Valid()
      reads this
    {
      FrameOk(Frame(faces, triStats)) && |lights| <= MaxLights
    }

    /** plRenderBegin: counters cleared, no lights, no faces, the camera's
      sort mode remembered. */
    method Begin(cameraSort: int)
      modifies this
      ensures Valid()
      ensures faces == [] && lights == [] && sort == cameraSort && triStats == Stats(0, 0, 0, 0)
    {
      faces := [];
      lights := [];
      sort := cameraSort;
      triStats := Stats(0, 0, 0, 0);
    }

    /** plRenderLight: a light of type NONE, or one beyond PL_MAX_LIGHTS, is
      ignored; otherwise it is appended. */
    method RenderLight(light: Light)
      requires Valid()
      modifies this`lights
      ensures Valid()
      ensures old(|lights|) >= MaxLights || light.kind == LightNone ==> lights == old(lights)
      ensures old(|lights|) < MaxLights && light.kind != LightNone ==> lights == old(lights) + [light]
    {
      if light.kind == LightNone || |lights| >= MaxLights {
        return;
      }
      lights := lights + [light];
    }

    /** plRenderObj / _RenderObj on an object tree. */
    method RenderObj(o: Obj)
      requires Valid()
      modifies this`faces, this`triStats
      ensures Valid()
      ensures Frame(faces, triStats) == RenderObjSpec(old(Frame(faces, triStats)), o)
      decreases o, 1
    {
      ghost var f0 := Frame(faces, triStats);
      var i := 0;
      while i < |o.children|
        invariant 0 <= i <= |o.children|
        invariant Valid()
        invariant Frame(faces, triStats) == RenderChildrenSpec(f0, o.children[..i])
      {
        assert o.children[..i + 1][..i] == o.children[..i];
        RenderObj(o.children[i]);
        i := i + 1;
      }
      assert o.children[..i] == o.children;
      if |o.faces| == 0 || o.numVertices == 0 {
        return;
      }
      if |faces| + |o.faces| >= MaxTriangles {
        return;
      }
      ghost var g := Frame(faces, triStats);
      triStats := triStats.(objFaces := triStats.objFaces + |o.faces|);
      ghost var h := Frame(faces, triStats);
      var x := 0;
      while x < |o.faces|
        invariant 0 <= x <= |o.faces|
        invariant Frame(faces, triStats) == AcceptFaces(h, o.faces[..x])
      {
        assert o.faces[..x + 1][..x] == o.faces[..x];
        var face := o.faces[x];
        if face.visible {
          faces := faces + [FaceInfo(face.zd, face.id)];
          triStats := triStats.(accepted := triStats.accepted + 1);
        }
        x := x + 1;
      }
      assert o.faces[..x] == o.faces;
      RenderObjKeeps(f0, o);
    }

    /** plRenderEnd: sort the face list by depth when the camera asks for
      it (Sort > 0: dir 0, Sort < 0: dir 1, Sort == 0: list order), hand
      every face with a rasterizer to the clipper in that order, then empty
      the face and light lists. Returns the order and the faces drawn. */
    method End(drawable: nat -> bool, survivors: nat -> nat) returns (order: seq<FaceInfo>, rendered: seq<nat>)
      requires Valid()
      modifies this`faces, this`lights, this`triStats
      ensures Valid()
      ensures multiset(order) == multiset(old(faces))
      ensures sort > 0 ==> Sorted(0, order)
      ensures sort < 0 ==> Sorted(1, order)
      ensures sort == 0 ==> order == old(faces)
      ensures rendered == Drawn(order, drawable)
      ensures triStats == DrawStats(old(triStats), rendered, survivors)
      ensures faces == [] && lights == []
    {
      var a := new FaceInfo[|faces|](i requires 0 <= i < |faces| reads this => faces[i]);
      assert a[..] == faces;
      if sort > 0 {
        HeapSort(a, 0);
      } else if sort < 0 {
        HeapSort(a, 1);
      }
      order := a[..];
      rendered, triStats := DrawAll(order, drawable, survivors, triStats);
      faces := [];
      lights := [];
    }
  }
}
