/** The structural object operations: plObjSetMat, plObjFlipNormals,
    plObjTranslate and plObjClone over an object, its vertices, faces and
    the PL_MAX_CHILDREN child slots. Objects are values here: a face
    names its vertices by their offset in the object's vertex array (the
    pointer difference plObjClone works with) and its material by an
    identifier. */
module Objects {
  import opened Common

  datatype Vec = Vec(x: real, y: real, z: real)

  function Neg(v: Vec): Vec
  {
    Vec(-v.x, -v.y, -v.z)
  }

  function Add(v: Vec, d: Vec): Vec
  {
    Vec(v.x + d.x, v.y + d.y, v.z + d.z)
  }

  /** pl_Vertex: object-space position and normal and their camera-space
      transforms. */
  datatype Vertex = Vertex(pos: Vec, xformed: Vec, n: Vec, xformedN: Vec)

  /** pl_Face. `verts` are the offsets of the three corners in the
      object's vertex array; the screen, environment and shade fields are
      written by the renderer, the static lighting by the application. */
  datatype Face = Face(
    verts: seq<int>, n: Vec, material: Option<nat>,
    scrx: seq<int>, scry: seq<int>, scrz: seq<real>,
    mappingU: seq<int>, mappingV: seq<int>, eMappingU: seq<int>, eMappingV: seq<int>,
    fShade: real, sLighting: real, shades: seq<real>, vsLighting: seq<real>)

  /** pl_Obj. A child slot holds a sub-object or None (a null pointer). */
  datatype Obj = Obj(
    vertices: seq<Vertex>, faces: seq<Face>, children: seq<Option<Obj>>,
    backfaceCull: bool, backfaceIllumination: bool, genMatrix: bool,
    pos: Vec, rot: Vec, matrix: seq<real>, rotMatrix: seq<real>)

  /** Every face of o and, through every child slot, of its sub-objects has
      material m. */
  ghost predicate AllMaterial(o: Obj, m: Option<nat>)
    decreases o
  {
    && (forall i :: 0 <= i < |o.faces| ==> o.faces[i].material == m)
    && (forall i :: 0 <= i < |o.children| && o.children[i].Some? ==> AllMaterial(o.children[i].value, m))
  }

  /** plObjSetMat(o, m, th): every face of o gets material m; with th set,
      the same for every sub-object, otherwise the children are left
      alone. */
  function SetMat(o: Obj, m: Option<nat>, th: bool): (r: Obj)
    ensures |r.faces| == |o.faces| && |r.children| == |o.children|
    ensures forall i :: 0 <= i < |o.faces| ==> r.faces[i] == o.faces[i].(material := m)
    ensures !th ==> r.children == o.children
    ensures forall i :: 0 <= i < |o.children| ==> r.children[i].Some? == o.children[i].Some?
    ensures r.vertices == o.vertices
    decreases o
  {
    o.(faces := seq(|o.faces|, i requires 0 <= i < |o.faces| => o.faces[i].(material := m)),
       children := if th then seq(|o.children|, i requires 0 <= i < |o.children| => SetMatChild(o, i, m)) else o.children)
  }

  function SetMatChild(o: Obj, i: nat, m: Option<nat>): (c: Option<Obj>)
    requires i < |o.children|
    ensures c.Some? == o.children[i].Some?
    decreases o, 0
  {
    match o.children[i]
    case None => None
    case Some(child) => Some(SetMat(child, m, true))
  }

  /** With th set, the whole hierarchy ends up with material m. */
  lemma {:induction false} SetMatHierarchy(o: Obj, m: Option<nat>)
    ensures AllMaterial(SetMat(o, m, true), m)
    decreases o
  {
    var r := SetMat(o, m, true);
    forall i | 0 <= i < |r.children| && r.children[i].Some?
      ensures AllMaterial(r.children[i].value, m)
    {
      assert r.children[i] == SetMatChild(o, i, m);
      SetMatHierarchy(o.children[i].value, m);
    }
  }

  /** Without th only the object's own faces change: its sub-objects keep
      whatever materials they had. */
  lemma SetMatShallow(o: Obj, m: Option<nat>, m0: Option<nat>)
    requires AllMaterial(o, m0)
    ensures forall i :: 0 <= i < |o.children| && o.children[i].Some? ==> AllMaterial(SetMat(o, m, false).children[i].value, m0)
  {
  }

  /** plObjFlipNormals: every vertex and face normal negated, through the
      whole hierarchy; positions and everything else unchanged. */
  function FlipNormals(o: Obj): (r: Obj)
    ensures |r.vertices| == |o.vertices| && |r.faces| == |o.faces| && |r.children| == |o.children|
    ensures forall i :: 0 <= i < |o.vertices| ==> r.vertices[i] == o.vertices[i].(n := Neg(o.vertices[i].n))
    ensures forall i :: 0 <= i < |o.faces| ==> r.faces[i] == o.faces[i].(n := Neg(o.faces[i].n))
    ensures forall i :: 0 <= i < |o.children| ==> r.children[i].Some? == o.children[i].Some?
    decreases o
  {
    o.(vertices := seq(|o.vertices|, i requires 0 <= i < |o.vertices| => o.vertices[i].(n := Neg(o.vertices[i].n))),
       faces := seq(|o.faces|, i requires 0 <= i < |o.faces| => o.faces[i].(n := Neg(o.faces[i].n))),
       children := seq(|o.children|, i requires 0 <= i < |o.children| => FlipChild(o, i)))
  }

  function FlipChild(o: Obj, i: nat): (c: Option<Obj>)
    requires i < |o.children|
    ensures c.Some? == o.children[i].Some?
    decreases o, 0
  {
    match o.children[i]
    case None => None
    case Some(child) => Some(FlipNormals(child))
  }

  /** A second flip restores the normals, as the header documents. */
  lemma {:induction false} FlipNormalsInvolution(o: Obj)
    ensures FlipNormals(FlipNormals(o)) == o
    decreases o
  {
    var r := FlipNormals(FlipNormals(o));
    forall i | 0 <= i < |o.children|
      ensures r.children[i] == o.children[i]
    {
      var f := FlipNormals(o);
      assert f.children[i] == FlipChild(o, i);
      assert r.children[i] == FlipChild(f, i);
      if o.children[i].Some? {
        FlipNormalsInvolution(o.children[i].value);
      }
    }
    assert r.vertices == o.vertices;
    assert r.faces == o.faces;
    assert r.children == o.children;
  }

  /** plObjTranslate: every vertex position of o moved by d. Unlike
      plObjScale and plObjStretch it does not recurse: the children are
      left as they are. */
  function Translate(o: Obj, d: Vec): (r: Obj)
    ensures |r.vertices| == |o.vertices|
    ensures forall i :: 0 <= i < |o.vertices| ==> r.vertices[i] == o.vertices[i].(pos := Add(o.vertices[i].pos, d))
    ensures r.children == o.children && r.faces == o.faces
  {
    o.(vertices := seq(|o.vertices|, i requires 0 <= i < |o.vertices| => o.vertices[i].(pos := Add(o.vertices[i].pos, d))))
  }

  /** Translating back by -d undoes a translation. */
  lemma TranslateInverse(o: Obj, d: Vec)
    ensures Translate(Translate(o, d), Neg(d)) == o
  {
    var r := Translate(Translate(o, d), Neg(d));
    assert r.vertices == o.vertices;
  }

  /** Two translations add up. */
  lemma TranslateCompose(o: Obj, d: Vec, e: Vec)
    ensures Translate(Translate(o, d), e) == Translate(o, Add(d, e))
  {
    var r := Translate(Translate(o, d), e);
    assert r.vertices == Translate(o, Add(d, e)).vertices;
  }

  /** The face plObjClone writes: corner offsets, texture coordinates,
      normal and material copied; every other field keeps the zeros of
      plObjCreate's memset. */
  function CloneFace(f: Face): (g: Face)
  {
    Face(f.verts, f.n, f.material, [0, 0, 0], [0, 0, 0], [0.0, 0.0, 0.0],
         f.mappingU, f.mappingV, [0, 0, 0], [0, 0, 0],
         0.0, 0.0, [0.0, 0.0, 0.0], [0.0, 0.0, 0.0])
  }

  /** plObjClone: a new object with the same vertices (memcpy), faces
      rebuilt by CloneFace, every child cloned, position, rotation and the
      three flags copied, and the matrices left zero as plObjCreate clears
      them. */
  function Clone(o: Obj): (r: Obj)
    ensures r.vertices == o.vertices && |r.faces| == |o.faces| && |r.children| == |o.children|
    ensures forall i :: 0 <= i < |o.faces| ==> r.faces[i].verts == o.faces[i].verts && r.faces[i].n == o.faces[i].n
    ensures forall i :: 0 <= i < |o.faces| ==> r.faces[i].material == o.faces[i].material
    ensures forall i :: 0 <= i < |o.faces| ==> r.faces[i].mappingU == o.faces[i].mappingU && r.faces[i].mappingV == o.faces[i].mappingV
    ensures forall i :: 0 <= i < |o.faces| ==> r.faces[i].sLighting == 0.0 && r.faces[i].vsLighting == [0.0, 0.0, 0.0]
    ensures forall i :: 0 <= i < |o.children| ==> r.children[i].Some? == o.children[i].Some?
    ensures r.pos == o.pos && r.rot == o.rot
    ensures r.backfaceCull == o.backfaceCull && r.backfaceIllumination == o.backfaceIllumination && r.genMatrix == o.genMatrix
    ensures r.matrix == seq(16, _ => 0.0) && r.rotMatrix == seq(16, _ => 0.0)
    decreases o
  {
    Obj(o.vertices,
        seq(|o.faces|, i requires 0 <= i < |o.faces| => CloneFace(o.faces[i])),
        seq(|o.children|, i requires 0 <= i < |o.children| => CloneChild(o, i)),
        o.backfaceCull, o.backfaceIllumination, o.genMatrix, o.pos, o.rot,
        seq(16, _ => 0.0), seq(16, _ => 0.0))
  }

  function CloneChild(o: Obj, i: nat): (c: Option<Obj>)
    requires i < |o.children|
    ensures c.Some? == o.children[i].Some?
    decreases o, 0
  {
    match o.children[i]
    case None => None
    case Some(child) => Some(Clone(child))
  }

  /** A clone of a clone is the clone: everything plObjClone copies it
      copies faithfully, and everything else it resets. */
  lemma {:induction false} CloneIdempotent(o: Obj)
    ensures Clone(Clone(o)) == Clone(o)
    decreases o
  {
    var c := Clone(o);
    var r := Clone(c);
    forall i | 0 <= i < |o.children|
      ensures r.children[i] == c.children[i]
    {
      assert c.children[i] == CloneChild(o, i);
      assert r.children[i] == CloneChild(c, i);
      if o.children[i].Some? {
        CloneIdempotent(o.children[i].value);
      }
    }
    assert r.faces == c.faces;
    assert r.children == c.children;
  }

  /** The clone is not exact: a face's static lighting is not copied. */
  lemma CloneDropsStaticLighting(o: Obj, i: nat)
    requires i < |o.faces| && o.faces[i].sLighting != 0.0
    ensures Clone(o) != o
  {
    assert Clone(o).faces[i].sLighting == 0.0;
  }

  /** Cloning then setting the material hierarchy-wide gives the same
      object as setting it first: the copy keeps each face's material slot
      and the whole tree of children. */
  lemma {:induction false} CloneCommutesWithSetMat(o: Obj, m: Option<nat>)
    ensures Clone(SetMat(o, m, true)) == SetMat(Clone(o), m, true)
    decreases o
  {
    var a := Clone(SetMat(o, m, true));
    var b := SetMat(Clone(o), m, true);
    forall i | 0 <= i < |o.children|
      ensures a.children[i] == b.children[i]
    {
      var s := SetMat(o, m, true);
      var c := Clone(o);
      assert s.children[i] == SetMatChild(o, i, m);
      assert a.children[i] == CloneChild(s, i);
      assert c.children[i] == CloneChild(o, i);
      assert b.children[i] == SetMatChild(c, i, m);
      if o.children[i].Some? {
        CloneCommutesWithSetMat(o.children[i].value, m);
      }
    }
    assert a.faces == b.faces;
    assert a.children == b.children;
  }
}
