/**
 * The second pass of dual_contour_3d (dual_contour_3d.py): the faces of the
 * mesh, each corner looked up in the index the vertex pass built, and the
 * whole function, which fails when a face needs a cell that has no vertex.
 */
module DualContour3dStitch {
  import opened Wrappers
  import opened Grid
  import opened Utils3d
  import opened DualContour3d
  import opened DualContour3dMesh
  import opened DualContour3dQuads

  // ---------------------------------------------------------------------
  // Looking faces up
  // ---------------------------------------------------------------------

  /** The 1-based vertex number of a cell, or 0 for a cell without one. */
  function Index(idx: map<Cell3, int>, c: Cell3): int {
    if c in idx then idx[c] else 0
  }

  /** Every corner of the face is a key of the index. */
  predicate Resolves(q: Face<Cell3>, idx: map<Cell3, int>) {
    forall c :: c in q.Corners() ==> c in idx
  }

  /** The face over vertex numbers instead of cells. */
  function Resolve(q: Face<Cell3>, idx: map<Cell3, int>): Face<int> {
    q.Map(c => Index(idx, c))
  }

  /**
   * The faces over vertex numbers, in order, or None when some corner is not
   * in the index (the source's KeyError).
   */
  function Lookup(qs: seq<Face<Cell3>>, idx: map<Cell3, int>): (r: Option<seq<Face<int>>>)
    ensures r.Some? <==> forall q :: q in qs ==> Resolves(q, idx)
    ensures r.Some? ==> |r.value| == |qs| && forall i :: 0 <= i < |qs| ==> r.value[i] == Resolve(qs[i], idx)
    decreases |qs|
  {
    if |qs| == 0 then Some([])
    else
      var init, last := qs[..|qs| - 1], qs[|qs| - 1];
      assert qs == init + [last];
      match Lookup(init, idx)
      case None => None
      case Some(fs) => if Resolves(last, idx) then Some(fs + [Resolve(last, idx)]) else None
  }

  /** Looking up two runs of faces one after the other looks up both. */
  lemma LookupAppend(qs: seq<Face<Cell3>>, rs: seq<Face<Cell3>>, idx: map<Cell3, int>)
    ensures Lookup(qs + rs, idx) ==
      if Lookup(qs, idx).Some? && Lookup(rs, idx).Some? then Some(Lookup(qs, idx).value + Lookup(rs, idx).value) else None
  {
    var a, l, r := Lookup(qs + rs, idx), Lookup(qs, idx), Lookup(rs, idx);
    if l.Some? && r.Some? {
      forall q | q in qs + rs
        ensures Resolves(q, idx)
      {
        assert q in qs || q in rs;
      }
      LookupAppendValue(qs, rs, idx);
    } else if l.None? {
      var q :| q in qs && !Resolves(q, idx);
      assert q in qs + rs;
    } else {
      var q :| q in rs && !Resolves(q, idx);
      assert q in qs + rs;
    }
  }

  lemma LookupAppendValue(qs: seq<Face<Cell3>>, rs: seq<Face<Cell3>>, idx: map<Cell3, int>)
    requires Lookup(qs + rs, idx).Some? && Lookup(qs, idx).Some? && Lookup(rs, idx).Some?
    ensures Lookup(qs + rs, idx).value == Lookup(qs, idx).value + Lookup(rs, idx).value
  {
    var all, fs, gs := Lookup(qs + rs, idx).value, Lookup(qs, idx).value, Lookup(rs, idx).value;
    forall i | 0 <= i < |qs + rs|
      ensures all[i] == (fs + gs)[i]
    {
      if i >= |qs| {
        assert (qs + rs)[i] == rs[i - |qs|];
      }
    }
  }

  /** A single face is looked up corner by corner. */
  lemma LookupQuad(q: Face<Cell3>, swap: bool, idx: map<Cell3, int>)
    requires q.Quad?
    ensures Lookup([q.Swap(swap)], idx) ==
      if q.v1 in idx && q.v2 in idx && q.v3 in idx && q.v4 in idx
      then Some([Quad(idx[q.v1], idx[q.v2], idx[q.v3], idx[q.v4]).Swap(swap)])
      else None
  {
    var p := q.Swap(swap);
    assert [p][..0] == [];
    assert Lookup([p][..0], idx) == Some([]);
    if q.v1 in idx && q.v2 in idx && q.v3 in idx && q.v4 in idx {
      assert Resolves(p, idx);
      SwapMapCommute(q, c => Index(idx, c), swap);
      assert Resolve(p, idx) == Quad(idx[q.v1], idx[q.v2], idx[q.v3], idx[q.v4]).Swap(swap);
      assert [] + [Resolve(p, idx)] == [Resolve(p, idx)];
    } else {
      assert q.v1 in p.Corners() && q.v2 in p.Corners() && q.v3 in p.Corners() && q.v4 in p.Corners();
      assert !Resolves(p, idx);
    }
  }

  /** When some face of a prefix cannot be looked up, no longer run can be. */
  lemma LookupPrefixFails(qs: seq<Face<Cell3>>, rs: seq<Face<Cell3>>, idx: map<Cell3, int>)
    requires qs <= rs && Lookup(qs, idx).None?
    ensures Lookup(rs, idx).None?
  {
    var q :| q in qs && !Resolves(q, idx);
    var i :| 0 <= i < |qs| && qs[i] == q;
    assert rs[i] == q;
  }

  // ---------------------------------------------------------------------
  // The faces of one grid point
  // ---------------------------------------------------------------------

  /** The first `if` of the loop body: the face of the z edge from (x, y, z). */
  method ZFace(f: Field3, idx: map<Cell3, int>, x: int, y: int, z: int) returns (r: Option<seq<Face<int>>>)
    ensures r == Lookup(ZQuad(f, x, y, z), idx)
  {
    var solid1 := f(x as real, y as real, (z + 0) as real) > 0.0;
    var solid2 := f(x as real, y as real, (z + 1) as real) > 0.0;
    if solid1 == solid2 {
      assert Lookup([], idx) == Some([]);
      return Some([]);
    }
    var q := Quad((x - 1, y - 1, z), (x - 0, y - 1, z), (x - 0, y - 0, z), (x - 1, y - 0, z));
    assert ZQuad(f, x, y, z) == [q.Swap(solid2)];
    LookupQuad(q, solid2, idx);
    if q.v1 in idx && q.v2 in idx && q.v3 in idx && q.v4 in idx {
      r := Some([Quad(idx[q.v1], idx[q.v2], idx[q.v3], idx[q.v4]).Swap(solid2)]);
    } else {
      r := None;
    }
  }

  /** The second `if` of the loop body: the face of the y edge from (x, y, z). */
  method YFace(f: Field3, idx: map<Cell3, int>, x: int, y: int, z: int) returns (r: Option<seq<Face<int>>>)
    ensures r == Lookup(YQuad(f, x, y, z), idx)
  {
    var solid1 := f(x as real, (y + 0) as real, z as real) > 0.0;
    var solid2 := f(x as real, (y + 1) as real, z as real) > 0.0;
    if solid1 == solid2 {
      assert Lookup([], idx) == Some([]);
      return Some([]);
    }
    var q := Quad((x - 1, y, z - 1), (x - 0, y, z - 1), (x - 0, y, z - 0), (x - 1, y, z - 0));
    assert YQuad(f, x, y, z) == [q.Swap(solid1)];
    LookupQuad(q, solid1, idx);
    if q.v1 in idx && q.v2 in idx && q.v3 in idx && q.v4 in idx {
      r := Some([Quad(idx[q.v1], idx[q.v2], idx[q.v3], idx[q.v4]).Swap(solid1)]);
    } else {
      r := None;
    }
  }

  /** The third `if` of the loop body: the face of the x edge from (x, y, z). */
  method XFace(f: Field3, idx: map<Cell3, int>, x: int, y: int, z: int) returns (r: Option<seq<Face<int>>>)
    ensures r == Lookup(XQuad(f, x, y, z), idx)
  {
    var solid1 := f((x + 0) as real, y as real, z as real) > 0.0;
    var solid2 := f((x + 1) as real, y as real, z as real) > 0.0;
    if solid1 == solid2 {
      assert Lookup([], idx) == Some([]);
      return Some([]);
    }
    var q := Quad((x, y - 1, z - 1), (x, y - 0, z - 1), (x, y - 0, z - 0), (x, y - 1, z - 0));
    assert XQuad(f, x, y, z) == [q.Swap(solid2)];
    LookupQuad(q, solid2, idx);
    if q.v1 in idx && q.v2 in idx && q.v3 in idx && q.v4 in idx {
      r := Some([Quad(idx[q.v1], idx[q.v2], idx[q.v3], idx[q.v4]).Swap(solid2)]);
    } else {
      r := None;
    }
  }

  /** The faces an edge contributes when its guard holds, and none otherwise. */
  function Guarded(guard: bool, qs: seq<Face<Cell3>>): seq<Face<Cell3>> {
    if guard then qs else []
  }

  /** The faces of a grid point are looked up edge by edge. */
  lemma LookupQuadsAt(f: Field3, b: Box3, x: int, y: int, z: int, idx: map<Cell3, int>)
    ensures var zs, ys, xs := Guarded(x > b.xmin && y > b.ymin, ZQuad(f, x, y, z)),
        Guarded(x > b.xmin && z > b.zmin, YQuad(f, x, y, z)), Guarded(y > b.ymin && z > b.zmin, XQuad(f, x, y, z));
      && Lookup(QuadsAt(f, b, x, y, z), idx) == Lookup(zs + ys + xs, idx)
      && Lookup(zs + ys, idx) == (if Lookup(zs, idx).Some? && Lookup(ys, idx).Some? then Some(Lookup(zs, idx).value + Lookup(ys, idx).value) else None)
      && Lookup(zs + ys + xs, idx) ==
         (if Lookup(zs + ys, idx).Some? && Lookup(xs, idx).Some? then Some(Lookup(zs + ys, idx).value + Lookup(xs, idx).value) else None)
      && Lookup([], idx) == Some([])
  {
    var zs, ys, xs := Guarded(x > b.xmin && y > b.ymin, ZQuad(f, x, y, z)),
        Guarded(x > b.xmin && z > b.zmin, YQuad(f, x, y, z)), Guarded(y > b.ymin && z > b.zmin, XQuad(f, x, y, z));
    assert QuadsAt(f, b, x, y, z) == zs + ys + xs;
    LookupAppend(zs, ys, idx);
    LookupAppend(zs + ys, xs, idx);
  }

  /** The body of the second loop at (x, y, z): up to three faces, or None at the first failed lookup. */
  method CellFaces3d(f: Field3, b: Box3, idx: map<Cell3, int>, x: int, y: int, z: int) returns (r: Option<seq<Face<int>>>)
    ensures r == Lookup(QuadsAt(f, b, x, y, z), idx)
  {
    LookupQuadsAt(f, b, x, y, z, idx);
    ghost var zs, ys, xs := Guarded(x > b.xmin && y > b.ymin, ZQuad(f, x, y, z)),
        Guarded(x > b.xmin && z > b.zmin, YQuad(f, x, y, z)), Guarded(y > b.ymin && z > b.zmin, XQuad(f, x, y, z));
    var faces := [];
    if x > b.xmin && y > b.ymin {
      var more := ZFace(f, idx, x, y, z);
      if more.None? {
        return None;
      }
      faces := more.value;
    }
    assert Lookup(zs, idx) == Some(faces);
    if x > b.xmin && z > b.zmin {
      var more := YFace(f, idx, x, y, z);
      if more.None? {
        return None;
      }
      faces := faces + more.value;
    } else {
      assert faces == faces + [];
    }
    assert Lookup(zs + ys, idx) == Some(faces);
    if y > b.ymin && z > b.zmin {
      var more := XFace(f, idx, x, y, z);
      if more.None? {
        return None;
      }
      faces := faces + more.value;
    } else {
      assert faces == faces + [];
    }
    r := Some(faces);
  }

  // ---------------------------------------------------------------------
  // The second loop
  // ---------------------------------------------------------------------

  /** The faces of the grid points before (x, y, z), in loop order, with z over [zlo, zhi). */
  function QuadsUpto(f: Field3, b: Box3, zlo: int, zhi: int, x: int, y: int, z: int): seq<Face<Cell3>>
    requires b.xmin <= x && b.ymin <= y <= b.YEnd() && zlo <= z <= End(zlo, zhi)
  {
    Prefix3(CellQuads(f, b), b.xmin, b.ymin, b.ymax, zlo, zhi, x, y, z)
  }

  /** The state of the second loop before (x, y, z): the faces so far, looked up. */
  ghost predicate Stitched(f: Field3, b: Box3, zlo: int, zhi: int, idx: map<Cell3, int>, faces: seq<Face<int>>, x: int, y: int, z: int) {
    && b.xmin <= x <= b.XEnd() && b.ymin <= y <= b.YEnd() && zlo <= z <= End(zlo, zhi)
    && Lookup(QuadsUpto(f, b, zlo, zhi, x, y, z), idx) == Some(faces)
  }

  /** Visiting (x, y, z) appends its faces, or meets a face that cannot be looked up. */
  lemma StitchedCell(f: Field3, b: Box3, zlo: int, zhi: int, idx: map<Cell3, int>, faces: seq<Face<int>>, x: int, y: int, z: int)
    requires x < b.xmax && y < b.ymax && z < zhi
    requires Stitched(f, b, zlo, zhi, idx, faces, x, y, z)
    ensures var more := Lookup(QuadsAt(f, b, x, y, z), idx);
      && (more.Some? ==> Stitched(f, b, zlo, zhi, idx, faces + more.value, x, y, z + 1))
      && (more.None? ==> Lookup(Quads3d(f, b, zlo, zhi), idx).None?)
  {
    var before := QuadsUpto(f, b, zlo, zhi, x, y, z);
    assert QuadsUpto(f, b, zlo, zhi, x, y, z + 1) == before + QuadsAt(f, b, x, y, z);
    LookupAppend(before, QuadsAt(f, b, x, y, z), idx);
    if Lookup(QuadsAt(f, b, x, y, z), idx).None? {
      Prefix3Within(CellQuads(f, b), b.xmin, b.xmax, b.ymin, b.ymax, zlo, zhi, x, y, z);
      LookupPrefixFails(QuadsUpto(f, b, zlo, zhi, x, y, z + 1), Quads3d(f, b, zlo, zhi), idx);
    }
  }

  /** The innermost loop of the second pass, over one row. */
  method StitchRow(f: Field3, b: Box3, zlo: int, zhi: int, idx: map<Cell3, int>, faces: seq<Face<int>>, x: int, y: int)
    returns (r: Option<seq<Face<int>>>)
    requires x < b.xmax && y < b.ymax
    requires Stitched(f, b, zlo, zhi, idx, faces, x, y, zlo)
    ensures r.Some? ==> Stitched(f, b, zlo, zhi, idx, r.value, x, y + 1, zlo)
    ensures r.None? ==> Lookup(Quads3d(f, b, zlo, zhi), idx).None?
  {
    var acc := faces;
    var z := zlo;
    while z < zhi
      invariant Stitched(f, b, zlo, zhi, idx, acc, x, y, z)
    {
      var more := CellFaces3d(f, b, idx, x, y, z);
      StitchedCell(f, b, zlo, zhi, idx, acc, x, y, z);
      if more.None? {
        return None;
      }
      acc := acc + more.value;
      z := z + 1;
    }
    assert z == End(zlo, zhi);
    r := Some(acc);
  }

  /** The middle loop of the second pass, over one plane. */
  method StitchPlane(f: Field3, b: Box3, zlo: int, zhi: int, idx: map<Cell3, int>, faces: seq<Face<int>>, x: int)
    returns (r: Option<seq<Face<int>>>)
    requires x < b.xmax
    requires Stitched(f, b, zlo, zhi, idx, faces, x, b.ymin, zlo)
    ensures r.Some? ==> Stitched(f, b, zlo, zhi, idx, r.value, x + 1, b.ymin, zlo)
    ensures r.None? ==> Lookup(Quads3d(f, b, zlo, zhi), idx).None?
  {
    var acc := faces;
    var y := b.ymin;
    while y < b.ymax
      invariant Stitched(f, b, zlo, zhi, idx, acc, x, y, zlo)
    {
      var row := StitchRow(f, b, zlo, zhi, idx, acc, x, y);
      if row.None? {
        return None;
      }
      acc := row.value;
      y := y + 1;
    }
    assert y == b.YEnd();
    r := Some(acc);
  }

  /** The second loop of dual_contour_3d, with z over [zlo, zhi). */
  method StitchPass3d(f: Field3, b: Box3, zlo: int, zhi: int, idx: map<Cell3, int>) returns (r: Option<seq<Face<int>>>)
    ensures r == Lookup(Quads3d(f, b, zlo, zhi), idx)
  {
    var acc := [];
    var x := b.xmin;
    while x < b.xmax
      invariant Stitched(f, b, zlo, zhi, idx, acc, x, b.ymin, zlo)
    {
      var plane := StitchPlane(f, b, zlo, zhi, idx, acc, x);
      if plane.None? {
        return None;
      }
      acc := plane.value;
      x := x + 1;
    }
    assert x == b.XEnd();
    Prefix3Whole(CellQuads(f, b), b.xmin, b.xmax, b.ymin, b.ymax, zlo, zhi);
    r := Some(acc);
  }

  // ---------------------------------------------------------------------
  // The whole function
  // ---------------------------------------------------------------------

  /**
   * The faces realise the cell faces `qs`: face i is a quadrilateral whose
   * corner j is the vertex of the cell at corner j of qs[i].
   */
  ghost predicate Realizes(sf: Surface, qs: seq<Face<Cell3>>, verts: seq<V3>, faces: seq<Face<int>>) {
    && |faces| == |qs|
    && forall i :: 0 <= i < |qs| ==> FaceRealizes(sf, qs[i], verts, faces[i])
  }

  /** Face `f` has the shape of `q` and numbers, corner by corner, the vertices of q's cells. */
  ghost predicate FaceRealizes(sf: Surface, q: Face<Cell3>, verts: seq<V3>, f: Face<int>) {
    && f.Tri? == q.Tri?
    && forall j :: 0 <= j < |q.Corners()| ==>
         && 1 <= f.Corners()[j] <= |verts|
         && sf.Vertex(q.Corners()[j]).Some?
         && verts[f.Corners()[j] - 1] == sf.Vertex(q.Corners()[j]).value
  }

  /** With the index of the vertex pass, a face resolves exactly when its cells have vertices. */
  lemma LookupCovered(sf: Surface, b: Box3, idx: map<Cell3, int>, qs: seq<Face<Cell3>>)
    requires forall c :: c in idx <==> HasVertex(sf, b, c)
    ensures Lookup(qs, idx).Some? <==> Covered(sf, b, qs)
  {
  }

  /** A resolved face names, corner by corner, the vertices of its cells. */
  lemma ResolveRealizes(sf: Surface, verts: seq<V3>, idx: map<Cell3, int>, q: Face<Cell3>)
    requires Indexes(sf, verts, idx) && Resolves(q, idx)
    ensures FaceRealizes(sf, q, verts, Resolve(q, idx)) && FaceInRange(Resolve(q, idx), |verts|)
  {
    forall j | 0 <= j < |q.Corners()|
      ensures 1 <= Resolve(q, idx).Corners()[j] <= |verts| && sf.Vertex(q.Corners()[j]).Some?
      ensures verts[Resolve(q, idx).Corners()[j] - 1] == sf.Vertex(q.Corners()[j]).value
    {
      var c := q.Corners()[j];
      assert c in q.Corners();
      assert Resolve(q, idx).Corners()[j] == idx[c];
    }
  }

  /** With the index of the vertex pass, a successful lookup realises the faces. */
  lemma LookupRealizes(sf: Surface, verts: seq<V3>, idx: map<Cell3, int>, qs: seq<Face<Cell3>>)
    requires Indexes(sf, verts, idx) && Lookup(qs, idx).Some?
    ensures Realizes(sf, qs, verts, Lookup(qs, idx).value) && FacesInRange(Lookup(qs, idx).value, |verts|)
  {
    var fs := Lookup(qs, idx).value;
    forall i | 0 <= i < |qs|
      ensures FaceRealizes(sf, qs[i], verts, fs[i]) && FaceInRange(fs[i], |verts|)
    {
      assert qs[i] in qs;
      ResolveRealizes(sf, verts, idx, qs[i]);
    }
  }

  /**
   * dual_contour_3d over the box `b`, with its second loop's z running over
   * [zlo, zhi): None when a face needs a cell without a vertex (the source's
   * KeyError), otherwise the mesh of the vertices in loop order and the
   * faces of Quads3d, in order, over them.
   */
  method DualContour3dOver(sf: Surface, b: Box3, zlo: int, zhi: int) returns (r: Option<Mesh>)
    ensures r.Some? <==> Covered(sf, b, Quads3d(sf.f, b, zlo, zhi))
    ensures r.Some? ==> (fresh(r.value) && r.value.verts == Verts3d(sf, b) && r.value.WellIndexed() &&
      Realizes(sf, Quads3d(sf.f, b, zlo, zhi), r.value.verts, r.value.faces))
  {
    var verts, idx := VertexPass3d(sf, b);
    var faces := StitchPass3d(sf.f, b, zlo, zhi, idx);
    LookupCovered(sf, b, idx, Quads3d(sf.f, b, zlo, zhi));
    if faces.None? {
      return None;
    }
    LookupRealizes(sf, verts, idx, Quads3d(sf.f, b, zlo, zhi));
    var mesh := new Mesh(verts, faces.value);
    r := Some(mesh);
  }

  /**
   * dual_contour_3d as written: the second loop's z runs over [ymin, ymax).
   * It agrees with the intended function when the box's y and z ranges
   * coincide (as with the default bounds), and can fail otherwise.
   */
  method DualContour3dAsWritten(sf: Surface, b: Box3) returns (r: Option<Mesh>)
    ensures r.Some? <==> Covered(sf, b, Quads3d(sf.f, b, b.ymin, b.ymax))
    ensures b.ymin == b.zmin && b.ymax == b.zmax ==> r.Some?
    ensures r.Some? ==> (fresh(r.value) && r.value.verts == Verts3d(sf, b) && r.value.WellIndexed() &&
      Realizes(sf, Quads3d(sf.f, b, b.ymin, b.ymax), r.value.verts, r.value.faces))
  {
    Quads3dCovered(sf, b);
    r := DualContour3dOver(sf, b, b.ymin, b.ymax);
  }

  /**
   * dual_contour_3d with the second loop's z over [zmin, zmax): it always
   * produces a mesh, with one face per sign-changing edge of the box's
   * interior grid points, each joining the vertices of the four cells
   * around that edge and facing out of the solid (Quads3dDual).
   */
  method DualContour3dCorrected(sf: Surface, b: Box3) returns (m: Mesh)
    ensures fresh(m) && m.verts == Verts3d(sf, b) && m.WellIndexed()
    ensures Realizes(sf, Quads3d(sf.f, b, b.zmin, b.zmax), m.verts, m.faces)
  {
    Quads3dCovered(sf, b);
    var r := DualContour3dOver(sf, b, b.zmin, b.zmax);
    m := r.value;
  }
}
