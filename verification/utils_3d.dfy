/** Containers shared by the 3D meshing methods (utils_3d.py). */
module Utils3d {

  /** A point or offset in 3D space. */
  datatype V3 = V3(x: real, y: real, z: real)

  function Plus(a: V3, b: V3): V3 {
    V3(a.x + b.x, a.y + b.y, a.z + b.z)
  }

  /** A point of the closed unit cube whose lowest corner is (x, y, z). */
  predicate InCell3(p: V3, x: int, y: int, z: int) {
    x as real <= p.x <= x as real + 1.0 && y as real <= p.y <= y as real + 1.0 &&
    z as real <= p.z <= z as real + 1.0
  }

  /** A mesh face: a triangle or a quadrilateral over vertex references. */
  datatype Face<T> = Tri(v1: T, v2: T, v3: T) | Quad(v1: T, v2: T, v3: T, v4: T) {

    /** The references of the face, in order. */
    function Corners(): (r: seq<T>)
      ensures |r| == (if Tri? then 3 else 4)
    {
      match this
      case Tri(a, b, c) => [a, b, c]
      case Quad(a, b, c, d) => [a, b, c, d]
    }

    /** Applies `g` to every reference, keeping the kind and the order. */
    function Map<U>(g: T -> U): (r: Face<U>)
      ensures r.Tri? == Tri?
      ensures |r.Corners()| == |Corners()|
      ensures forall i :: 0 <= i < |Corners()| ==> r.Corners()[i] == g(Corners()[i])
    {
      match this
      case Tri(a, b, c) => Tri(g(a), g(b), g(c))
      case Quad(a, b, c, d) => Quad(g(a), g(b), g(c), g(d))
    }

    /** Reverses the winding of a quadrilateral when `swap` holds. */
    function Swap(swap: bool): (r: Face<T>)
      requires Quad?
      ensures r.Quad?
      ensures swap ==> forall i :: 0 <= i < 4 ==> r.Corners()[i] == Corners()[3 - i]
      ensures !swap ==> r == this
    {
      if swap then Quad(v4, v3, v2, v1) else Quad(v1, v2, v3, v4)
    }
  }

  /** Swapping a quadrilateral twice with the same flag restores it. */
  lemma SwapTwice<T>(q: Face<T>, swap: bool)
    requires q.Quad?
    ensures q.Swap(swap).Swap(swap) == q
  {
  }

  /** Relabelling the references commutes with reversing the winding. */
  lemma SwapMapCommute<T, U>(q: Face<T>, g: T -> U, swap: bool)
    requires q.Quad?
    ensures q.Swap(swap).Map(g) == q.Map(g).Swap(swap)
  {
  }

  /** Every 1-based reference of the face names one of `n` vertices. */
  predicate FaceInRange(f: Face<int>, n: int) {
    forall i :: 0 <= i < |f.Corners()| ==> 1 <= f.Corners()[i] <= n
  }

  predicate FacesInRange(faces: seq<Face<int>>, n: int) {
    forall k :: 0 <= k < |faces| ==> FaceInRange(faces[k], n)
  }

  /** Adds `offset` to every reference of every face. */
  function ShiftFaces(faces: seq<Face<int>>, offset: int): (r: seq<Face<int>>)
    ensures |r| == |faces|
    ensures forall k :: 0 <= k < |faces| ==> r[k] == faces[k].Map(v => v + offset)
  {
    seq(|faces|, k requires 0 <= k < |faces| => faces[k].Map(v => v + offset))
  }

  /** Shifting by nothing changes no face. */
  lemma ShiftNothing(faces: seq<Face<int>>)
    ensures ShiftFaces(faces, 0) == faces
  {
    forall k | 0 <= k < |faces| ensures ShiftFaces(faces, 0)[k] == faces[k] {
      match faces[k]
      case Tri(_, _, _) =>
      case Quad(_, _, _, _) =>
    }
  }

  /** Faces valid for `m` vertices, shifted past `n` earlier ones, are valid for `n + m`. */
  lemma {:induction false} ShiftInRange(faces: seq<Face<int>>, n: nat, m: nat)
    requires FacesInRange(faces, m)
    ensures FacesInRange(ShiftFaces(faces, n), n + m)
  {
    var r := ShiftFaces(faces, n);
    forall k | 0 <= k < |r| ensures FaceInRange(r[k], n + m) {
      assert FaceInRange(faces[k], m);
      forall i | 0 <= i < |r[k].Corners()| ensures 1 <= r[k].Corners()[i] <= n + m {
        assert r[k].Corners()[i] == faces[k].Corners()[i] + n;
      }
    }
  }

  /** A collection of vertices and of faces that refer to them by 1-based index. */
  class Mesh {
    var verts: seq<V3>
    var faces: seq<Face<int>>

    constructor (verts: seq<V3>, faces: seq<Face<int>>)
      ensures this.verts == verts && this.faces == faces
    {
      this.verts := verts;
      this.faces := faces;
    }

    /** Every face refers to a vertex of this mesh. */
    predicate WellIndexed()
      reads this
    {
      FacesInRange(faces, |verts|)
    }

    /**
     * Appends the other mesh's vertices, and its faces re-indexed past this
     * mesh's vertices, to this mesh. Extending a mesh by itself doubles its
     * vertex list; with faces present it would append to the face list while
     * walking it, which never ends, so that case alone is excluded.
     */
    method Extend(other: Mesh)
      requires other == this ==> |faces| == 0
      modifies this
      ensures verts == old(verts) + old(other.verts)
      ensures faces == old(faces) + ShiftFaces(old(other.faces), |old(verts)|)
      ensures |verts| == |old(verts)| + |old(other.verts)| && |faces| == |old(faces)| + |old(other.faces)|
      ensures old(WellIndexed()) && old(other.WellIndexed()) ==> WellIndexed()
    {
      var l := |verts|;
      var otherVerts, otherFaces := other.verts, other.faces;
      verts := verts + otherVerts;
      faces := faces + ShiftFaces(otherFaces, l);
      if old(WellIndexed()) && old(other.WellIndexed()) {
        ShiftInRange(otherFaces, l, |otherVerts|);
      }
    }

    /** A fresh mesh holding this mesh followed by `other`; neither operand changes. */
    method Add(other: Mesh) returns (r: Mesh)
      ensures fresh(r)
      ensures r.verts == verts + other.verts
      ensures r.faces == faces + ShiftFaces(other.faces, |verts|)
      ensures WellIndexed() && other.WellIndexed() ==> r.WellIndexed()
    {
      r := new Mesh([], []);
      r.Extend(this);
      ShiftNothing(faces);
      r.Extend(other);
    }

    /** A fresh mesh with the same faces and every vertex moved by `offset`. */
    method Translate(offset: V3) returns (r: Mesh)
      ensures fresh(r)
      ensures r.faces == faces
      ensures |r.verts| == |verts|
      ensures forall i :: 0 <= i < |verts| ==> r.verts[i] == Plus(verts[i], offset)
    {
      var vs := verts;
      var moved := seq(|vs|, i requires 0 <= i < |vs| => Plus(vs[i], offset));
      r := new Mesh(moved, faces);
    }
  }
}
