/**
 * The generator of the 3D marching-cubes case table (marching_cubes_gen.py).
 * Starting from a short list of hand-written cases it applies every
 * combination of cube rotations, a reflection and solid/empty inversion,
 * and keeps the first triangulation found for each of the 256 corner
 * patterns. A corner pattern is a bitmask (module `CubeBits`); a face is a
 * list of cube-edge indices; a vertex permutation is a list of eight corner
 * indices.
 */
module MarchingCubesGen {
  import opened Wrappers
  import opened CubeBits

  // ---------------------------------------------------------------------
  // The cube
  // ---------------------------------------------------------------------

  /** VERTICES: corner v of the unit cube. */
  const Vertices: seq<(int, int, int)> :=
    [(0, 0, 0), (1, 0, 0), (1, 1, 0), (0, 1, 0), (0, 0, 1), (1, 0, 1), (1, 1, 1), (0, 1, 1)]

  /** EDGES: the two corners joined by cube edge e. */
  const Edges: seq<(int, int)> :=
    [(0, 1), (1, 2), (2, 3), (3, 0), (4, 5), (5, 6), (6, 7), (7, 4), (0, 4), (1, 5), (2, 6), (3, 7)]

  /** The number of coordinates in which two corners differ. */
  function CornerDistance(a: (int, int, int), b: (int, int, int)): (r: nat)
    ensures r <= 3
    ensures r == 0 <==> a == b
  {
    (if a.0 != b.0 then 1 else 0) + (if a.1 != b.1 then 1 else 0) + (if a.2 != b.2 then 1 else 0)
  }

  /** Every listed edge joins two corners that differ in exactly one coordinate: it is an edge of the cube. */
  lemma EdgesAreCubeEdges()
    ensures |Vertices| == 8 && |Edges| == 12
    ensures forall e :: 0 <= e < 12 ==> 0 <= Edges[e].0 < 8 && 0 <= Edges[e].1 < 8
    ensures forall e :: 0 <= e < 12 ==> CornerDistance(Vertices[Edges[e].0], Vertices[Edges[e].1]) == 1
  {
  }

  /** Both ends of every edge are corners. */
  lemma EdgeCorners()
    ensures forall e :: 0 <= e < 12 ==> 0 <= Edges[e].0 < 8 && 0 <= Edges[e].1 < 8
  {
  }

  /** The corners of edge e as an unordered pair, the key of EDGES_BY_VERTSET. */
  function EdgeKey(e: int): set<int>
    requires 0 <= e < 12
  {
    {Edges[e].0, Edges[e].1}
  }

  /** Two-element sets are equal exactly when they hold the same pair in some order. */
  lemma PairEquality(a: int, b: int, c: int, d: int)
    ensures {a, b} == {c, d} <==> (a == c && b == d) || (a == d && b == c)
  {
    if {a, b} == {c, d} {
      assert a in {c, d} && b in {c, d} && c in {a, b} && d in {a, b};
    }
  }

  /** No two edges join the same pair of corners. */
  lemma EdgeKeysDistinct()
    ensures forall e, e' :: 0 <= e < 12 && 0 <= e' < 12 && EdgeKey(e) == EdgeKey(e') ==> e == e'
  {
    forall e, e' | 0 <= e < 12 && 0 <= e' < 12 && EdgeKey(e) == EdgeKey(e')
      ensures e == e'
    {
      PairEquality(Edges[e].0, Edges[e].1, Edges[e'].0, Edges[e'].1);
    }
  }

  /** The dictionary after the first k passes of the loop that fills EDGES_BY_VERTSET. */
  function VertsetsUpTo(k: nat): (m: map<set<int>, int>)
    requires k <= 12
    ensures forall key :: key in m ==> 0 <= m[key] < k && EdgeKey(m[key]) == key
  {
    if k == 0 then map[] else VertsetsUpTo(k - 1)[EdgeKey(k - 1) := k - 1]
  }

  /** EDGES_BY_VERTSET: each edge's pair of corners mapped back to the edge. */
  function EdgesByVertset(): map<set<int>, int> {
    VertsetsUpTo(|Edges|)
  }

  /** Every pair of corners a cube edge joins finds that edge, and nothing else is a key. */
  lemma {:induction false} VertsetsIndex(k: nat)
    requires k <= 12
    ensures forall e :: 0 <= e < k ==> EdgeKey(e) in VertsetsUpTo(k) && VertsetsUpTo(k)[EdgeKey(e)] == e
  {
    if k > 0 {
      VertsetsIndex(k - 1);
      EdgeKeysDistinct();
    }
  }

  /** EDGES_BY_VERTSET inverts EDGES: keys are exactly the edges' corner pairs, each mapped to its edge. */
  lemma EdgesByVertsetInverts()
    ensures forall e :: 0 <= e < 12 ==> EdgeKey(e) in EdgesByVertset() && EdgesByVertset()[EdgeKey(e)] == e
    ensures forall key :: key in EdgesByVertset() ==> 0 <= EdgesByVertset()[key] < 12 && EdgeKey(EdgesByVertset()[key]) == key
  {
    VertsetsIndex(12);
  }

  /** The loop at the top of the generator that fills EDGES_BY_VERTSET. */
  method BuildEdgesByVertset() returns (m: map<set<int>, int>)
    ensures m == EdgesByVertset()
    ensures forall e :: 0 <= e < 12 ==> EdgeKey(e) in m && m[EdgeKey(e)] == e
  {
    m := map[];
    for e := 0 to 12
      invariant m == VertsetsUpTo(e)
    {
      m := m[EdgeKey(e) := e];
    }
    assert |Edges| == 12;
    EdgesByVertsetInverts();
  }

  /** Corners a and b are joined by a cube edge. */
  predicate Adjacent(a: int, b: int) {
    exists e :: 0 <= e < 12 && EdgeKey(e) == {a, b}
  }

  /** The pairs EDGES_BY_VERTSET knows are exactly the adjacent ones. */
  lemma VertsetAdjacent(a: int, b: int)
    ensures {a, b} in EdgesByVertset() <==> Adjacent(a, b)
  {
    EdgesByVertsetInverts();
    if {a, b} in EdgesByVertset() {
      assert EdgeKey(EdgesByVertset()[{a, b}]) == {a, b};
    }
  }

  /** Adjacent corners are the two ends of some edge, in one order or the other. */
  lemma AdjacentEnds(a: int, b: int) returns (e: int)
    requires Adjacent(a, b)
    ensures 0 <= e < 12
    ensures (Edges[e].0 == a && Edges[e].1 == b) || (Edges[e].0 == b && Edges[e].1 == a)
  {
    e :| 0 <= e < 12 && EdgeKey(e) == {a, b};
    PairEquality(Edges[e].0, Edges[e].1, a, b);
  }

  // ---------------------------------------------------------------------
  // Vertex permutations
  // ---------------------------------------------------------------------

  /** An operation: a list of eight corner indices, corner v going to op[v]. */
  predicate IsOp(op: seq<int>) {
    |op| == 8 && forall v :: 0 <= v < 8 ==> 0 <= op[v] < 8
  }

  predicate IsPerm(op: seq<int>) {
    IsOp(op) && forall v, w :: 0 <= v < w < 8 ==> op[v] != op[w]
  }

  predicate AllOps(ops: seq<seq<int>>) {
    forall i :: 0 <= i < |ops| ==> IsOp(ops[i])
  }

  predicate AllPerms(ops: seq<seq<int>>) {
    forall i :: 0 <= i < |ops| ==> IsPerm(ops[i])
  }

  const Identity: seq<int> := [0, 1, 2, 3, 4, 5, 6, 7]
  const Rotate1: seq<int> := [1, 2, 3, 0, 5, 6, 7, 4]
  const Rotate2: seq<int> := [3, 2, 6, 7, 0, 1, 5, 4]
  const Rotate3: seq<int> := [1, 5, 6, 2, 0, 4, 7, 3]
  const Reflect: seq<int> := [1, 0, 3, 2, 5, 4, 7, 6]

  /** Corner v sent through the operations in order, the first one first. */
  function ApplyAll(ops: seq<seq<int>>, v: int): (r: int)
    requires AllOps(ops) && 0 <= v < 8
    ensures 0 <= r < 8
  {
    if ops == [] then v else ApplyAll(ops[1..], ops[0][v])
  }

  /** compose: the single operation that performs `ops` one after another, the first one first. */
  function Compose(ops: seq<seq<int>>): (r: seq<int>)
    requires AllOps(ops)
    ensures IsOp(r)
    ensures forall v :: 0 <= v < 8 ==> r[v] == ApplyAll(ops, v)
    decreases |ops|
  {
    if |ops| == 0 then Identity
    else if |ops| == 1 then ops[0]
    else if |ops| == 2 then
      var r := seq(8, v requires 0 <= v < 8 => ops[1][ops[0][v]]);
      assert forall v :: 0 <= v < 8 ==> r[v] == ApplyAll(ops, v) by {
        forall v | 0 <= v < 8 ensures r[v] == ApplyAll(ops, v) {
          ApplyPair(ops, v);
        }
      }
      r
    else Compose([ops[0], Compose(ops[1..])])
  }

  lemma ApplyPair(ops: seq<seq<int>>, v: int)
    requires AllOps(ops) && |ops| == 2 && 0 <= v < 8
    ensures ApplyAll(ops, v) == ops[1][ops[0][v]]
  {
    var rest := ops[1..];
    assert rest[0] == ops[1] && rest[1..] == [];
    assert ApplyAll(rest, ops[0][v]) == ApplyAll(rest[1..], ops[1][ops[0][v]]);
  }

  /** Sending two different corners through permutations keeps them different. */
  lemma {:induction false} ApplyAllInjective(ops: seq<seq<int>>, v: int, w: int)
    requires AllOps(ops) && AllPerms(ops)
    requires 0 <= v < 8 && 0 <= w < 8 && v != w
    ensures ApplyAll(ops, v) != ApplyAll(ops, w)
    decreases |ops|
  {
    if ops != [] {
      assert IsPerm(ops[0]);
      assert ops[0][v] != ops[0][w] by {
        if v < w {
          assert ops[0][v] != ops[0][w];
        } else {
          assert ops[0][w] != ops[0][v];
        }
      }
      ApplyAllInjective(ops[1..], ops[0][v], ops[0][w]);
    }
  }

  /** A composition of permutations is a permutation. */
  lemma ComposePerm(ops: seq<seq<int>>)
    requires AllOps(ops) && AllPerms(ops)
    ensures IsPerm(Compose(ops))
  {
    forall v, w | 0 <= v < w < 8 ensures Compose(ops)[v] != Compose(ops)[w] {
      ApplyAllInjective(ops, v, w);
    }
  }

  /** Corner v after n applications of op. */
  function Iterate(op: seq<int>, n: nat, v: int): (r: int)
    requires IsOp(op) && 0 <= v < 8
    ensures 0 <= r < 8
  {
    if n == 0 then v else Iterate(op, n - 1, op[v])
  }

  /** pow: op composed with itself n times. */
  function Pow(op: seq<int>, n: nat): (r: seq<int>)
    requires IsOp(op)
    ensures IsOp(r)
  {
    Compose(seq(n, _ => op))
  }

  lemma {:induction false} ApplyRepeated(op: seq<int>, n: nat, v: int)
    requires IsOp(op) && 0 <= v < 8
    ensures ApplyAll(seq(n, _ => op), v) == Iterate(op, n, v)
  {
    if n > 0 {
      assert seq(n, _ => op)[1..] == seq(n - 1, _ => op);
      ApplyRepeated(op, n - 1, op[v]);
      IterateFirst(op, n - 1, v);
    }
  }

  /** Applying op first and then n - 1 more times is n applications. */
  lemma {:induction false} IterateFirst(op: seq<int>, n: nat, v: int)
    requires IsOp(op) && 0 <= v < 8
    ensures Iterate(op, n, op[v]) == Iterate(op, n + 1, v)
  {
    if n > 0 {
      IterateFirst(op, n - 1, op[v]);
    }
  }

  /** pow(op, n) sends each corner where n applications of op send it. */
  lemma PowIterates(op: seq<int>, n: nat)
    requires IsOp(op)
    ensures forall v :: 0 <= v < 8 ==> Pow(op, n)[v] == Iterate(op, n, v)
    ensures n == 0 ==> Pow(op, n) == Identity
  {
    forall v | 0 <= v < 8 ensures Pow(op, n)[v] == Iterate(op, n, v) {
      ApplyRepeated(op, n, v);
    }
  }

  /** A power of a permutation is a permutation. */
  lemma PowPerm(op: seq<int>, n: nat)
    requires IsPerm(op)
    ensures IsPerm(Pow(op, n))
  {
    ComposePerm(seq(n, _ => op));
  }

  /** op returns every corner to itself after n applications. */
  predicate ReturnsAfter(op: seq<int>, n: nat)
    requires IsOp(op)
  {
    forall v :: 0 <= v < 8 ==> Iterate(op, n, v) == v
  }

  /** Every corner is one of the eight. */
  lemma Corners(v: int)
    requires 0 <= v < 8
    ensures v == 0 || v == 1 || v == 2 || v == 3 || v == 4 || v == 5 || v == 6 || v == 7
  {
  }

  /**
   * The three rotations and the reflection are permutations. Each rotation
   * returns to the identity after four turns and not after two, and the
   * reflection after two, so the loop bounds range(4) and range(2) run
   * through each of them once.
   */
  lemma Rotate1Order()
    ensures IsPerm(Rotate1) && ReturnsAfter(Rotate1, 4) && !ReturnsAfter(Rotate1, 2)
  {
    assert Iterate(Rotate1, 2, 0) == 2;
    assert Iterate(Rotate1, 4, 0) == 0 && Iterate(Rotate1, 4, 1) == 1 && Iterate(Rotate1, 4, 2) == 2 && Iterate(Rotate1, 4, 3) == 3;
    assert Iterate(Rotate1, 4, 4) == 4 && Iterate(Rotate1, 4, 5) == 5 && Iterate(Rotate1, 4, 6) == 6 && Iterate(Rotate1, 4, 7) == 7;
    forall v | 0 <= v < 8 ensures Iterate(Rotate1, 4, v) == v {
      Corners(v);
    }
  }

  lemma Rotate2Order()
    ensures IsPerm(Rotate2) && ReturnsAfter(Rotate2, 4) && !ReturnsAfter(Rotate2, 2)
  {
    assert Iterate(Rotate2, 2, 0) == 7;
    assert Iterate(Rotate2, 4, 0) == 0 && Iterate(Rotate2, 4, 1) == 1 && Iterate(Rotate2, 4, 2) == 2 && Iterate(Rotate2, 4, 3) == 3;
    assert Iterate(Rotate2, 4, 4) == 4 && Iterate(Rotate2, 4, 5) == 5 && Iterate(Rotate2, 4, 6) == 6 && Iterate(Rotate2, 4, 7) == 7;
    forall v | 0 <= v < 8 ensures Iterate(Rotate2, 4, v) == v {
      Corners(v);
    }
  }

  lemma Rotate3Order()
    ensures IsPerm(Rotate3) && ReturnsAfter(Rotate3, 4) && !ReturnsAfter(Rotate3, 2)
  {
    assert Iterate(Rotate3, 2, 0) == 5;
    assert Iterate(Rotate3, 4, 0) == 0 && Iterate(Rotate3, 4, 1) == 1 && Iterate(Rotate3, 4, 2) == 2 && Iterate(Rotate3, 4, 3) == 3;
    assert Iterate(Rotate3, 4, 4) == 4 && Iterate(Rotate3, 4, 5) == 5 && Iterate(Rotate3, 4, 6) == 6 && Iterate(Rotate3, 4, 7) == 7;
    forall v | 0 <= v < 8 ensures Iterate(Rotate3, 4, v) == v {
      Corners(v);
    }
  }

  lemma ReflectOrder()
    ensures IsPerm(Reflect) && ReturnsAfter(Reflect, 2) && !ReturnsAfter(Reflect, 1)
  {
    assert Iterate(Reflect, 1, 0) == 1;
    assert Iterate(Reflect, 2, 0) == 0 && Iterate(Reflect, 2, 1) == 1 && Iterate(Reflect, 2, 2) == 2 && Iterate(Reflect, 2, 3) == 3;
    assert Iterate(Reflect, 2, 4) == 4 && Iterate(Reflect, 2, 5) == 5 && Iterate(Reflect, 2, 6) == 6 && Iterate(Reflect, 2, 7) == 7;
    forall v | 0 <= v < 8 ensures Iterate(Reflect, 2, v) == v {
      Corners(v);
    }
  }

  // ---------------------------------------------------------------------
  // Symmetries of the cube
  // ---------------------------------------------------------------------

  /** op sends the two corners of every edge to the two corners of some edge. */
  predicate PreservesEdges(op: seq<int>)
    requires IsOp(op)
  {
    forall e :: 0 <= e < 12 ==> Adjacent(op[Edges[e].0], op[Edges[e].1])
  }

  /** Every edge index is one of the twelve. */
  lemma EdgeCases(e: int)
    requires 0 <= e < 12
    ensures e == 0 || e == 1 || e == 2 || e == 3 || e == 4 || e == 5 || e == 6 || e == 7 || e == 8 || e == 9 || e == 10 || e == 11
  {
  }

  /** Adjacency does not depend on the order of the corners. */
  lemma AdjacentSymmetric(a: int, b: int)
    requires Adjacent(a, b)
    ensures Adjacent(b, a)
  {
    var e :| 0 <= e < 12 && EdgeKey(e) == {a, b};
    assert {a, b} == {b, a};
  }

  /** An operation that preserves edges sends adjacent corners to adjacent corners. */
  lemma AdjacentImage(op: seq<int>, a: int, b: int)
    requires IsOp(op) && PreservesEdges(op)
    requires 0 <= a < 8 && 0 <= b < 8 && Adjacent(a, b)
    ensures Adjacent(op[a], op[b])
  {
    var e := AdjacentEnds(a, b);
    assert Adjacent(op[Edges[e].0], op[Edges[e].1]);
    if Edges[e].0 != a {
      AdjacentSymmetric(op[Edges[e].0], op[Edges[e].1]);
    }
  }

  /** Each generator sends every edge e onto an edge, edge image[e]. */
  lemma Rotate1Symmetry()
    ensures IsOp(Rotate1) && PreservesEdges(Rotate1)
  {
    var image := [1, 2, 3, 0, 5, 6, 7, 4, 9, 10, 11, 8];
    forall e | 0 <= e < 12 ensures Adjacent(Rotate1[Edges[e].0], Rotate1[Edges[e].1]) {
      EdgeCases(e);
      assert EdgeKey(image[e]) == {Rotate1[Edges[e].0], Rotate1[Edges[e].1]};
    }
  }

  lemma Rotate2Symmetry()
    ensures IsOp(Rotate2) && PreservesEdges(Rotate2)
  {
    var image := [2, 10, 6, 11, 0, 9, 4, 8, 3, 1, 5, 7];
    forall e | 0 <= e < 12 ensures Adjacent(Rotate2[Edges[e].0], Rotate2[Edges[e].1]) {
      EdgeCases(e);
      assert EdgeKey(image[e]) == {Rotate2[Edges[e].0], Rotate2[Edges[e].1]};
    }
  }

  lemma Rotate3Symmetry()
    ensures IsOp(Rotate3) && PreservesEdges(Rotate3)
  {
    var image := [9, 5, 10, 1, 8, 7, 11, 3, 0, 4, 6, 2];
    forall e | 0 <= e < 12 ensures Adjacent(Rotate3[Edges[e].0], Rotate3[Edges[e].1]) {
      EdgeCases(e);
      assert EdgeKey(image[e]) == {Rotate3[Edges[e].0], Rotate3[Edges[e].1]};
    }
  }

  lemma ReflectSymmetry()
    ensures IsOp(Reflect) && PreservesEdges(Reflect)
  {
    var image := [0, 3, 2, 1, 4, 7, 6, 5, 9, 8, 11, 10];
    forall e | 0 <= e < 12 ensures Adjacent(Reflect[Edges[e].0], Reflect[Edges[e].1]) {
      EdgeCases(e);
      assert EdgeKey(image[e]) == {Reflect[Edges[e].0], Reflect[Edges[e].1]};
    }
  }

  /** The two ends of an edge are adjacent corners. */
  lemma EdgeEnds(e: int) returns (a: int, b: int)
    requires 0 <= e < 12
    ensures a == Edges[e].0 && b == Edges[e].1
    ensures 0 <= a < 8 && 0 <= b < 8 && Adjacent(a, b)
  {
    a, b := Edges[e].0, Edges[e].1;
    assert EdgeKey(e) == {a, b};
  }

  /** Sending adjacent corners through edge-preserving operations keeps them adjacent. */
  lemma {:induction false} ApplyAllAdjacent(ops: seq<seq<int>>, a: int, b: int)
    requires AllOps(ops) && forall i :: 0 <= i < |ops| ==> PreservesEdges(ops[i])
    requires 0 <= a < 8 && 0 <= b < 8 && Adjacent(a, b)
    ensures Adjacent(ApplyAll(ops, a), ApplyAll(ops, b))
    decreases |ops|
  {
    if ops != [] {
      AdjacentImage(ops[0], a, b);
      ApplyAllAdjacent(ops[1..], ops[0][a], ops[0][b]);
    }
  }

  /** A composition of edge-preserving operations preserves edges. */
  lemma ComposePreservesEdges(ops: seq<seq<int>>)
    requires AllOps(ops) && forall i :: 0 <= i < |ops| ==> PreservesEdges(ops[i])
    ensures PreservesEdges(Compose(ops))
  {
    ApplyAllPreserves(ops, Compose(ops));
  }

  /** An operation that sends each corner through all of `ops` in turn preserves edges when each of them does. */
  lemma ApplyAllPreserves(ops: seq<seq<int>>, r: seq<int>)
    requires AllOps(ops) && forall i :: 0 <= i < |ops| ==> PreservesEdges(ops[i])
    requires IsOp(r) && forall v :: 0 <= v < 8 ==> r[v] == ApplyAll(ops, v)
    ensures PreservesEdges(r)
  {
    EdgeCorners();
    forall e | 0 <= e < 12 ensures Adjacent(r[Edges[e].0], r[Edges[e].1]) {
      var a, b := EdgeEnds(e);
      ApplyAllAdjacent(ops, a, b);
    }
  }

  /** A power of an edge-preserving permutation is an edge-preserving permutation. */
  lemma PowSymmetry(op: seq<int>, n: nat)
    requires IsPerm(op) && PreservesEdges(op)
    ensures IsPerm(Pow(op, n)) && PreservesEdges(Pow(op, n))
  {
    PowPerm(op, n);
    ComposePreservesEdges(seq(n, _ => op));
  }

  // ---------------------------------------------------------------------
  // Operations on corner patterns, edges and faces
  // ---------------------------------------------------------------------

  /** The corners of `vs`, each sent through op. */
  function MapCorners(op: seq<int>, vs: seq<int>): (r: seq<int>)
    requires IsOp(op) && forall v :: v in vs ==> 0 <= v < 8
    ensures |r| == |vs| && forall i :: 0 <= i < |vs| ==> vs[i] in vs && r[i] == op[vs[i]]
    ensures forall w :: w in r ==> 0 <= w < 8
  {
    var r := seq(|vs|, i requires 0 <= i < |vs| => assert vs[i] in vs; op[vs[i]]);
    assert forall w :: w in r ==> 0 <= w < 8 by {
      forall w | w in r ensures 0 <= w < 8 {
        var i :| 0 <= i < |r| && r[i] == w;
        assert vs[i] in vs;
      }
    }
    r
  }

  /** bits_apply: the corner pattern n with each corner v moved to op[v]. */
  function BitsApply(op: seq<int>, n: int): (r: int)
    requires IsOp(op)
    ensures r >= 0
  {
    VertsToBits(MapCorners(op, BitsToVerts(n)))
  }

  /** The image of a pattern under a permutation: an 8-bit pattern whose corners are the images of n's corners. */
  lemma BitsApplyImage(op: seq<int>, n: int)
    requires IsPerm(op)
    ensures 0 <= BitsApply(op, n) < 256
    ensures forall w: nat :: Bit(BitsApply(op, n), w) <==> exists v :: 0 <= v < 8 && Bit(n, v) && op[v] == w
  {
    var vs := BitsToVerts(n);
    var m := MapCorners(op, vs);
    assert DuplicateFree(m) by {
      forall i, j | 0 <= i < j < |m| ensures m[i] != m[j] {
        assert vs[i] < vs[j] && vs[i] in vs && vs[j] in vs;
      }
    }
    CornersFit(m);
    VertsToBitsBits(m);
    forall w: nat ensures w in m <==> exists v :: 0 <= v < 8 && Bit(n, v) && op[v] == w {
      if w in m {
        var i :| 0 <= i < |m| && m[i] == w;
        assert vs[i] in vs;
      }
      if exists v :: 0 <= v < 8 && Bit(n, v) && op[v] == w {
        var v :| 0 <= v < 8 && Bit(n, v) && op[v] == w;
        assert v in vs;
        var i :| 0 <= i < |vs| && vs[i] == v;
        assert m[i] == w;
      }
    }
  }

  /** Under a permutation, corner op[v] of the new pattern is set exactly when corner v of the old one is. */
  lemma BitsApplyMoves(op: seq<int>, n: int, v: int)
    requires IsPerm(op) && 0 <= v < 8
    ensures Bit(BitsApply(op, n), op[v]) <==> Bit(n, v)
  {
    BitsApplyImage(op, n);
    if Bit(BitsApply(op, n), op[v]) {
      var u :| 0 <= u < 8 && Bit(n, u) && op[u] == op[v];
    }
  }

  /** Two 8-bit patterns with the same corners are the same number. */
  lemma BitsDetermine(x: int, y: int)
    requires 0 <= x < 256 && 0 <= y < 256
    requires forall v: nat :: v < 8 ==> (Bit(x, v) <==> Bit(y, v))
    ensures x == y
  {
    IncreasingUnique(BitsToVerts(x), BitsToVerts(y));
    BitsRoundTrip(x);
    BitsRoundTrip(y);
  }

  /** bits_apply with a permutation that fixes every corner leaves a pattern unchanged. */
  lemma BitsApplyFixed(op: seq<int>, n: int)
    requires IsPerm(op) && forall v :: 0 <= v < 8 ==> op[v] == v
    requires 0 <= n < 256
    ensures BitsApply(op, n) == n
  {
    BitsApplyImage(op, n);
    forall v: nat | v < 8 ensures Bit(BitsApply(op, n), v) <==> Bit(n, v) {
      BitsApplyMoves(op, n, v);
    }
    BitsDetermine(BitsApply(op, n), n);
  }

  /** bits_apply with the identity leaves a pattern unchanged. */
  lemma BitsApplyIdentity(n: int)
    requires 0 <= n < 256
    ensures BitsApply(Identity, n) == n
  {
    assert IsPerm(Identity);
    BitsApplyFixed(Identity, n);
  }

  /** bits_apply of compose(op1, op2) is bits_apply of op1 followed by that of op2. */
  lemma BitsApplyCompose(op1: seq<int>, op2: seq<int>, n: int)
    requires IsPerm(op1) && IsPerm(op2)
    ensures BitsApply(Compose([op1, op2]), n) == BitsApply(op2, BitsApply(op1, n))
  {
    var ops := [op1, op2];
    var c := Compose(ops);
    ComposePerm(ops);
    BitsApplyImage(c, n);
    BitsApplyImage(op1, n);
    BitsApplyImage(op2, BitsApply(op1, n));
    forall v: nat | v < 8 ensures Bit(BitsApply(c, n), v) <==> Bit(BitsApply(op2, BitsApply(op1, n)), v) {
      if Bit(BitsApply(c, n), v) {
        var u :| 0 <= u < 8 && Bit(n, u) && c[u] == v;
        ApplyPair(ops, u);
        assert Bit(BitsApply(op1, n), op1[u]);
      }
      if Bit(BitsApply(op2, BitsApply(op1, n)), v) {
        var w :| 0 <= w < 8 && Bit(BitsApply(op1, n), w) && op2[w] == v;
        var u :| 0 <= u < 8 && Bit(n, u) && op1[u] == w;
        ApplyPair(ops, u);
      }
    }
    BitsDetermine(BitsApply(c, n), BitsApply(op2, BitsApply(op1, n)));
  }

  /** edge_apply: the edge joining the images of edge e's corners, or nothing when they are not adjacent (a KeyError). */
  function EdgeApply(op: seq<int>, e: int): (r: Option<int>)
    requires IsOp(op) && 0 <= e < 12
    ensures r.Some? <==> Adjacent(op[Edges[e].0], op[Edges[e].1])
    ensures r.Some? ==> 0 <= r.value < 12 && EdgeKey(r.value) == {op[Edges[e].0], op[Edges[e].1]}
  {
    var vs := {op[Edges[e].0], op[Edges[e].1]};
    EdgesByVertsetInverts();
    VertsetAdjacent(op[Edges[e].0], op[Edges[e].1]);
    if vs in EdgesByVertset() then Some(EdgesByVertset()[vs]) else None
  }

  /** edge_apply with the identity gives back the same edge. */
  lemma EdgeApplyIdentity(e: int)
    requires 0 <= e < 12
    ensures EdgeApply(Identity, e) == Some(e)
  {
    EdgesAreCubeEdges();
    assert {Identity[Edges[e].0], Identity[Edges[e].1]} == EdgeKey(e);
    EdgeKeysDistinct();
  }

  /** Every entry of a face is an edge index. */
  predicate OnEdges(face: seq<int>) {
    forall k :: 0 <= k < |face| ==> 0 <= face[k] < 12
  }

  function Reverse(s: seq<int>): (r: seq<int>)
    ensures |r| == |s| && forall k :: 0 <= k < |s| ==> r[k] == s[|s| - 1 - k]
  {
    seq(|s|, k requires 0 <= k < |s| => s[|s| - 1 - k])
  }

  /** Each edge of the face sent through edge_apply; nothing when some edge has no image. */
  function ApplyEdges(op: seq<int>, face: seq<int>): (r: Option<seq<int>>)
    requires IsOp(op) && OnEdges(face)
    ensures r.Some? <==> forall k :: 0 <= k < |face| ==> EdgeApply(op, face[k]).Some?
    ensures r.Some? ==> |r.value| == |face| && forall k :: 0 <= k < |face| ==> Some(r.value[k]) == EdgeApply(op, face[k])
  {
    if forall k :: 0 <= k < |face| ==> EdgeApply(op, face[k]).Some? then
      Some(seq(|face|, k requires 0 <= k < |face| => EdgeApply(op, face[k]).value))
    else None
  }

  /** face_apply: the face's edges sent through edge_apply, reversed when `flip`. */
  function FaceApply(op: seq<int>, face: seq<int>, flip: bool): (r: Option<seq<int>>)
    requires IsOp(op) && OnEdges(face)
    ensures r.Some? <==> forall k :: 0 <= k < |face| ==> EdgeApply(op, face[k]).Some?
    ensures r.Some? ==> |r.value| == |face| && OnEdges(r.value)
    ensures r.Some? ==> forall k :: 0 <= k < |face| ==>
      Some(r.value[k]) == EdgeApply(op, face[if flip then |face| - 1 - k else k])
  {
    match ApplyEdges(op, face)
    case None => None
    case Some(edges) =>
      assert OnEdges(edges) by {
        forall k | 0 <= k < |edges| ensures 0 <= edges[k] < 12 {
          assert Some(edges[k]) == EdgeApply(op, face[k]);
        }
      }
      Some(if flip then Reverse(edges) else edges)
  }

  /** A permutation that preserves edges can be applied to any face. */
  lemma FaceApplyDefined(op: seq<int>, face: seq<int>, flip: bool)
    requires IsOp(op) && PreservesEdges(op) && OnEdges(face)
    ensures FaceApply(op, face, flip).Some?
  {
  }

  /** With the identity, face_apply keeps the face, or reverses it when flipping. */
  lemma FaceApplyIdentity(face: seq<int>, flip: bool)
    requires OnEdges(face)
    ensures FaceApply(Identity, face, flip) == Some(if flip then Reverse(face) else face)
  {
    forall k | 0 <= k < |face| ensures EdgeApply(Identity, face[k]) == Some(face[k]) {
      EdgeApplyIdentity(face[k]);
    }
    var edges := ApplyEdges(Identity, face).value;
    assert edges == face by {
      forall k | 0 <= k < |face| ensures edges[k] == face[k] {
        assert Some(edges[k]) == EdgeApply(Identity, face[k]);
      }
    }
  }

  /** Every face lists edge indices. */
  predicate FacesOnEdges(faces: seq<seq<int>>) {
    forall i :: 0 <= i < |faces| ==> OnEdges(faces[i])
  }

  /** faces_apply: face_apply on every face; nothing when any face fails. */
  function FacesApply(op: seq<int>, faces: seq<seq<int>>, flip: bool): (r: Option<seq<seq<int>>>)
    requires IsOp(op) && FacesOnEdges(faces)
    ensures r.Some? <==> forall i :: 0 <= i < |faces| ==> FaceApply(op, faces[i], flip).Some?
    ensures r.Some? ==> |r.value| == |faces| && FacesOnEdges(r.value)
    ensures r.Some? ==> forall i :: 0 <= i < |faces| ==> r.value[i] == FaceApply(op, faces[i], flip).value
  {
    if forall i :: 0 <= i < |faces| ==> FaceApply(op, faces[i], flip).Some? then
      Some(seq(|faces|, i requires 0 <= i < |faces| => FaceApply(op, faces[i], flip).value))
    else None
  }
}
