/**
 * The case table of the marching-cubes generator (marching_cubes_gen.py):
 * the hand-written base and inverse cases, the insertion-ordered dictionary
 * that merges them, the brute-force loop over every combination of
 * symmetries that fills `cases`, and the property its test1 checks.
 */
module MarchingCubesCases {
  import opened Wrappers
  import opened CubeBits
  import opened MarchingCubesGen

  /** A triangulation: faces, each a list of cube-edge indices. */
  type Faces = seq<seq<int>>

  // ---------------------------------------------------------------------
  // Insertion-ordered dictionaries
  // ---------------------------------------------------------------------

  /** The position of key k in an insertion-ordered dictionary, if present. */
  function KeyIndex<V>(d: seq<(int, V)>, k: int): (r: Option<nat>)
    ensures r.Some? ==> r.value < |d| && d[r.value].0 == k
    ensures r.None? <==> forall i :: 0 <= i < |d| ==> d[i].0 != k
  {
    if d == [] then None
    else if d[0].0 == k then Some(0)
    else match KeyIndex(d[1..], k)
      case None => None
      case Some(i) => Some(i + 1)
  }

  /** The value stored under k. */
  function Lookup<V>(d: seq<(int, V)>, k: int): Option<V> {
    match KeyIndex(d, k)
    case None => None
    case Some(i) => Some(d[i].1)
  }

  /** Storing v under k: an existing key keeps its place, a new key goes at the end. */
  function Put<V>(d: seq<(int, V)>, k: int, v: V): (r: seq<(int, V)>)
    ensures Lookup(r, k) == Some(v)
    ensures forall k' :: k' != k ==> Lookup(r, k') == Lookup(d, k')
    ensures |r| == if KeyIndex(d, k).Some? then |d| else |d| + 1
    ensures forall i :: 0 <= i < |d| ==> r[i].0 == d[i].0
    ensures KeyIndex(d, k).None? ==> r == d + [(k, v)]
  {
    match KeyIndex(d, k)
    case Some(i) =>
      var r := d[i := (k, v)];
      assert forall k' :: k' != k ==> KeyIndex(r, k') == KeyIndex(d, k') by {
        forall k' | k' != k ensures KeyIndex(r, k') == KeyIndex(d, k') {
          KeysAgree(d, r, k');
        }
      }
      assert KeyIndex(r, k) == Some(i) by {
        KeysAgree(d, r, k);
      }
      r
    case None =>
      var r := d + [(k, v)];
      assert forall k' :: k' != k ==> KeyIndex(r, k') == KeyIndex(d, k') by {
        forall k' | k' != k ensures KeyIndex(r, k') == KeyIndex(d, k') {
          KeysPrefix(d, r, k');
        }
      }
      assert KeyIndex(r, k) == Some(|d|) by {
        KeysPrefix(d, r, k);
      }
      r
  }

  /** Two dictionaries with the same keys in the same places find each key at the same place. */
  lemma {:induction false} KeysAgree<V>(d: seq<(int, V)>, e: seq<(int, V)>, k: int)
    requires |d| == |e| && forall i :: 0 <= i < |d| ==> d[i].0 == e[i].0
    ensures KeyIndex(d, k) == KeyIndex(e, k)
  {
    if d != [] {
      KeysAgree(d[1..], e[1..], k);
    }
  }

  /** A dictionary that extends another finds each of its keys at the same place. */
  lemma {:induction false} KeysPrefix<V>(d: seq<(int, V)>, e: seq<(int, V)>, k: int)
    requires |d| <= |e| && forall i :: 0 <= i < |d| ==> d[i].0 == e[i].0
    ensures KeyIndex(d, k).Some? ==> KeyIndex(e, k) == KeyIndex(d, k)
    ensures KeyIndex(d, k).None? && |e| == |d| + 1 && e[|d|].0 == k ==> KeyIndex(e, k) == Some(|d|)
  {
    if d != [] {
      KeysPrefix(d[1..], e[1..], k);
    }
  }

  /** The dictionary after storing every item in turn. */
  function PutAll<V>(d: seq<(int, V)>, items: seq<(int, V)>): seq<(int, V)> {
    if items == [] then d else Put(PutAll(d, items[..|items| - 1]), items[|items| - 1].0, items[|items| - 1].1)
  }

  /** ALL_CASES: a copy of the base cases updated with every inverse case in turn. */
  method MergeCases<V>(base: seq<(int, V)>, extra: seq<(int, V)>) returns (all: seq<(int, V)>)
    ensures all == PutAll(base, extra)
  {
    all := base;
    for i := 0 to |extra|
      invariant all == PutAll(base, extra[..i])
    {
      assert extra[..i + 1][..i] == extra[..i];
      all := Put(all, extra[i].0, extra[i].1);
    }
    assert extra[..|extra|] == extra;
  }

  predicate KeysDistinct<V>(d: seq<(int, V)>) {
    forall i, j :: 0 <= i < j < |d| ==> d[i].0 != d[j].0
  }

  /** Storing items whose keys are new and distinct appends them in order. */
  lemma {:induction false} PutAllFresh<V>(d: seq<(int, V)>, items: seq<(int, V)>)
    requires KeysDistinct(items)
    requires forall i, j :: 0 <= i < |d| && 0 <= j < |items| ==> d[i].0 != items[j].0
    ensures PutAll(d, items) == d + items
  {
    if items != [] {
      var init, last := items[..|items| - 1], items[|items| - 1];
      PutAllFresh(d, init);
      assert KeyIndex(d + init, last.0).None? by {
        forall i | 0 <= i < |d + init| ensures (d + init)[i].0 != last.0 {
          if i >= |d| {
            assert (d + init)[i] == items[i - |d|];
          }
        }
      }
      assert d + init + [last] == d + items;
    }
  }

  // ---------------------------------------------------------------------
  // The hand-written cases
  // ---------------------------------------------------------------------

  /** BASE_CASES: the fifteen base configurations, keyed by the bitmask of solid corners. */
  const BaseCases: seq<(int, Faces)> := [
    (0, []),
    (1, [[8, 0, 3]]),
    (3, [[8, 1, 3], [8, 9, 1]]),
    (5, [[8, 0, 3], [1, 10, 2]]),
    (65, [[8, 0, 3], [10, 5, 6]]),
    (50, [[8, 7, 0], [0, 7, 1], [1, 7, 5]]),
    (67, [[8, 1, 3], [8, 9, 1], [10, 5, 6]]),
    (74, [[3, 2, 11], [0, 9, 1], [10, 5, 6]]),
    (51, [[7, 5, 3], [3, 5, 1]]),
    (177, [[11, 6, 3], [3, 6, 0], [0, 6, 5], [0, 5, 9]]),
    (105, [[11, 8, 2], [2, 8, 0], [6, 10, 4], [4, 10, 9]]),
    (113, [[3, 7, 0], [0, 7, 10], [7, 6, 10], [0, 10, 9]]),
    (58, [[3, 2, 11], [8, 7, 0], [0, 7, 1], [1, 7, 5]]),
    (165, [[8, 0, 3], [4, 5, 9], [10, 2, 1], [11, 6, 7]]),
    (178, [[8, 11, 0], [0, 11, 5], [5, 11, 6], [0, 5, 1]])
  ]

  /** INVERSE_CASES: inversions of three base cases with the ambiguous faces split the other way. */
  const InverseCases: seq<(int, Faces)> := [
    (255 - 5, [[3, 2, 8], [8, 2, 10], [8, 10, 1], [8, 1, 0]]),
    (255 - 67, [[6, 8, 3], [6, 9, 8], [6, 5, 9], [6, 3, 1], [6, 1, 10]]),
    (255 - 74, [[3, 11, 0], [0, 11, 6], [0, 6, 9], [9, 6, 5], [1, 10, 2]])
  ]

  /** ALL_CASES in its iteration order. */
  const AllCases: seq<(int, Faces)> := BaseCases + InverseCases

  /** Merging the inverse cases into the base cases appends them: no inverse key is a base key. */
  lemma AllCasesMerged()
    ensures PutAll(BaseCases, InverseCases) == AllCases
    ensures |AllCases| == 18
  {
    PutAllFresh(BaseCases, InverseCases);
  }

  // ---------------------------------------------------------------------
  // The property test1 checks
  // ---------------------------------------------------------------------

  /** Exactly one corner of edge e is solid in the pattern `bits`. */
  predicate Straddles(bits: int, e: int)
    requires 0 <= e < 12
  {
    Bit(bits, Edges[e].0) != Bit(bits, Edges[e].1)
  }

  /** Straddles is test1's check: exactly one end of the edge is among bits_to_verts(bits). */
  lemma StraddlesIsTest1(bits: int, e: int)
    requires 0 <= e < 12
    ensures Straddles(bits, e) <==> (Edges[e].0 in BitsToVerts(bits)) != (Edges[e].1 in BitsToVerts(bits))
  {
    EdgesAreCubeEdges();
  }

  /** test1 for one entry: every face lists edges, each between a solid and an empty corner. */
  predicate Test1Holds(bits: int, faces: Faces) {
    FacesOnEdges(faces) &&
    forall i, k :: 0 <= i < |faces| && 0 <= k < |faces[i]| ==> Straddles(bits, faces[i][k])
  }

  /** The same check, written recursively so that it can be evaluated on the tables. */
  predicate FaceStraddles(bits: int, face: seq<int>) {
    face == [] ||
    (0 <= face[0] < 12 && Straddles(bits, face[0]) && FaceStraddles(bits, face[1..]))
  }

  predicate FacesStraddle(bits: int, faces: Faces) {
    faces == [] || (FaceStraddles(bits, faces[0]) && FacesStraddle(bits, faces[1..]))
  }

  lemma {:induction false} FaceStraddlesAll(bits: int, face: seq<int>)
    requires FaceStraddles(bits, face)
    ensures OnEdges(face) && forall k :: 0 <= k < |face| ==> Straddles(bits, face[k])
  {
    if face != [] {
      EdgesAreCubeEdges();
      FaceStraddlesAll(bits, face[1..]);
      assert forall k :: 1 <= k < |face| ==> face[k] == face[1..][k - 1];
    }
  }

  lemma {:induction false} FacesStraddleAll(bits: int, faces: Faces)
    requires FacesStraddle(bits, faces)
    ensures Test1Holds(bits, faces)
  {
    if faces != [] {
      FaceStraddlesAll(bits, faces[0]);
      FacesStraddleAll(bits, faces[1..]);
      assert forall i :: 1 <= i < |faces| ==> faces[i] == faces[1..][i - 1];
    }
  }

  /** Every hand-written case is an 8-bit pattern whose faces pass test1. */
  lemma AllCasesHold()
    ensures forall j :: 0 <= j < |AllCases| ==> 0 <= AllCases[j].0 < 256 && Test1Holds(AllCases[j].0, AllCases[j].1)
  {
    forall j | 0 <= j < |AllCases| ensures 0 <= AllCases[j].0 < 256 && Test1Holds(AllCases[j].0, AllCases[j].1) {
      CaseHolds(j);
    }
  }

  lemma CaseHolds(j: int)
    requires 0 <= j < 18
    ensures 0 <= AllCases[j].0 < 256 && Test1Holds(AllCases[j].0, AllCases[j].1)
  {
    var c := AllCases[j];
    assert AllCases == [
      (0, []),
      (1, [[8, 0, 3]]),
      (3, [[8, 1, 3], [8, 9, 1]]),
      (5, [[8, 0, 3], [1, 10, 2]]),
      (65, [[8, 0, 3], [10, 5, 6]]),
      (50, [[8, 7, 0], [0, 7, 1], [1, 7, 5]]),
      (67, [[8, 1, 3], [8, 9, 1], [10, 5, 6]]),
      (74, [[3, 2, 11], [0, 9, 1], [10, 5, 6]]),
      (51, [[7, 5, 3], [3, 5, 1]]),
      (177, [[11, 6, 3], [3, 6, 0], [0, 6, 5], [0, 5, 9]]),
      (105, [[11, 8, 2], [2, 8, 0], [6, 10, 4], [4, 10, 9]]),
      (113, [[3, 7, 0], [0, 7, 10], [7, 6, 10], [0, 10, 9]]),
      (58, [[3, 2, 11], [8, 7, 0], [0, 7, 1], [1, 7, 5]]),
      (165, [[8, 0, 3], [4, 5, 9], [10, 2, 1], [11, 6, 7]]),
      (178, [[8, 11, 0], [0, 11, 5], [5, 11, 6], [0, 5, 1]]),
      (250, [[3, 2, 8], [8, 2, 10], [8, 10, 1], [8, 1, 0]]),
      (188, [[6, 8, 3], [6, 9, 8], [6, 5, 9], [6, 3, 1], [6, 1, 10]]),
      (181, [[3, 11, 0], [0, 11, 6], [0, 6, 9], [9, 6, 5], [1, 10, 2]])
    ];
    if j == 0 {
      Case0();
    } else if j == 1 {
      Case1();
    } else if j == 2 {
      Case3();
    } else if j == 3 {
      Case5();
    } else if j == 4 {
      Case65();
    } else if j == 5 {
      Case50();
    } else if j == 6 {
      Case67();
    } else if j == 7 {
      Case74();
    } else if j == 8 {
      Case51();
    } else if j == 9 {
      Case177();
    } else if j == 10 {
      Case105();
    } else if j == 11 {
      Case113();
    } else if j == 12 {
      Case58();
    } else if j == 13 {
      Case165();
    } else if j == 14 {
      Case178();
    } else if j == 15 {
      Case250();
    } else if j == 16 {
      Case188();
    } else {
      Case181();
    }
    FacesStraddleAll(c.0, c.1);
  }

  lemma Case0()
    ensures FacesStraddle(0, [])
  {
  }

  lemma Case1()
    ensures FacesStraddle(1, [[8, 0, 3]])
  {
  }

  lemma Case3()
    ensures FacesStraddle(3, [[8, 1, 3], [8, 9, 1]])
  {
  }

  lemma Case5()
    ensures FacesStraddle(5, [[8, 0, 3], [1, 10, 2]])
  {
  }

  lemma Case65()
    ensures FacesStraddle(65, [[8, 0, 3], [10, 5, 6]])
  {
  }

  lemma Case50()
    ensures FacesStraddle(50, [[8, 7, 0], [0, 7, 1], [1, 7, 5]])
  {
  }

  lemma Case67()
    ensures FacesStraddle(67, [[8, 1, 3], [8, 9, 1], [10, 5, 6]])
  {
  }

  lemma Case74()
    ensures FacesStraddle(74, [[3, 2, 11], [0, 9, 1], [10, 5, 6]])
  {
  }

  lemma Case51()
    ensures FacesStraddle(51, [[7, 5, 3], [3, 5, 1]])
  {
  }

  lemma Case177()
    ensures FacesStraddle(177, [[11, 6, 3], [3, 6, 0], [0, 6, 5], [0, 5, 9]])
  {
  }

  lemma Case105()
    ensures FacesStraddle(105, [[11, 8, 2], [2, 8, 0], [6, 10, 4], [4, 10, 9]])
  {
  }

  lemma Case113()
    ensures FacesStraddle(113, [[3, 7, 0], [0, 7, 10], [7, 6, 10], [0, 10, 9]])
  {
  }

  lemma Case58()
    ensures FacesStraddle(58, [[3, 2, 11], [8, 7, 0], [0, 7, 1], [1, 7, 5]])
  {
  }

  lemma Case165()
    ensures FacesStraddle(165, [[8, 0, 3], [4, 5, 9], [10, 2, 1], [11, 6, 7]])
  {
  }

  lemma Case178()
    ensures FacesStraddle(178, [[8, 11, 0], [0, 11, 5], [5, 11, 6], [0, 5, 1]])
  {
  }

  lemma Case250()
    ensures FacesStraddle(250, [[3, 2, 8], [8, 2, 10], [8, 10, 1], [8, 1, 0]])
  {
  }

  lemma Case188()
    ensures FacesStraddle(188, [[6, 8, 3], [6, 9, 8], [6, 5, 9], [6, 3, 1], [6, 1, 10]])
  {
  }

  lemma Case181()
    ensures FacesStraddle(181, [[3, 11, 0], [0, 11, 6], [0, 6, 9], [9, 6, 5], [1, 10, 2]])
  {
  }

  // ---------------------------------------------------------------------
  // Symmetries applied to a case
  // ---------------------------------------------------------------------

  /** The pattern a case turns into under op, complemented within eight bits when inverting. */
  function NewBits(op: seq<int>, bits: int, invert: bool): (r: int)
    requires IsOp(op)
  {
    var nb := BitsApply(op, bits);
    if invert then 255 - nb else nb
  }

  /** Under a permutation, corner op[v] is solid in the new pattern exactly when v was solid in the old one, or empty when inverting. */
  lemma NewBitsMoves(op: seq<int>, bits: int, invert: bool, v: int)
    requires IsPerm(op) && 0 <= v < 8
    ensures 0 <= NewBits(op, bits, invert) < 256
    ensures Bit(NewBits(op, bits, invert), op[v]) <==> (Bit(bits, v) != invert)
  {
    BitsApplyImage(op, bits);
    BitsApplyMoves(op, bits, v);
    if invert {
      assert Pow2(8) == 256;
      ComplementBits(BitsApply(op, bits), 8, op[v]);
    }
  }

  /** Corners a and b differ in `bits`; the pair they are sent to differs in the new pattern. */
  lemma CornersImage(op: seq<int>, bits: int, invert: bool, a: int, b: int, c: int, d: int)
    requires IsPerm(op) && 0 <= a < 8 && 0 <= b < 8
    requires Bit(bits, a) != Bit(bits, b)
    requires {c, d} == {op[a], op[b]}
    ensures Bit(NewBits(op, bits, invert), c) != Bit(NewBits(op, bits, invert), d)
  {
    NewBitsMoves(op, bits, invert, a);
    NewBitsMoves(op, bits, invert, b);
    PairEquality(c, d, op[a], op[b]);
  }

  /** An edge between a solid and an empty corner is sent to such an edge of the new pattern. */
  lemma StraddleImage(op: seq<int>, bits: int, invert: bool, e: int)
    requires IsPerm(op) && 0 <= e < 12 && EdgeApply(op, e).Some?
    requires Straddles(bits, e)
    ensures Straddles(NewBits(op, bits, invert), EdgeApply(op, e).value)
  {
    var e' := EdgeApply(op, e).value;
    var a, b := EdgeEnds(e);
    var c, d := EdgeEnds(e');
    assert EdgeKey(e') == {c, d};
    CornersImage(op, bits, invert, a, b, c, d);
  }

  /** A symmetry of the cube can be applied to any faces: faces_apply raises no KeyError. */
  lemma FacesDefined(op: seq<int>, faces: Faces, flip: bool)
    requires IsOp(op) && PreservesEdges(op) && FacesOnEdges(faces)
    ensures FacesApply(op, faces, flip).Some?
  {
    forall i | 0 <= i < |faces| ensures FaceApply(op, faces[i], flip).Some? {
      FaceApplyDefined(op, faces[i], flip);
    }
  }

  /** One face: every edge of face_apply's result straddles the surface of the new pattern. */
  lemma FaceImage(op: seq<int>, bits: int, invert: bool, flip: bool, face: seq<int>, k: int)
    requires IsPerm(op) && OnEdges(face) && FaceApply(op, face, flip).Some?
    requires forall k :: 0 <= k < |face| ==> Straddles(bits, face[k])
    requires 0 <= k < |face|
    ensures Straddles(NewBits(op, bits, invert), FaceApply(op, face, flip).value[k])
  {
    var k' := if flip then |face| - 1 - k else k;
    assert Some(FaceApply(op, face, flip).value[k]) == EdgeApply(op, face[k']);
    StraddleImage(op, bits, invert, face[k']);
  }

  /**
   * test1 survives a permutation: when every edge of the faces straddles
   * the surface of `bits` and faces_apply succeeds, every edge of its
   * result straddles the surface of the new pattern.
   */
  lemma FacesImage(op: seq<int>, bits: int, invert: bool, flip: bool, faces: Faces)
    requires IsPerm(op) && Test1Holds(bits, faces)
    requires FacesApply(op, faces, flip).Some?
    ensures Test1Holds(NewBits(op, bits, invert), FacesApply(op, faces, flip).value)
  {
    var nf := FacesApply(op, faces, flip).value;
    forall i, k | 0 <= i < |nf| && 0 <= k < |nf[i]| ensures Straddles(NewBits(op, bits, invert), nf[i][k]) {
      assert nf[i] == FaceApply(op, faces[i], flip).value;
      FaceImage(op, bits, invert, flip, faces[i], k);
    }
  }

  // ---------------------------------------------------------------------
  // The brute-force loop
  // ---------------------------------------------------------------------

  /** The round of the nested loops at which these loop variables are reached. */
  function Round(invert: bool, r1: nat, r2: nat, r3: nat, refl: nat): int {
    ((((if invert then 1 else 0) * 4 + r1) * 4 + r2) * 4 + r3) * 2 + refl
  }

  /** The loop variables of the round after c: refl turns fastest, invert slowest. */
  function Next(c: (bool, nat, nat, nat, nat)): (bool, nat, nat, nat, nat) {
    if c.4 < 1 then (c.0, c.1, c.2, c.3, c.4 + 1)
    else if c.3 < 3 then (c.0, c.1, c.2, c.3 + 1, 0)
    else if c.2 < 3 then (c.0, c.1, c.2 + 1, 0, 0)
    else if c.1 < 3 then (c.0, c.1 + 1, 0, 0, 0)
    else (true, 0, 0, 0, 0)
  }

  /** The loop variables (invert, r1, r2, r3, refl) of round i of the five nested loops. */
  function Combo(i: int): (c: (bool, nat, nat, nat, nat))
    requires 0 <= i < 256
    ensures c.1 < 4 && c.2 < 4 && c.3 < 4 && c.4 < 2
  {
    if i == 0 then (false, 0, 0, 0, 0) else Next(Combo(i - 1))
  }

  /** Round i has round number i: Combo walks the loop variables in the order of the nested loops. */
  lemma {:induction false} ComboRound(i: int)
    requires 0 <= i < 256
    ensures var c := Combo(i); Round(c.0, c.1, c.2, c.3, c.4) == i
  {
    if i > 0 {
      ComboRound(i - 1);
      var c := Combo(i - 1);
      assert !c.0 || c.1 < 3 || c.2 < 3 || c.3 < 3 || c.4 < 1;
    }
  }

  /** Loop variables in range have distinct round numbers. */
  lemma RoundInjective(c: (bool, nat, nat, nat, nat), d: (bool, nat, nat, nat, nat))
    requires c.1 < 4 && c.2 < 4 && c.3 < 4 && c.4 < 2
    requires d.1 < 4 && d.2 < 4 && d.3 < 4 && d.4 < 2
    requires Round(c.0, c.1, c.2, c.3, c.4) == Round(d.0, d.1, d.2, d.3, d.4)
    ensures c == d
  {
    assert c.4 == d.4;
    assert c.3 == d.3;
    assert c.2 == d.2;
    assert c.1 == d.1;
  }

  /** Every combination of loop variables is reached, at its own round. */
  lemma RoundCombo(invert: bool, r1: nat, r2: nat, r3: nat, refl: nat)
    requires r1 < 4 && r2 < 4 && r3 < 4 && refl < 2
    ensures 0 <= Round(invert, r1, r2, r3, refl) < 256
    ensures Combo(Round(invert, r1, r2, r3, refl)) == (invert, r1, r2, r3, refl)
  {
    var i := Round(invert, r1, r2, r3, refl);
    ComboRound(i);
    RoundInjective(Combo(i), (invert, r1, r2, r3, refl));
  }

  /** The operation of one round: compose(pow(ROTATE_1, r1), pow(ROTATE_2, r2), pow(ROTATE_3, r3), pow(REFLECT, refl)). */
  function RoundOp(r1: nat, r2: nat, r3: nat, refl: nat): (op: seq<int>)
    ensures IsOp(op)
  {
    assert IsOp(Rotate1) && IsOp(Rotate2) && IsOp(Rotate3) && IsOp(Reflect);
    Compose([Pow(Rotate1, r1), Pow(Rotate2, r2), Pow(Rotate3, r3), Pow(Reflect, refl)])
  }

  /** Every round's operation is a symmetry of the cube: a permutation of the corners that keeps edges edges. */
  lemma RoundOpSymmetry(r1: nat, r2: nat, r3: nat, refl: nat)
    ensures IsPerm(RoundOp(r1, r2, r3, refl)) && PreservesEdges(RoundOp(r1, r2, r3, refl))
  {
    Rotate1Order();
    Rotate2Order();
    Rotate3Order();
    ReflectOrder();
    Rotate1Symmetry();
    Rotate2Symmetry();
    Rotate3Symmetry();
    ReflectSymmetry();
    PowSymmetry(Rotate1, r1);
    PowSymmetry(Rotate2, r2);
    PowSymmetry(Rotate3, r3);
    PowSymmetry(Reflect, refl);
    var ops := [Pow(Rotate1, r1), Pow(Rotate2, r2), Pow(Rotate3, r3), Pow(Reflect, refl)];
    assert AllPerms(ops) && forall i :: 0 <= i < |ops| ==> PreservesEdges(ops[i]) by {
      forall i | 0 <= i < |ops| ensures IsPerm(ops[i]) && PreservesEdges(ops[i]) {
        if i == 0 {
          assert ops[i] == Pow(Rotate1, r1);
        } else if i == 1 {
          assert ops[i] == Pow(Rotate2, r2);
        } else if i == 2 {
          assert ops[i] == Pow(Rotate3, r3);
        } else {
          assert ops[i] == Pow(Reflect, refl);
        }
      }
    }
    ComposePerm(ops);
    ComposePreservesEdges(ops);
  }

  /** A case table the loop can walk: 18 entries whose faces list edge indices. */
  predicate CaseTable(all: seq<(int, Faces)>) {
    |all| == 18 && forall j :: 0 <= j < 18 ==> FacesOnEdges(all[j].1)
  }

  /** A case table whose every entry passes test1. */
  predicate Test1Table(all: seq<(int, Faces)>) {
    |all| == 18 && forall j :: 0 <= j < 18 ==> Test1Holds(all[j].0, all[j].1)
  }

  /** Both REFLECT and invert flip the faces. */
  function RoundFlip(c: (bool, nat, nat, nat, nat)): bool {
    c.0 != (c.4 == 1)
  }

  /**
   * What trying one entry of the table with operation `op` offers: its
   * new_bits, and its new_faces, or nothing where faces_apply raises a
   * KeyError.
   */
  function OfferBy(entry: (int, Faces), op: seq<int>, invert: bool, flip: bool): (int, Option<Faces>)
    requires IsOp(op) && FacesOnEdges(entry.1)
  {
    (NewBits(op, entry.0, invert), FacesApply(op, entry.1, flip))
  }

  /** The offers of the entries of the table with operation `op`, in order. */
  function OpItems(all: seq<(int, Faces)>, op: seq<int>, invert: bool, flip: bool): (r: seq<(int, Option<Faces>)>)
    requires CaseTable(all) && IsOp(op)
    ensures |r| == 18
  {
    seq(18, j requires 0 <= j < 18 => OfferBy(all[j], op, invert, flip))
  }

  /** What the round with loop variables c offers for one entry of the table. */
  function Offer(entry: (int, Faces), c: (bool, nat, nat, nat, nat)): (int, Option<Faces>)
    requires FacesOnEdges(entry.1)
  {
    OfferBy(entry, RoundOp(c.1, c.2, c.3, c.4), c.0, RoundFlip(c))
  }

  /** The offers of one round, entry by entry of the table. */
  function RoundItems(all: seq<(int, Faces)>, c: (bool, nat, nat, nat, nat)): (r: seq<(int, Option<Faces>)>)
    requires CaseTable(all)
    ensures |r| == 18
  {
    OpItems(all, RoundOp(c.1, c.2, c.3, c.4), c.0, RoundFlip(c))
  }

  /** The offers of all 256 rounds, round by round. */
  function Rounds(all: seq<(int, Faces)>): (r: seq<seq<(int, Option<Faces>)>>)
    requires CaseTable(all)
    ensures |r| == 256 && forall i :: 0 <= i < 256 ==> |r[i]| == 18
    ensures forall i, j :: 0 <= i < 256 && 0 <= j < 18 ==> r[i][j] == Offer(all[j], Combo(i))
  {
    seq(256, i requires 0 <= i < 256 => RoundItems(all, Combo(i)))
  }

  /** The blocks one after the other. */
  function Flatten<T>(blocks: seq<seq<T>>): seq<T> {
    if blocks == [] then [] else Flatten(blocks[..|blocks| - 1]) + blocks[|blocks| - 1]
  }

  lemma FlattenSnoc<T>(blocks: seq<seq<T>>, b: seq<T>)
    ensures Flatten(blocks + [b]) == Flatten(blocks) + b
  {
    assert (blocks + [b])[..|blocks|] == blocks;
  }

  /** In blocks of 18, position 18 * i + j holds entry j of block i, and every position is one of those. */
  lemma {:induction false} FlattenAt<T>(blocks: seq<seq<T>>, m: int) returns (i: int, j: int)
    requires forall i :: 0 <= i < |blocks| ==> |blocks[i]| == 18
    requires 0 <= m < 18 * |blocks|
    ensures |Flatten(blocks)| == 18 * |blocks|
    ensures 0 <= i < |blocks| && 0 <= j < 18 && m == 18 * i + j
    ensures Flatten(blocks)[m] == blocks[i][j]
  {
    var init := blocks[..|blocks| - 1];
    FlattenLength(init);
    if m < 18 * |init| {
      i, j := FlattenAt(init, m);
    } else {
      i, j := |init|, m - 18 * |init|;
    }
  }

  lemma {:induction false} FlattenLength<T>(blocks: seq<seq<T>>)
    requires forall i :: 0 <= i < |blocks| ==> |blocks[i]| == 18
    ensures |Flatten(blocks)| == 18 * |blocks|
  {
    if blocks != [] {
      FlattenLength(blocks[..|blocks| - 1]);
    }
  }

  /** Entry j of block i sits at position 18 * i + j. */
  lemma {:induction false} FlattenIndex<T>(blocks: seq<seq<T>>, i: int, j: int)
    requires forall i :: 0 <= i < |blocks| ==> |blocks[i]| == 18
    requires 0 <= i < |blocks| && 0 <= j < 18
    ensures |Flatten(blocks)| == 18 * |blocks|
    ensures Flatten(blocks)[18 * i + j] == blocks[i][j]
  {
    var i', j' := FlattenAt(blocks, 18 * i + j);
  }

  /** A pair a round offers over a table that passes test1 has faces, an 8-bit pattern, and passes test1. */
  lemma OfferTest1(entry: (int, Faces), c: (bool, nat, nat, nat, nat))
    requires Test1Holds(entry.0, entry.1)
    ensures var item := Offer(entry, c);
      item.1.Some? && 0 <= item.0 < 256 && Test1Holds(item.0, item.1.value)
  {
    var op := RoundOp(c.1, c.2, c.3, c.4);
    RoundOpSymmetry(c.1, c.2, c.3, c.4);
    NewBitsMoves(op, entry.0, c.0, 0);
    FacesDefined(op, entry.1, RoundFlip(c));
    FacesImage(op, entry.0, c.0, RoundFlip(c), entry.1);
  }

  // ---------------------------------------------------------------------
  // First writer wins
  // ---------------------------------------------------------------------

  /**
   * The dictionary after offering each (pattern, faces) in turn: a pattern
   * not yet present is stored with its faces, one already present is left
   * alone. Nothing stands for the KeyError of a face that could not be
   * mapped, which only matters for a pattern not yet present.
   */
  function Fill<V>(items: seq<(int, Option<V>)>): Option<seq<(int, V)>> {
    if items == [] then Some([])
    else
      match Fill(items[..|items| - 1])
      case None => None
      case Some(cases) =>
        var (k, f) := items[|items| - 1];
        if KeyIndex(cases, k).Some? then Some(cases)
        else
          match f
          case None => None
          case Some(faces) => Some(Put(cases, k, faces))
  }

  /** One offer to the dictionary `cases`: kept if its pattern is present, stored if not, nothing on a KeyError. */
  function Offered<V>(cases: seq<(int, V)>, k: int, f: Option<V>): Option<seq<(int, V)>> {
    if KeyIndex(cases, k).Some? then Some(cases)
    else if f.None? then None
    else Some(Put(cases, k, f.value))
  }

  /** One more offer. */
  lemma FillSnoc<V>(items: seq<(int, Option<V>)>, k: int, f: Option<V>)
    ensures Fill(items + [(k, f)]) == if Fill(items).None? then None else Offered(Fill(items).value, k, f)
  {
    assert (items + [(k, f)])[..|items|] == items;
  }

  /**
   * With every offered faces present, filling succeeds, stores each pattern
   * once, and stores only offered pairs.
   */
  lemma {:induction false} FillEntries<V>(items: seq<(int, Option<V>)>)
    requires forall i :: 0 <= i < |items| ==> items[i].1.Some?
    ensures Fill(items).Some? && KeysDistinct(Fill(items).value)
    ensures forall n :: 0 <= n < |Fill(items).value| ==>
      exists i :: 0 <= i < |items| && items[i] == (Fill(items).value[n].0, Some(Fill(items).value[n].1))
  {
    if items != [] {
      var init, last := items[..|items| - 1], items[|items| - 1];
      FillEntries(init);
      SplitLast(items);
      FillSnoc(init, last.0, last.1);
      var cases := Fill(init).value;
      forall n | 0 <= n < |Fill(items).value|
        ensures exists i :: 0 <= i < |items| && items[i] == (Fill(items).value[n].0, Some(Fill(items).value[n].1))
      {
        if n < |cases| && Fill(items).value[n] == cases[n] {
          var i :| 0 <= i < |init| && init[i] == (cases[n].0, Some(cases[n].1));
          assert items[i] == init[i];
        } else {
          assert items[|items| - 1] == (Fill(items).value[n].0, Some(Fill(items).value[n].1));
        }
      }
    }
  }

  /** A pattern is stored exactly when it was offered. */
  lemma {:induction false} FillKeys<V>(items: seq<(int, Option<V>)>, k: int)
    requires Fill(items).Some?
    ensures KeyIndex(Fill(items).value, k).Some? <==> exists i :: 0 <= i < |items| && items[i].0 == k
  {
    if items != [] {
      var init, last := items[..|items| - 1], items[|items| - 1];
      FillKeys(init, k);
      var cases := Fill(init).value;
      assert Fill(items) == Offered(cases, last.0, last.1);
      if KeyIndex(cases, last.0).None? {
        KeysPrefix(cases, Fill(items).value, k);
      }
      if KeyIndex(Fill(items).value, k).Some? {
        if KeyIndex(cases, k).Some? {
          var i :| 0 <= i < |init| && init[i].0 == k;
          assert items[i].0 == k;
        } else {
          assert items[|items| - 1].0 == k;
        }
      } else {
        forall i | 0 <= i < |items| ensures items[i].0 != k {
          if i < |init| {
            assert items[i] == init[i];
          }
        }
      }
    }
  }

  /** The faces stored for a pattern are those of its first offer, never replaced by later ones. */
  lemma {:induction false} FillFirst<V>(items: seq<(int, Option<V>)>, i: int)
    requires Fill(items).Some? && 0 <= i < |items|
    requires forall j :: 0 <= j < i ==> items[j].0 != items[i].0
    ensures Lookup(Fill(items).value, items[i].0) == items[i].1
  {
    var init, last := items[..|items| - 1], items[|items| - 1];
    FillSnoc(init, last.0, last.1);
    SplitLast(items);
    var cases := Fill(init).value;
    if i == |items| - 1 {
      FillKeys(init, last.0);
      assert forall j :: 0 <= j < |init| ==> init[j] == items[j];
    } else {
      assert items[i] == init[i];
      FillFirst(init, i);
      FillKeys(init, items[i].0);
      assert KeyIndex(cases, items[i].0).Some?;
    }
  }

  // ---------------------------------------------------------------------
  // The generated table
  // ---------------------------------------------------------------------

  /** `cases` once the loop has run over the table `all`; nothing on a KeyError. */
  function Gen(all: seq<(int, Faces)>): Option<seq<(int, Faces)>>
    requires CaseTable(all)
  {
    Fill(Flatten(Rounds(all)))
  }

  /** ALL_CASES is a table the loop can walk, and passes test1. */
  lemma AllCasesTable()
    ensures CaseTable(AllCases) && Test1Table(AllCases)
  {
    AllCasesHold();
    AllCasesMerged();
  }

  /** Over a table that passes test1, no entry raises a KeyError in any round. */
  lemma RoundDefined(all: seq<(int, Faces)>, c: (bool, nat, nat, nat, nat))
    requires Test1Table(all)
    ensures CaseTable(all)
    ensures forall j :: 0 <= j < 18 ==> FacesApply(RoundOp(c.1, c.2, c.3, c.4), all[j].1, RoundFlip(c)).Some?
  {
    forall j | 0 <= j < 18 ensures FacesApply(RoundOp(c.1, c.2, c.3, c.4), all[j].1, RoundFlip(c)).Some? {
      assert Test1Holds(all[j].0, all[j].1);
      OfferTest1(all[j], c);
    }
  }

  /**
   * The body of the innermost loop: the image of entry j under `op`
   * (complemented when inverting) is stored with its faces unless that
   * pattern is stored already.
   */
  method TryEntry(op: seq<int>, invert: bool, flip: bool, bits: int, faces: Faces,
                  cases0: seq<(int, Faces)>) returns (cases: seq<(int, Faces)>)
    requires IsOp(op) && FacesOnEdges(faces) && FacesApply(op, faces, flip).Some?
    ensures Offered(cases0, NewBits(op, bits, invert), FacesApply(op, faces, flip)) == Some(cases)
  {
    var newBits := BitsApply(op, bits);
    if invert {
      newBits := 255 - newBits;
    }
    cases := cases0;
    if KeyIndex(cases, newBits).None? {
      var newFaces := FacesApply(op, faces, flip);
      cases := Put(cases, newBits, newFaces.value);
    }
  }

  /** Entry j of a round's offers. */
  lemma OpItemsAt(all: seq<(int, Faces)>, op: seq<int>, invert: bool, flip: bool, j: int)
    requires CaseTable(all) && IsOp(op) && 0 <= j < 18
    ensures OpItems(all, op, invert, flip)[j] == (NewBits(op, all[j].0, invert), FacesApply(op, all[j].1, flip))
  {
  }

  /** One round of the brute-force loop: every entry of the table in turn. */
  method ApplyRound(all: seq<(int, Faces)>, op: seq<int>, invert: bool, flip: bool,
                    cases0: seq<(int, Faces)>, ghost done: seq<(int, Option<Faces>)>) returns (cases: seq<(int, Faces)>)
    requires CaseTable(all) && IsOp(op) && Fill(done) == Some(cases0)
    requires forall j :: 0 <= j < 18 ==> FacesApply(op, all[j].1, flip).Some?
    ensures Fill(done + OpItems(all, op, invert, flip)) == Some(cases)
  {
    ghost var round := OpItems(all, op, invert, flip);
    cases := cases0;
    FillPrefix(done, round, 0, cases);
    for j := 0 to 18
      invariant Fill(done + round[..j]) == Some(cases)
    {
      var (bits, faces) := all[j];
      var next := TryEntry(op, invert, flip, bits, faces, cases);
      OpItemsAt(all, op, invert, flip, j);
      FillStep(done, round, j, cases, next);
      cases := next;
    }
    FillPrefix(done, round, 18, cases);
  }

  /** The whole of a sequence is its longest prefix, and its empty prefix adds nothing. */
  lemma FillPrefix<V>(done: seq<(int, Option<V>)>, s: seq<(int, Option<V>)>, j: int, cases: seq<(int, V)>)
    requires j == 0 || j == |s|
    ensures j == 0 ==> (Fill(done + s[..j]) == Some(cases) <==> Fill(done) == Some(cases))
    ensures j == |s| ==> (Fill(done + s[..j]) == Some(cases) <==> Fill(done + s) == Some(cases))
  {
    if j == 0 {
      assert done + s[..j] == done;
    } else {
      assert s[..j] == s;
    }
  }

  /** Offering the next element of s extends the filled prefix by one. */
  lemma FillStep<V>(done: seq<(int, Option<V>)>, s: seq<(int, Option<V>)>, j: int, cases: seq<(int, V)>, next: seq<(int, V)>)
    requires 0 <= j < |s| && Fill(done + s[..j]) == Some(cases)
    requires Offered(cases, s[j].0, s[j].1) == Some(next)
    ensures Fill(done + s[..j + 1]) == Some(next)
  {
    FillSnoc(done + s[..j], s[j].0, s[j].1);
    PrefixStep(done, s, j);
  }

  /** A non-empty sequence is its front followed by its last element. */
  lemma SplitLast<T>(s: seq<T>)
    requires s != []
    ensures s == s[..|s| - 1] + [s[|s| - 1]]
  {
  }

  /** Extending a prefix by the next element. */
  lemma PrefixStep<T>(done: seq<T>, s: seq<T>, j: int)
    requires 0 <= j < |s|
    ensures (done + s[..j]) + [s[j]] == done + s[..j + 1]
  {
    assert s[..j + 1] == s[..j] + [s[j]];
  }

  /** After the first i rounds of the walk over `all`, the dictionary is `cases`. */
  ghost predicate Walked(all: seq<(int, Faces)>, i: int, cases: seq<(int, Faces)>)
    requires CaseTable(all)
  {
    0 <= i <= 256 && Fill(Flatten(Rounds(all)[..i])) == Some(cases)
  }

  /** Running the round with loop variables (invert, r1, r2, r3, refl) after round i - 1 completes round i. */
  lemma WalkStep(all: seq<(int, Faces)>, invert: bool, r1: nat, r2: nat, r3: nat, refl: nat, cases: seq<(int, Faces)>)
    requires CaseTable(all) && r1 < 4 && r2 < 4 && r3 < 4 && refl < 2
    requires 0 <= Round(invert, r1, r2, r3, refl) < 256
    requires Fill(Flatten(Rounds(all)[..Round(invert, r1, r2, r3, refl)]) + RoundItems(all, (invert, r1, r2, r3, refl))) == Some(cases)
    ensures Walked(all, Round(invert, r1, r2, r3, refl) + 1, cases)
  {
    var i := Round(invert, r1, r2, r3, refl);
    RoundCombo(invert, r1, r2, r3, refl);
    assert Rounds(all)[i] == RoundItems(all, (invert, r1, r2, r3, refl));
    FlattenStep(Rounds(all), i);
  }

  lemma FlattenStep<T>(blocks: seq<seq<T>>, i: int)
    requires 0 <= i < |blocks|
    ensures Flatten(blocks[..i + 1]) == Flatten(blocks[..i]) + blocks[i]
  {
    assert blocks[..i + 1] == blocks[..i] + [blocks[i]];
    FlattenSnoc(blocks[..i], blocks[i]);
  }

  /**
   * The brute-force loop over a table: invert outermost, then r1, r2, r3,
   * refl innermost, each round trying every entry of the table.
   */
  method GenerateFrom(all: seq<(int, Faces)>) returns (cases: seq<(int, Faces)>)
    requires Test1Table(all) && CaseTable(all)
    ensures Gen(all) == Some(cases)
  {
    cases := [];
    assert Walked(all, 0, cases) by {
      assert Rounds(all)[..0] == [];
    }
    for i := 0 to 256
      invariant Walked(all, i, cases)
    {
      var (invert, r1, r2, r3, refl) := Combo(i);
      ComboRound(i);
      var op := RoundOp(r1, r2, r3, refl);
      var flip := invert != (refl == 1);
      RoundDefined(all, (invert, r1, r2, r3, refl));
      cases := ApplyRound(all, op, invert, flip, cases, Flatten(Rounds(all)[..i]));
      WalkStep(all, invert, r1, r2, r3, refl, cases);
    }
    assert Rounds(all)[..256] == Rounds(all);
  }

  /** The loop that fills `cases` from ALL_CASES. */
  method Generate() returns (cases: seq<(int, Faces)>)
    ensures CaseTable(AllCases) && Gen(AllCases) == Some(cases)
  {
    var all := MergeCases(BaseCases, InverseCases);
    AllCasesMerged();
    AllCasesTable();
    cases := GenerateFrom(all);
  }

  /** Every pair offered over a table that passes test1 has faces, an 8-bit pattern, and passes test1. */
  lemma ItemsTest1(all: seq<(int, Faces)>)
    requires Test1Table(all)
    ensures CaseTable(all)
    ensures forall m :: 0 <= m < |Flatten(Rounds(all))| ==> (Flatten(Rounds(all))[m].1.Some? &&
      0 <= Flatten(Rounds(all))[m].0 < 256 && Test1Holds(Flatten(Rounds(all))[m].0, Flatten(Rounds(all))[m].1.value))
  {
    var rounds := Rounds(all);
    FlattenLength(rounds);
    forall m | 0 <= m < |Flatten(rounds)|
      ensures Flatten(rounds)[m].1.Some? && 0 <= Flatten(rounds)[m].0 < 256 && Test1Holds(Flatten(rounds)[m].0, Flatten(rounds)[m].1.value)
    {
      var i, j := FlattenAt(rounds, m);
      assert Test1Holds(all[j].0, all[j].1);
      OfferTest1(all[j], Combo(i));
    }
  }

  /** Filling from offers that all have faces, 8-bit patterns and pass test1 keeps all three. */
  lemma FillTest1(items: seq<(int, Option<Faces>)>)
    requires forall m :: 0 <= m < |items| ==> items[m].1.Some? && 0 <= items[m].0 < 256 && Test1Holds(items[m].0, items[m].1.value)
    ensures Fill(items).Some? && KeysDistinct(Fill(items).value)
    ensures forall n :: 0 <= n < |Fill(items).value| ==>
      0 <= Fill(items).value[n].0 < 256 && Test1Holds(Fill(items).value[n].0, Fill(items).value[n].1)
  {
    FillEntries(items);
    forall n | 0 <= n < |Fill(items).value|
      ensures 0 <= Fill(items).value[n].0 < 256 && Test1Holds(Fill(items).value[n].0, Fill(items).value[n].1)
    {
      var m :| 0 <= m < |items| && items[m] == (Fill(items).value[n].0, Some(Fill(items).value[n].1));
    }
  }

  /**
   * Over a table whose entries pass test1, the loop runs to the end
   * without a KeyError, stores each pattern once, and every entry it
   * stores is an 8-bit pattern whose faces pass test1.
   */
  lemma GenTest1(all: seq<(int, Faces)>)
    requires Test1Table(all)
    ensures CaseTable(all) && Gen(all).Some? && KeysDistinct(Gen(all).value)
    ensures forall n :: 0 <= n < |Gen(all).value| ==>
      0 <= Gen(all).value[n].0 < 256 && Test1Holds(Gen(all).value[n].0, Gen(all).value[n].1)
  {
    ItemsTest1(all);
    FillTest1(Flatten(Rounds(all)));
  }

  /** Filling from blocks of 18 offers stores a pattern exactly when some block offers it. */
  lemma FillBlocksKeys(blocks: seq<seq<(int, Option<Faces>)>>, k: int)
    requires forall i :: 0 <= i < |blocks| ==> |blocks[i]| == 18
    requires Fill(Flatten(blocks)).Some?
    ensures KeyIndex(Fill(Flatten(blocks)).value, k).Some? <==>
      exists i, j :: 0 <= i < |blocks| && 0 <= j < 18 && blocks[i][j].0 == k
  {
    var items := Flatten(blocks);
    FlattenLength(blocks);
    FillKeys(items, k);
    if exists m :: 0 <= m < |items| && items[m].0 == k {
      var m :| 0 <= m < |items| && items[m].0 == k;
      var i, j := FlattenAt(blocks, m);
    }
    if exists i, j :: 0 <= i < |blocks| && 0 <= j < 18 && blocks[i][j].0 == k {
      var i, j :| 0 <= i < |blocks| && 0 <= j < 18 && blocks[i][j].0 == k;
      FlattenIndex(blocks, i, j);
    }
  }

  /** Filling from blocks of 18 offers keeps the first offer of each pattern, in block order then entry order. */
  lemma FillBlocksFirst(blocks: seq<seq<(int, Option<Faces>)>>, i: int, j: int)
    requires forall i :: 0 <= i < |blocks| ==> |blocks[i]| == 18
    requires Fill(Flatten(blocks)).Some? && 0 <= i < |blocks| && 0 <= j < 18
    requires forall i', j' :: 0 <= i' < |blocks| && 0 <= j' < 18 && (i' < i || (i' == i && j' < j)) ==>
      blocks[i'][j'].0 != blocks[i][j].0
    ensures Lookup(Fill(Flatten(blocks)).value, blocks[i][j].0) == blocks[i][j].1
  {
    var items := Flatten(blocks);
    FlattenIndex(blocks, i, j);
    forall m | 0 <= m < 18 * i + j
      ensures items[m].0 != items[18 * i + j].0
    {
      var i', j' := FlattenAt(blocks, m);
    }
    FillFirst(items, 18 * i + j);
  }

  /** A pattern is in the generated table exactly when some round offered it for some entry. */
  lemma GenKeys(all: seq<(int, Faces)>, k: int)
    requires Test1Table(all)
    ensures CaseTable(all) && Gen(all).Some?
    ensures KeyIndex(Gen(all).value, k).Some? <==>
      exists i, j :: 0 <= i < 256 && 0 <= j < 18 && Rounds(all)[i][j].0 == k
  {
    GenTest1(all);
    FillBlocksKeys(Rounds(all), k);
  }

  /**
   * First writer wins: the faces stored for a pattern are those of the
   * first (round, entry) in loop order that produced it; later ones never
   * replace them.
   */
  lemma GenFirstWriter(all: seq<(int, Faces)>, i: int, j: int)
    requires Test1Table(all) && 0 <= i < 256 && 0 <= j < 18
    requires forall i', j' :: 0 <= i' < 256 && 0 <= j' < 18 && (i' < i || (i' == i && j' < j)) ==>
      Offer(all[j'], Combo(i')).0 != Offer(all[j], Combo(i)).0
    ensures CaseTable(all) && Gen(all).Some?
    ensures Lookup(Gen(all).value, Offer(all[j], Combo(i)).0) == Offer(all[j], Combo(i)).1
  {
    GenTest1(all);
    var rounds := Rounds(all);
    assert rounds[i][j] == Offer(all[j], Combo(i));
    forall i', j' | 0 <= i' < 256 && 0 <= j' < 18 && (i' < i || (i' == i && j' < j))
      ensures rounds[i'][j'].0 != rounds[i][j].0
    {
      assert rounds[i'][j'] == Offer(all[j'], Combo(i'));
    }
    FillBlocksFirst(rounds, i, j);
  }

  // ---------------------------------------------------------------------
  // The hand-written cases survive
  // ---------------------------------------------------------------------

  /** The first round has no rotation, no reflection and no inversion: its operation is the identity. */
  lemma FirstRoundIdentity()
    ensures Combo(0) == (false, 0, 0, 0, 0) && RoundOp(0, 0, 0, 0) == Identity
  {
    var ops := [Pow(Rotate1, 0), Pow(Rotate2, 0), Pow(Rotate3, 0), Pow(Reflect, 0)];
    assert IsOp(Rotate1) && IsOp(Rotate2) && IsOp(Rotate3) && IsOp(Reflect);
    PowIterates(Rotate1, 0);
    PowIterates(Rotate2, 0);
    PowIterates(Rotate3, 0);
    PowIterates(Reflect, 0);
    assert ops == [Identity, Identity, Identity, Identity];
    forall v | 0 <= v < 8 ensures RoundOp(0, 0, 0, 0)[v] == Identity[v] {
      IdentitiesFix(ops, v);
    }
  }

  /** Applying identities in turn leaves every corner where it is. */
  lemma {:induction false} IdentitiesFix(ops: seq<seq<int>>, v: int)
    requires forall i :: 0 <= i < |ops| ==> ops[i] == Identity
    requires 0 <= v < 8
    ensures AllOps(ops) && ApplyAll(ops, v) == v
  {
    assert IsOp(Identity);
    if ops != [] {
      IdentitiesFix(ops[1..], v);
    }
  }

  /** With the identity, faces_apply without flipping keeps the faces. */
  lemma FacesApplyIdentity(faces: Faces)
    requires FacesOnEdges(faces)
    ensures FacesApply(Identity, faces, false) == Some(faces)
  {
    forall i | 0 <= i < |faces| ensures FaceApply(Identity, faces[i], false) == Some(faces[i]) {
      FaceApplyIdentity(faces[i], false);
    }
    var r := FacesApply(Identity, faces, false);
    assert r.value == faces by {
      forall i | 0 <= i < |faces| ensures r.value[i] == faces[i] {
        assert r.value[i] == FaceApply(Identity, faces[i], false).value;
      }
    }
  }

  /** The first round offers every entry of the table unchanged. */
  lemma FirstRoundKeeps(entry: (int, Faces))
    requires FacesOnEdges(entry.1) && 0 <= entry.0 < 256
    ensures Offer(entry, Combo(0)) == (entry.0, Some(entry.1))
  {
    FirstRoundIdentity();
    BitsApplyIdentity(entry.0);
    FacesApplyIdentity(entry.1);
  }

  /**
   * Over a table with distinct 8-bit patterns whose entries pass test1,
   * the generated table stores every entry's faces unchanged: round 0
   * offers each entry as it is, before anything else with its pattern.
   */
  lemma GenKeepsTable(all: seq<(int, Faces)>, j: int)
    requires Test1Table(all) && KeysDistinct(all) && 0 <= j < 18
    requires forall j :: 0 <= j < 18 ==> 0 <= all[j].0 < 256
    ensures CaseTable(all) && Gen(all).Some?
    ensures Lookup(Gen(all).value, all[j].0) == Some(all[j].1)
  {
    assert CaseTable(all);
    forall j' | 0 <= j' < 18 ensures Offer(all[j'], Combo(0)) == (all[j'].0, Some(all[j'].1)) {
      assert Test1Holds(all[j'].0, all[j'].1);
      FirstRoundKeeps(all[j']);
    }
    GenFirstWriter(all, 0, j);
  }

  /** The patterns of ALL_CASES, in order. */
  const AllKeys: seq<int> := [0, 1, 3, 5, 65, 50, 67, 74, 51, 177, 105, 113, 58, 165, 178, 250, 188, 181]

  /** The patterns of BASE_CASES and INVERSE_CASES are those of AllKeys. */
  lemma TableKeys(j: int)
    requires 0 <= j < 18
    ensures AllCases[j].0 == AllKeys[j]
  {
    if j < 15 {
      var keys := seq(15, j requires 0 <= j < 15 => BaseCases[j].0);
      assert keys == AllKeys[..15];
      assert AllCases[j] == BaseCases[j];
      assert BaseCases[j].0 == keys[j];
    } else {
      assert AllCases[j] == InverseCases[j - 15];
    }
  }

  /** No pattern is listed twice. */
  lemma AllKeysDistinct()
    ensures forall i, j :: 0 <= i < j < 18 ==> AllKeys[i] != AllKeys[j]
  {
  }

  /** ALL_CASES lists eighteen distinct 8-bit patterns. */
  lemma AllCasesKeys()
    ensures |AllCases| == 18 && KeysDistinct(AllCases)
    ensures forall j :: 0 <= j < 18 ==> 0 <= AllCases[j].0 < 256
  {
    AllKeysDistinct();
    forall j | 0 <= j < 18 ensures AllCases[j].0 == AllKeys[j] {
      TableKeys(j);
    }
  }

  /** Every entry of ALL_CASES appears unchanged in the generated table. */
  lemma HandWrittenKept(j: int)
    requires 0 <= j < 18
    ensures CaseTable(AllCases) && Gen(AllCases).Some?
    ensures Lookup(Gen(AllCases).value, AllCases[j].0) == Some(AllCases[j].1)
  {
    AllCasesTable();
    AllCasesKeys();
    GenKeepsTable(AllCases, j);
  }
}
