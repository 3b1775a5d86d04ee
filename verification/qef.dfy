/**
 * The quadratic error function of a dual-contouring cell and its constrained
 * solve (qef.py). The least-squares solver itself (numpy.linalg.lstsq) is a
 * parameter; everything around it is exact arithmetic over `real`.
 */
module Qef {
  import opened Wrappers
  import opened Settings
  import opened Utils2d
  import opened Utils3d

  // ---------------------------------------------------------------------
  // Matrices, vectors and the foreign solver

  /** A matrix with an explicit column count, as numpy keeps its shape. */
  datatype Matrix = Matrix(cols: nat, rows: seq<seq<real>>)

  predicate WellShaped(m: Matrix) {
    forall i :: 0 <= i < |m.rows| ==> |m.rows[i]| == m.cols
  }

  /** What lstsq reports: a solution and a possibly empty residual array. */
  datatype LstsqResult = LstsqResult(solution: seq<real>, residuals: seq<real>)

  function Zeros(n: nat): (r: seq<real>)
    ensures |r| == n
  {
    seq(n, _ => 0.0)
  }

  /** Any least-squares solver that returns one value per column. */
  type Lstsq = s: (Matrix, seq<real>) -> LstsqResult
    | forall m: Matrix, b: seq<real> :: |s(m, b).solution| == m.cols
    witness (m: Matrix, b: seq<real>) => LstsqResult(Zeros(m.cols), [])

  function Dot(u: seq<real>, v: seq<real>): real
    requires |u| == |v|
  {
    if u == [] then 0.0 else u[0] * v[0] + Dot(u[1..], v[1..])
  }

  function SumSquares(s: seq<real>): (r: real)
    ensures r >= 0.0
  {
    if s == [] then 0.0 else s[0] * s[0] + SumSquares(s[1..])
  }

  /** `s` without its entry at `k`. */
  function DeleteAt<T>(s: seq<T>, k: nat): (r: seq<T>)
    requires k < |s|
    ensures |r| == |s| - 1
  {
    s[..k] + s[k + 1..]
  }

  /** `s` with `v` inserted so that it sits at index `k`. */
  function InsertAt<T>(s: seq<T>, k: nat, v: T): (r: seq<T>)
    requires k <= |s|
    ensures |r| == |s| + 1 && r[k] == v
  {
    s[..k] + [v] + s[k..]
  }

  /** Folding a fixed coordinate into the constant: the dot product splits off column k. */
  lemma {:induction false} DotInsert(row: seq<real>, x: seq<real>, k: nat, v: real)
    requires k < |row| && |x| == |row| - 1
    ensures Dot(DeleteAt(row, k), x) + row[k] * v == Dot(row, InsertAt(x, k, v))
  {
    if k == 0 {
      assert DeleteAt(row, 0) == row[1..];
      assert InsertAt(x, 0, v)[1..] == x;
    } else {
      assert DeleteAt(row, k)[1..] == DeleteAt(row[1..], k - 1);
      assert InsertAt(x, k, v)[1..] == InsertAt(x[1..], k - 1, v);
      DotInsert(row[1..], x[1..], k - 1, v);
    }
  }

  // ---------------------------------------------------------------------
  // The QEF value type

  /**
   * A QEF: the rows of `a` are normals, `b` their plane offsets, and
   * `fixedValues` one slot per axis, `None` while the axis is still free.
   */
  datatype Qef = Qef(a: Matrix, b: seq<real>, fixedValues: seq<Option<real>>)

  /** The number of free axes. */
  function CountUnfixed(f: seq<Option<real>>): (r: nat)
    ensures r <= |f|
  {
    if f == [] then 0 else CountUnfixed(f[..|f| - 1]) + (if f[|f| - 1].None? then 1 else 0)
  }

  /** `a` has one column per free axis and one row per entry of `b`. */
  predicate Valid(q: Qef) {
    WellShaped(q.a) && |q.a.rows| == |q.b| && q.a.cols == CountUnfixed(q.fixedValues)
  }

  /** The per-plane errors `A·x − b` at a point of the free axes. */
  function Residuals(q: Qef, x: seq<real>): (r: seq<real>)
    requires Valid(q) && |x| == q.a.cols
    ensures |r| == |q.b|
  {
    seq(|q.b|, i requires 0 <= i < |q.b| => Dot(q.a.rows[i], x) - q.b[i])
  }

  /** The squared error `‖A·x − b‖²` at a point of the free axes. */
  function Evaluate(q: Qef, x: seq<real>): (r: real)
    requires Valid(q) && |x| == q.a.cols
    ensures r >= 0.0
  {
    SumSquares(Residuals(q, x))
  }

  function Dot2(u: seq<real>, v: seq<real>): real
    requires |u| >= 2 && |v| >= 2
  {
    u[0] * v[0] + u[1] * v[1]
  }

  function Dot3(u: seq<real>, v: seq<real>): real
    requires |u| >= 3 && |v| >= 3
  {
    u[0] * v[0] + u[1] * v[1] + u[2] * v[2]
  }

  /** The QEF of planes through `positions[i]` with normal `normals[i]`, in 2D. */
  function Make2d(positions: seq<seq<real>>, normals: seq<seq<real>>): (q: Qef)
    requires |positions| == |normals| > 0
    requires forall i :: 0 <= i < |normals| ==> |positions[i]| == 2 && |normals[i]| == 2
    ensures Valid(q) && q.a.cols == 2 && q.fixedValues == [None, None]
    ensures q.a.rows == normals && |q.b| == |normals|
    ensures forall i :: 0 <= i < |normals| ==> q.b[i] == Dot2(positions[i], normals[i])
  {
    assert CountUnfixed([None, None]) == 2 by {
      var f: seq<Option<real>> := [None, None];
      assert f[..1] == [None];
    }
    Qef(Matrix(2, normals),
        seq(|normals|, i requires 0 <= i < |normals| => Dot2(positions[i], normals[i])),
        [None, None])
  }

  /** The QEF of planes through `positions[i]` with normal `normals[i]`, in 3D. */
  function Make3d(positions: seq<seq<real>>, normals: seq<seq<real>>): (q: Qef)
    requires |positions| == |normals| > 0
    requires forall i :: 0 <= i < |normals| ==> |positions[i]| == 3 && |normals[i]| == 3
    ensures Valid(q) && q.a.cols == 3 && q.fixedValues == [None, None, None]
    ensures q.a.rows == normals && |q.b| == |normals|
    ensures forall i :: 0 <= i < |normals| ==> q.b[i] == Dot3(positions[i], normals[i])
  {
    assert CountUnfixed([None, None, None]) == 3 by {
      var f: seq<Option<real>> := [None, None, None];
      assert f[..2] == [None, None];
      assert f[..2][..1] == [None];
    }
    Qef(Matrix(3, normals),
        seq(|normals|, i requires 0 <= i < |normals| => Dot3(positions[i], normals[i])),
        [None, None, None])
  }

  /** Each error of a fresh 2D QEF is the signed distance term `n·(x − p)` of its plane. */
  lemma Make2dMeasuresPlanes(positions: seq<seq<real>>, normals: seq<seq<real>>, x: seq<real>, i: nat)
    requires |positions| == |normals| > 0
    requires forall j :: 0 <= j < |normals| ==> |positions[j]| == 2 && |normals[j]| == 2
    requires |x| == 2 && i < |normals|
    ensures Residuals(Make2d(positions, normals), x)[i]
         == normals[i][0] * (x[0] - positions[i][0]) + normals[i][1] * (x[1] - positions[i][1])
  {
    var n := normals[i];
    assert Dot(n[1..][1..], x[1..][1..]) == 0.0;
    assert Dot(n[1..], x[1..]) == n[1] * x[1];
  }

  /** Each error of a fresh 3D QEF is the signed distance term `n·(x − p)` of its plane. */
  lemma Make3dMeasuresPlanes(positions: seq<seq<real>>, normals: seq<seq<real>>, x: seq<real>, i: nat)
    requires |positions| == |normals| > 0
    requires forall j :: 0 <= j < |normals| ==> |positions[j]| == 3 && |normals[j]| == 3
    requires |x| == 3 && i < |normals|
    ensures Residuals(Make3d(positions, normals), x)[i]
         == normals[i][0] * (x[0] - positions[i][0]) + normals[i][1] * (x[1] - positions[i][1])
          + normals[i][2] * (x[2] - positions[i][2])
  {
    var n := normals[i];
    assert Dot(n[1..][1..][1..], x[1..][1..][1..]) == 0.0;
    assert Dot(n[1..][1..], x[1..][1..]) == n[2] * x[2];
    assert Dot(n[1..], x[1..]) == n[1] * x[1] + n[2] * x[2];
  }

  /**
   * A new QEF with axis `axis` pinned to `value`: column `axis` leaves `a`
   * and its contribution moves into `b`. The original is left as it was.
   */
  function FixAxis(q: Qef, axis: nat, value: real): (r: Qef)
    requires Valid(q) && axis < q.a.cols
    ensures r.a.cols == q.a.cols - 1 && |r.b| == |q.b| && |r.a.rows| == |q.a.rows| && WellShaped(r.a)
    ensures |r.fixedValues| == |q.fixedValues| && axis < |r.fixedValues| && r.fixedValues[axis] == Some(value)
    ensures forall k :: 0 <= k < |q.fixedValues| && k != axis ==> r.fixedValues[k] == q.fixedValues[k]
  {
    assert axis < |q.fixedValues| by { assert CountUnfixed(q.fixedValues) <= |q.fixedValues|; }
    Qef(Matrix(q.a.cols - 1, seq(|q.a.rows|, i requires 0 <= i < |q.a.rows| => DeleteAt(q.a.rows[i], axis))),
        seq(|q.b|, i requires 0 <= i < |q.b| => q.b[i] - q.a.rows[i][axis] * value),
        q.fixedValues[axis := Some(value)])
  }

  /**
   * Pinning a free axis yields a well-formed QEF whose errors at every reduced
   * point are the original's errors with `value` inserted at that axis.
   */
  lemma FixAxisKeepsErrors(q: Qef, axis: nat, value: real)
    requires Valid(q) && axis < q.a.cols && axis < |q.fixedValues| && q.fixedValues[axis].None?
    ensures Valid(FixAxis(q, axis, value))
    ensures forall x :: |x| == q.a.cols - 1 ==>
      Residuals(FixAxis(q, axis, value), x) == Residuals(q, InsertAt(x, axis, value))
  {
    var r := FixAxis(q, axis, value);
    CountUnfixedUpdate(q.fixedValues, axis, value);
    forall x | |x| == q.a.cols - 1 ensures Residuals(r, x) == Residuals(q, InsertAt(x, axis, value)) {
      forall i | 0 <= i < |q.b| ensures Residuals(r, x)[i] == Residuals(q, InsertAt(x, axis, value))[i] {
        DotInsert(q.a.rows[i], x, axis, value);
      }
    }
  }

  /** Pinning a free axis frees one axis fewer. */
  lemma {:induction false} CountUnfixedUpdate(f: seq<Option<real>>, k: nat, v: real)
    requires k < |f| && f[k].None?
    ensures CountUnfixed(f[k := Some(v)]) == CountUnfixed(f) - 1
  {
    var g := f[k := Some(v)];
    if k == |f| - 1 {
      assert g[..|g| - 1] == f[..|f| - 1];
    } else {
      assert g[..|g| - 1] == f[..|f| - 1][k := Some(v)];
      CountUnfixedUpdate(f[..|f| - 1], k, v);
    }
  }

  lemma {:induction false} CountUnfixedPrefix(f: seq<Option<real>>, j: nat)
    requires j <= |f|
    ensures CountUnfixed(f[..j]) <= CountUnfixed(f)
    decreases |f| - j
  {
    if j < |f| {
      assert f[..j] == f[..|f| - 1][..j];
      CountUnfixedPrefix(f[..|f| - 1], j);
      assert f[..|f|] == f;
    } else {
      assert f[..j] == f;
    }
  }

  // ---------------------------------------------------------------------
  // Reassembling a full position from a reduced solution

  /** Fixed slots take their value; free slots take the solution's entries in order. */
  function Reassemble(f: seq<Option<real>>, sol: seq<real>): (r: seq<real>)
    requires CountUnfixed(f) <= |sol|
    ensures |r| == |f|
  {
    if f == [] then []
    else
      var init := f[..|f| - 1];
      Reassemble(init, sol) + [if f[|f| - 1].None? then sol[CountUnfixed(init)] else f[|f| - 1].value]
  }

  /** Entry `k` of a reassembled position, stated without recursion. */
  lemma {:induction false} ReassembleAt(f: seq<Option<real>>, sol: seq<real>, k: nat)
    requires CountUnfixed(f) <= |sol| && k < |f|
    ensures CountUnfixed(f[..k]) < CountUnfixed(f) || f[k].Some?
    ensures Reassemble(f, sol)[k] == if f[k].Some? then f[k].value else sol[CountUnfixed(f[..k])]
  {
    var init := f[..|f| - 1];
    if k == |f| - 1 {
      assert f[..k] == init;
    } else {
      assert f[..k] == init[..k];
      ReassembleAt(init, sol, k);
    }
  }

  /** A prefix of free slots counts one free axis per slot. */
  lemma {:induction false} CountUnfixedAllFree(f: seq<Option<real>>)
    requires forall j :: 0 <= j < |f| ==> f[j].None?
    ensures CountUnfixed(f) == |f|
  {
    if f != [] {
      CountUnfixedAllFree(f[..|f| - 1]);
    }
  }

  /** Pinning a slot after the free prefix moves every later free slot down by one. */
  lemma {:induction false} CountUnfixedShift(f: seq<Option<real>>, axis: nat, v: real, k: nat)
    requires axis < k <= |f| && f[axis].None?
    ensures CountUnfixed(f[axis := Some(v)][..k]) == CountUnfixed(f[..k]) - 1
  {
    assert f[axis := Some(v)][..k] == f[..k][axis := Some(v)];
    CountUnfixedUpdate(f[..k], axis, v);
  }

  lemma {:induction false} CountUnfixedGrows(f: seq<Option<real>>, j: nat, k: nat)
    requires j <= k <= |f|
    ensures CountUnfixed(f[..j]) <= CountUnfixed(f[..k])
  {
    assert f[..j] == f[..k][..j];
    CountUnfixedPrefix(f[..k], j);
  }

  /**
   * Pinning an axis whose lower axes are all still free is the same as
   * inserting the pinned value into the reduced solution at that axis.
   */
  lemma ReassembleFix(f: seq<Option<real>>, axis: nat, v: real, x: seq<real>)
    requires axis < |f| && forall j :: 0 <= j <= axis ==> f[j].None?
    requires |x| == CountUnfixed(f) - 1
    ensures CountUnfixed(f[axis := Some(v)]) == |x| && axis <= |x|
    ensures Reassemble(f[axis := Some(v)], x) == Reassemble(f, InsertAt(x, axis, v))
  {
    var g := f[axis := Some(v)];
    CountUnfixedUpdate(f, axis, v);
    CountUnfixedPrefix(f, axis + 1);
    assert CountUnfixed(f[..axis + 1]) == axis + 1 by { CountUnfixedAllFree(f[..axis + 1]); }
    var y := InsertAt(x, axis, v);
    forall k | 0 <= k < |f| ensures Reassemble(g, x)[k] == Reassemble(f, y)[k] {
      ReassembleAt(g, x, k);
      ReassembleAt(f, y, k);
      if k < axis {
        assert g[..k] == f[..k];
        CountUnfixedAllFree(f[..k]);
      } else if k == axis {
        CountUnfixedAllFree(f[..k]);
      } else if f[k].None? {
        CountUnfixedShift(f, axis, v, k);
        CountUnfixedGrows(f, axis + 1, k);
      }
    }
  }

  /**
   * `q` gives, at every reduced point, the errors `base` gives at the
   * reassembled full position: the meaning of "same values, only constrained".
   */
  ghost predicate Represents(q: Qef, base: Qef) {
    Valid(q) && Valid(base) && |q.fixedValues| == base.a.cols &&
    forall x {:trigger Reassemble(q.fixedValues, x)} :: |x| == q.a.cols ==>
      Residuals(q, x) == Residuals(base, Reassemble(q.fixedValues, x))
  }

  lemma {:induction false} ReassembleAllFree(f: seq<Option<real>>, x: seq<real>)
    requires forall j :: 0 <= j < |f| ==> f[j].None?
    requires |x| == |f|
    ensures CountUnfixed(f) == |f| && Reassemble(f, x) == x
  {
    CountUnfixedAllFree(f);
    forall k | 0 <= k < |f| ensures Reassemble(f, x)[k] == x[k] {
      ReassembleAt(f, x, k);
      CountUnfixedAllFree(f[..k]);
    }
  }

  /** A QEF with no pinned axis represents itself. */
  lemma FreshRepresents(q: Qef)
    requires Valid(q) && forall j :: 0 <= j < |q.fixedValues| ==> q.fixedValues[j].None?
    ensures Represents(q, q)
  {
    CountUnfixedAllFree(q.fixedValues);
    forall x | |x| == q.a.cols ensures Reassemble(q.fixedValues, x) == x {
      ReassembleAllFree(q.fixedValues, x);
    }
  }

  /**
   * Pinning an axis below which every axis is still free keeps representing
   * the base QEF; this is why chained fixes pin the higher axis first.
   */
  lemma FixAxisRepresents(q: Qef, base: Qef, axis: nat, value: real)
    requires Represents(q, base) && axis < q.a.cols
    requires axis < |q.fixedValues| && forall j :: 0 <= j <= axis ==> q.fixedValues[j].None?
    ensures Represents(FixAxis(q, axis, value), base)
  {
    var r := FixAxis(q, axis, value);
    FixAxisKeepsErrors(q, axis, value);
    forall x | |x| == r.a.cols
      ensures Residuals(r, x) == Residuals(base, Reassemble(r.fixedValues, x))
    {
      ReassembleFix(q.fixedValues, axis, value, x);
    }
  }

  // ---------------------------------------------------------------------
  // Solving

  /** A solve result: the reported error and the full position. */
  datatype Candidate = Candidate(residual: real, position: seq<real>)

  /** What `solve` returns for `q`: the solver's residual if it reported one, else the evaluated error. */
  function SolveSpec(q: Qef, lstsq: Lstsq): (c: Candidate)
    requires Valid(q)
    ensures |c.position| == |q.fixedValues|
    ensures forall k :: 0 <= k < |q.fixedValues| && q.fixedValues[k].Some? ==> c.position[k] == q.fixedValues[k].value
    ensures c.residual == (var out := lstsq(q.a, q.b);
      if |out.residuals| == 0 then Evaluate(q, out.solution) else out.residuals[0])
  {
    var out := lstsq(q.a, q.b);
    var c := Candidate(if |out.residuals| == 0 then Evaluate(q, out.solution) else out.residuals[0],
                       Reassemble(q.fixedValues, out.solution));
    forall k | 0 <= k < |q.fixedValues| && q.fixedValues[k].Some? ensures c.position[k] == q.fixedValues[k].value {
      ReassembleAt(q.fixedValues, out.solution, k);
    }
    c
  }

  /**
   * Solves `q` with the foreign solver and writes the free-axis values back
   * between the pinned ones, walking the slots with a counter into the solution.
   */
  method Solve(q: Qef, lstsq: Lstsq) returns (c: Candidate)
    requires Valid(q)
    ensures c == SolveSpec(q, lstsq)
  {
    var out := lstsq(q.a, q.b);
    var residual;
    if |out.residuals| == 0 {
      residual := Evaluate(q, out.solution);
    } else {
      residual := out.residuals[0];
    }
    var position := [];
    var i := 0;
    for j := 0 to |q.fixedValues|
      invariant i == CountUnfixed(q.fixedValues[..j]) <= |out.solution|
      invariant position == Reassemble(q.fixedValues[..j], out.solution)
    {
      assert q.fixedValues[..j + 1][..j] == q.fixedValues[..j];
      CountUnfixedPrefix(q.fixedValues, j + 1);
      if q.fixedValues[j].None? {
        position := position + [out.solution[i]];
        i := i + 1;
      } else {
        position := position + [q.fixedValues[j].value];
      }
    }
    assert q.fixedValues[..|q.fixedValues|] == q.fixedValues;
    c := Candidate(residual, position);
  }

  /** A candidate's error equals the base QEF's error at its position, when the solver reported none. */
  lemma SolvedErrorIsBaseError(q: Qef, base: Qef, lstsq: Lstsq)
    requires Represents(q, base) && |lstsq(q.a, q.b).residuals| == 0
    ensures SolveSpec(q, lstsq).residual == Evaluate(base, SolveSpec(q, lstsq).position)
  {
  }

  // ---------------------------------------------------------------------
  // Choosing among candidates: Python's `min` over (residual, position) tuples

  /** Python's list ordering on positions: lexicographic, a proper prefix first. */
  predicate LexLess(p: seq<real>, q: seq<real>) {
    if p == [] then q != []
    else if q == [] then false
    else p[0] < q[0] || (p[0] == q[0] && LexLess(p[1..], q[1..]))
  }

  /** Python's tuple ordering on `(residual, position)`. */
  predicate Less(a: Candidate, b: Candidate) {
    a.residual < b.residual || (a.residual == b.residual && LexLess(a.position, b.position))
  }

  lemma {:induction false} LexLessTransitive(p: seq<real>, q: seq<real>, r: seq<real>)
    requires LexLess(p, q) && LexLess(q, r)
    ensures LexLess(p, r)
  {
    if p != [] && q != [] && r != [] && p[0] == q[0] && q[0] == r[0] {
      LexLessTransitive(p[1..], q[1..], r[1..]);
    }
  }

  lemma {:induction false} LexLessTotal(p: seq<real>, q: seq<real>)
    ensures LexLess(p, q) || LexLess(q, p) || p == q
  {
    if p != [] && q != [] && p[0] == q[0] {
      LexLessTotal(p[1..], q[1..]);
      if p[1..] == q[1..] {
        assert p == [p[0]] + p[1..] && q == [q[0]] + q[1..];
      }
    }
  }

  lemma {:induction false} LexLessIrreflexive(p: seq<real>)
    ensures !LexLess(p, p)
  {
    if p != [] {
      LexLessIrreflexive(p[1..]);
    }
  }

  /** The first smallest candidate, as `min` keeps the current one unless a later one is strictly smaller. */
  function MinOf(rs: seq<Candidate>): (r: Candidate)
    requires |rs| > 0
    ensures r in rs
    ensures forall c :: c in rs ==> !Less(c, r)
  {
    if |rs| == 1 then
      LexLessIrreflexive(rs[0].position);
      rs[0]
    else
      var m := MinOf(rs[..|rs| - 1]);
      var last := rs[|rs| - 1];
      assert rs == rs[..|rs| - 1] + [last];
      if Less(last, m) then
        LexLessIrreflexive(last.position);
        assert forall c :: c in rs[..|rs| - 1] ==> !Less(c, last) by {
          forall c | c in rs[..|rs| - 1] && Less(c, last) ensures false {
            assert !Less(c, m);
            if c.residual == last.residual && last.residual == m.residual {
              LexLessTransitive(c.position, last.position, m.position);
            }
          }
        }
        last
      else m
  }

  /** Two candidates neither of which is smaller are equal: the minimum is unique. */
  lemma MinUnique(rs: seq<Candidate>, r: Candidate)
    requires r in rs && forall c :: c in rs ==> !Less(c, r)
    requires |rs| > 0
    ensures r == MinOf(rs)
  {
    var m := MinOf(rs);
    LexLessTotal(r.position, m.position);
    assert r.position == m.position;
  }

  // ---------------------------------------------------------------------
  // Cells and the fallback ladder

  /** The candidate lies in the closed unit cell whose low corner is `lo`. */
  predicate Inside(c: Candidate, lo: seq<int>) {
    |c.position| >= |lo| && forall k :: 0 <= k < |lo| ==> lo[k] as real <= c.position[k] <= lo[k] as real + 1.0
  }

  /** The candidates that lie in the cell, in their original order (`list(filter(inside, ..))`). */
  function InsideOnly(rs: seq<Candidate>, lo: seq<int>): (r: seq<Candidate>)
    ensures forall c :: c in r <==> c in rs && Inside(c, lo)
    ensures |r| <= |rs|
  {
    if rs == [] then []
    else
      var init := InsideOnly(rs[..|rs| - 1], lo);
      assert rs == rs[..|rs| - 1] + [rs[|rs| - 1]];
      if Inside(rs[|rs| - 1], lo) then init + [rs[|rs| - 1]] else init
  }

  /** Filtering candidates that are all inside keeps them all. */
  lemma {:induction false} InsideOnlyAll(rs: seq<Candidate>, lo: seq<int>)
    requires forall c :: c in rs ==> Inside(c, lo)
    ensures InsideOnly(rs, lo) == rs
  {
    if rs != [] {
      assert rs[|rs| - 1] in rs;
      InsideOnlyAll(rs[..|rs| - 1], lo);
      assert rs == rs[..|rs| - 1] + [rs[|rs| - 1]];
    }
  }

  /** A candidate inside the square cell, as a point. */
  lemma InsideCell2(c: Candidate, x: int, y: int)
    requires Inside(c, [x, y]) && |c.position| >= 2
    ensures InCell2(V2(c.position[0], c.position[1]), x, y)
  {
    assert [x, y][0] == x && [x, y][1] == y;
  }

  /** A candidate inside the cube cell, as a point. */
  lemma InsideCell3(c: Candidate, x: int, y: int, z: int)
    requires Inside(c, [x, y, z]) && |c.position| >= 3
    ensures InCell3(V3(c.position[0], c.position[1], c.position[2]), x, y, z)
  {
    assert [x, y, z][0] == x && [x, y, z][1] == y && [x, y, z][2] == z;
  }

  /** The pair `(evaluate(p), p)` for a corner. */
  function EvalWithPos(q: Qef, p: seq<real>): (c: Candidate)
    requires Valid(q) && |p| == q.a.cols
    ensures c.position == p && c.residual >= 0.0
  {
    Candidate(Evaluate(q, p), p)
  }

  /** numpy.clip: `v` forced into [lo, hi]. */
  function Clamp(v: real, lo: real, hi: real): (r: real)
    requires lo <= hi
    ensures lo <= r <= hi
    ensures lo <= v <= hi ==> r == v
    ensures v < lo ==> r == lo
    ensures v > hi ==> r == hi
  {
    if v < lo then lo else if v > hi then hi else v
  }

  /** numpy.mean over the rows: the exact mean of each coordinate. */
  function MassPoint(positions: seq<seq<real>>, d: nat): (m: seq<real>)
    requires |positions| > 0 && forall i :: 0 <= i < |positions| ==> |positions[i]| == d
    ensures |m| == d
  {
    seq(d, k requires 0 <= k < d => ColumnSum(positions, k) / |positions| as real)
  }

  function ColumnSum(positions: seq<seq<real>>, k: nat): real
    requires forall i :: 0 <= i < |positions| ==> k < |positions[i]|
  {
    if positions == [] then 0.0 else ColumnSum(positions[..|positions| - 1], k) + positions[|positions| - 1][k]
  }

  lemma {:induction false} ColumnSumBounds(positions: seq<seq<real>>, k: nat, lo: real, hi: real)
    requires forall i :: 0 <= i < |positions| ==> k < |positions[i]| && lo <= positions[i][k] <= hi
    ensures |positions| as real * lo <= ColumnSum(positions, k) <= |positions| as real * hi
  {
    if positions != [] {
      ColumnSumBounds(positions[..|positions| - 1], k, lo, hi);
    }
  }

  lemma DivideBounds(s: real, n: real, lo: real, hi: real)
    requires n > 0.0 && n * lo <= s <= n * hi
    ensures lo <= s / n <= hi
  {
    assert (s / n) * n == s;
  }

  /** The bias pulls towards a point inside the cell whenever every crossing is inside it. */
  lemma MassPointInCell(positions: seq<seq<real>>, lo: seq<int>)
    requires |positions| > 0 && forall i :: 0 <= i < |positions| ==> |positions[i]| == |lo|
    requires forall i, k :: 0 <= i < |positions| && 0 <= k < |lo| ==>
      lo[k] as real <= positions[i][k] <= lo[k] as real + 1.0
    ensures forall k :: 0 <= k < |lo| ==>
      lo[k] as real <= MassPoint(positions, |lo|)[k] <= lo[k] as real + 1.0
  {
    var n := |positions| as real;
    forall k | 0 <= k < |lo| ensures lo[k] as real <= MassPoint(positions, |lo|)[k] <= lo[k] as real + 1.0 {
      ColumnSumBounds(positions, k, lo[k] as real, lo[k] as real + 1.0);
      var s := ColumnSum(positions, k);
      assert n * (lo[k] as real) <= s;
      assert s <= n * (lo[k] as real + 1.0);
      DivideBounds(s, n, lo[k] as real, lo[k] as real + 1.0);
    }
  }

  /** The `d` bias normals: `biasStrength` along each axis in turn. */
  function BiasNormals(d: nat, strength: real): (r: seq<seq<real>>)
    ensures |r| == d
    ensures forall k :: 0 <= k < d ==> (|r[k]| == d && r[k][k] == strength
      && forall j :: 0 <= j < d && j != k ==> r[k][j] == 0.0)
  {
    seq(d, k => seq(d, j => if j == k then strength else 0.0))
  }

  /** The bias normals of 2D and 3D, written out. */
  lemma BiasNormalsListed(st: real)
    ensures BiasNormals(2, st) == [[st, 0.0], [0.0, st]]
    ensures BiasNormals(3, st) == [[st, 0.0, 0.0], [0.0, st, 0.0], [0.0, 0.0, st]]
  {
    var b2 := BiasNormals(2, st);
    assert b2[0] == [st, 0.0] && b2[1] == [0.0, st];
    var b3 := BiasNormals(3, st);
    assert b3[0] == [st, 0.0, 0.0] && b3[1] == [0.0, st, 0.0] && b3[2] == [0.0, 0.0, st];
  }

  /** The caller's position list after the bias step. */
  function BiasedPositions(positions: seq<seq<real>>, d: nat, s: Settings): (r: seq<seq<real>>)
    requires |positions| > 0 && forall i :: 0 <= i < |positions| ==> |positions[i]| == d
    ensures |r| == |positions| + (if s.bias then d else 0)
    ensures r[..|positions|] == positions
    ensures forall i :: 0 <= i < |r| ==> |r[i]| == d
    ensures s.bias ==> forall i :: |positions| <= i < |r| ==> r[i] == MassPoint(positions, d)
  {
    if s.bias then positions + seq(d, _ requires |positions| > 0 && forall i :: 0 <= i < |positions| ==> |positions[i]| == d
                                       => MassPoint(positions, d))
    else positions
  }

  /** The caller's normal list after the bias step. */
  function BiasedNormals(normals: seq<seq<real>>, d: nat, s: Settings): (r: seq<seq<real>>)
    requires forall i :: 0 <= i < |normals| ==> |normals[i]| == d
    ensures |r| == |normals| + (if s.bias then d else 0)
    ensures forall i :: 0 <= i < |r| ==> |r[i]| == d
    ensures r[..|normals|] == normals
    ensures s.bias ==> r[|normals|..] == BiasNormals(d, s.biasStrength)
  {
    if s.bias then normals + BiasNormals(d, s.biasStrength) else normals
  }

  // ---------------------------------------------------------------------
  // The boundary fallbacks of solve_qef_2d and solve_qef_3d

  /** `solve` on `q` with one free axis pinned. */
  function SolvePinned(q: Qef, axis: nat, v: real, lstsq: Lstsq): (c: Candidate)
    requires Valid(q) && axis < q.a.cols && axis < |q.fixedValues| && q.fixedValues[axis].None?
    ensures |c.position| == |q.fixedValues| && c.position[axis] == v
  {
    FixAxisKeepsErrors(q, axis, v);
    SolveSpec(FixAxis(q, axis, v), lstsq)
  }

  /** `q` with axis `hi` pinned first and then axis `lo`. */
  function PinnedTwice(q: Qef, hi: nat, vhi: real, lo: nat, vlo: real): (r: Qef)
    requires Valid(q) && lo < hi < q.a.cols && hi < |q.fixedValues|
    requires forall j :: 0 <= j <= hi ==> q.fixedValues[j].None?
    ensures Valid(r)
  {
    FixAxisKeepsErrors(q, hi, vhi);
    var q1 := FixAxis(q, hi, vhi);
    FixAxisKeepsErrors(q1, lo, vlo);
    FixAxis(q1, lo, vlo)
  }

  /** `solve` on `q` with axis `hi` pinned first and then axis `lo`. */
  function SolvePinnedTwice(q: Qef, hi: nat, vhi: real, lo: nat, vlo: real, lstsq: Lstsq): (c: Candidate)
    requires Valid(q) && lo < hi < q.a.cols && hi < |q.fixedValues|
    requires forall j :: 0 <= j <= hi ==> q.fixedValues[j].None?
    ensures |c.position| == |q.fixedValues| && c.position[hi] == vhi && c.position[lo] == vlo
  {
    FixAxisKeepsErrors(q, hi, vhi);
    var q1 := FixAxis(q, hi, vhi);
    FixAxisKeepsErrors(q1, lo, vlo);
    SolveSpec(PinnedTwice(q, hi, vhi, lo, vlo), lstsq)
  }

  /** The four solves pinned to the lines bordering the square cell at (x, y). */
  function FaceCandidates2d(q: Qef, x: int, y: int, lstsq: Lstsq): (r: seq<Candidate>)
    requires Valid(q) && q.a.cols == 2 && q.fixedValues == [None, None]
    ensures |r| == 4 && forall i :: 0 <= i < 4 ==> |r[i].position| == 2
    ensures r[0].position[0] == x as real && r[1].position[0] == x as real + 1.0
    ensures r[2].position[1] == y as real && r[3].position[1] == y as real + 1.0
  {
    [SolvePinned(q, 0, x as real + 0.0, lstsq), SolvePinned(q, 0, x as real + 1.0, lstsq),
     SolvePinned(q, 1, y as real + 0.0, lstsq), SolvePinned(q, 1, y as real + 1.0, lstsq)]
  }

  /** The four corners of the square cell, each with its error. */
  function CornerCandidates2d(q: Qef, x: int, y: int): (r: seq<Candidate>)
    requires Valid(q) && q.a.cols == 2
    ensures |r| == 4 && forall c :: c in r ==> Inside(c, [x, y])
  {
    var x0, x1, y0, y1 := x as real, x as real + 1.0, y as real, y as real + 1.0;
    [EvalWithPos(q, [x0, y0]), EvalWithPos(q, [x0, y1]), EvalWithPos(q, [x1, y0]), EvalWithPos(q, [x1, y1])]
  }

  /**
   * The boundary fallback of solve_qef_2d: the best pinned solve inside the
   * cell, or failing any, the best corner. It always lands in the cell.
   */
  function Ladder2d(q: Qef, x: int, y: int, lstsq: Lstsq): (c: Candidate)
    requires Valid(q) && q.a.cols == 2 && q.fixedValues == [None, None]
    ensures Inside(c, [x, y])
    ensures var faces := InsideOnly(FaceCandidates2d(q, x, y, lstsq), [x, y]);
      if faces != [] then c in faces && forall d :: d in faces ==> !Less(d, c)
      else c in CornerCandidates2d(q, x, y) && forall d :: d in CornerCandidates2d(q, x, y) ==> !Less(d, c)
  {
    var faces := InsideOnly(FaceCandidates2d(q, x, y, lstsq), [x, y]);
    if faces != [] then MinOf(faces)
    else
      var corners := CornerCandidates2d(q, x, y);
      InsideOnlyAll(corners, [x, y]);
      MinOf(corners)
  }

  /** The six solves pinned to the planes bordering the cube cell at (x, y, z). */
  function FaceCandidates3d(q: Qef, x: int, y: int, z: int, lstsq: Lstsq): (r: seq<Candidate>)
    requires Valid(q) && q.a.cols == 3 && q.fixedValues == [None, None, None]
    ensures |r| == 6 && forall i :: 0 <= i < 6 ==> |r[i].position| == 3
    ensures r[0].position[0] == x as real && r[1].position[0] == x as real + 1.0
    ensures r[2].position[1] == y as real && r[3].position[1] == y as real + 1.0
    ensures r[4].position[2] == z as real && r[5].position[2] == z as real + 1.0
  {
    [SolvePinned(q, 0, x as real + 0.0, lstsq), SolvePinned(q, 0, x as real + 1.0, lstsq),
     SolvePinned(q, 1, y as real + 0.0, lstsq), SolvePinned(q, 1, y as real + 1.0, lstsq),
     SolvePinned(q, 2, z as real + 0.0, lstsq), SolvePinned(q, 2, z as real + 1.0, lstsq)]
  }

  /** The twelve solves pinned to the edges of the cube cell, higher axis pinned first. */
  function EdgeCandidates3d(q: Qef, x: int, y: int, z: int, lstsq: Lstsq): (r: seq<Candidate>)
    requires Valid(q) && q.a.cols == 3 && q.fixedValues == [None, None, None]
    ensures |r| == 12 && forall i :: 0 <= i < 12 ==> |r[i].position| == 3
  {
    var x0, x1, y0, y1, z0, z1 := x as real + 0.0, x as real + 1.0, y as real + 0.0, y as real + 1.0,
                                  z as real + 0.0, z as real + 1.0;
    [SolvePinnedTwice(q, 1, y0, 0, x0, lstsq), SolvePinnedTwice(q, 1, y1, 0, x0, lstsq),
     SolvePinnedTwice(q, 1, y0, 0, x1, lstsq), SolvePinnedTwice(q, 1, y1, 0, x1, lstsq),
     SolvePinnedTwice(q, 2, z0, 0, x0, lstsq), SolvePinnedTwice(q, 2, z1, 0, x0, lstsq),
     SolvePinnedTwice(q, 2, z0, 0, x1, lstsq), SolvePinnedTwice(q, 2, z1, 0, x1, lstsq),
     SolvePinnedTwice(q, 2, z0, 1, y0, lstsq), SolvePinnedTwice(q, 2, z1, 1, y0, lstsq),
     SolvePinnedTwice(q, 2, z0, 1, y1, lstsq), SolvePinnedTwice(q, 2, z1, 1, y1, lstsq)]
  }

  /** The eight corners of the cube cell, each with its error. */
  function CornerCandidates3d(q: Qef, x: int, y: int, z: int): (r: seq<Candidate>)
    requires Valid(q) && q.a.cols == 3
    ensures |r| == 8 && forall c :: c in r ==> Inside(c, [x, y, z])
  {
    var x0, x1, y0, y1, z0, z1 := x as real, x as real + 1.0, y as real, y as real + 1.0,
                                  z as real, z as real + 1.0;
    [EvalWithPos(q, [x0, y0, z0]), EvalWithPos(q, [x0, y0, z1]), EvalWithPos(q, [x0, y1, z0]),
     EvalWithPos(q, [x0, y1, z1]), EvalWithPos(q, [x1, y0, z0]), EvalWithPos(q, [x1, y0, z1]),
     EvalWithPos(q, [x1, y1, z0]), EvalWithPos(q, [x1, y1, z1])]
  }

  /**
   * The boundary fallback of solve_qef_3d: the best face solve inside the
   * cell, else the best edge solve inside it, else the best corner.
   */
  function Ladder3d(q: Qef, x: int, y: int, z: int, lstsq: Lstsq): (c: Candidate)
    requires Valid(q) && q.a.cols == 3 && q.fixedValues == [None, None, None]
    ensures Inside(c, [x, y, z])
    ensures var faces := InsideOnly(FaceCandidates3d(q, x, y, z, lstsq), [x, y, z]);
      var edges := InsideOnly(EdgeCandidates3d(q, x, y, z, lstsq), [x, y, z]);
      if faces != [] then c in faces && forall d :: d in faces ==> !Less(d, c)
      else if edges != [] then c in edges && forall d :: d in edges ==> !Less(d, c)
      else c in CornerCandidates3d(q, x, y, z) && forall d :: d in CornerCandidates3d(q, x, y, z) ==> !Less(d, c)
  {
    var faces := InsideOnly(FaceCandidates3d(q, x, y, z, lstsq), [x, y, z]);
    var edges := InsideOnly(EdgeCandidates3d(q, x, y, z, lstsq), [x, y, z]);
    if faces != [] then MinOf(faces)
    else if edges != [] then MinOf(edges)
    else
      var corners := CornerCandidates3d(q, x, y, z);
      InsideOnlyAll(corners, [x, y, z]);
      MinOf(corners)
  }

  /** The point solve_qef settles on before clipping, and whether it is a corner of the cell. */
  datatype Choice = Choice(candidate: Candidate, corner: bool)

  /** The unconstrained solve, replaced by the boundary fallback when boundaries are on and it left the cell. */
  function Choose2d(q: Qef, x: int, y: int, s: Settings, lstsq: Lstsq): (ch: Choice)
    requires Valid(q) && q.a.cols == 2 && q.fixedValues == [None, None]
    ensures |ch.candidate.position| >= 2
    ensures s.boundary ==> Inside(ch.candidate, [x, y])
    ensures !s.boundary ==> ch == Choice(SolveSpec(q, lstsq), false)
    ensures ch.corner ==> ch.candidate in CornerCandidates2d(q, x, y)
  {
    var first := SolveSpec(q, lstsq);
    if s.boundary && !Inside(first, [x, y]) then
      Choice(Ladder2d(q, x, y, lstsq), InsideOnly(FaceCandidates2d(q, x, y, lstsq), [x, y]) == [])
    else Choice(first, false)
  }

  /** The unconstrained solve, replaced by the boundary fallback when boundaries are on and it left the cell. */
  function Choose3d(q: Qef, x: int, y: int, z: int, s: Settings, lstsq: Lstsq): (ch: Choice)
    requires Valid(q) && q.a.cols == 3 && q.fixedValues == [None, None, None]
    ensures |ch.candidate.position| >= 3
    ensures s.boundary ==> Inside(ch.candidate, [x, y, z])
    ensures !s.boundary ==> ch == Choice(SolveSpec(q, lstsq), false)
    ensures ch.corner ==> ch.candidate in CornerCandidates3d(q, x, y, z)
  {
    var first := SolveSpec(q, lstsq);
    if s.boundary && !Inside(first, [x, y, z]) then
      Choice(Ladder3d(q, x, y, z, lstsq),
             InsideOnly(FaceCandidates3d(q, x, y, z, lstsq), [x, y, z]) == []
             && InsideOnly(EdgeCandidates3d(q, x, y, z, lstsq), [x, y, z]) == [])
    else Choice(first, false)
  }

  /** The position lists after the bias step, in the shape Make2d/Make3d expect. */
  predicate PointsOf(ps: seq<seq<real>>, d: nat) {
    forall i :: 0 <= i < |ps| ==> |ps[i]| == d
  }

  /** The chosen point as a vertex, clipped into the cell when clipping is on. */
  function Place2d(c: Candidate, x: int, y: int, s: Settings): (r: V2)
    requires |c.position| >= 2
    requires s.boundary ==> Inside(c, [x, y])
    ensures s.boundary || s.clip ==> InCell2(r, x, y)
    ensures !s.clip ==> r == V2(c.position[0], c.position[1])
    ensures Inside(c, [x, y]) ==> r == V2(c.position[0], c.position[1])
    ensures s.clip ==> r == V2(Clamp(c.position[0], x as real, x as real + 1.0), Clamp(c.position[1], y as real, y as real + 1.0))
  {
    var p := c.position;
    if s.clip then
      if Inside(c, [x, y]) then InsideCell2(c, x, y); V2(p[0], p[1])
      else V2(Clamp(p[0], x as real, x as real + 1.0), Clamp(p[1], y as real, y as real + 1.0))
    else if s.boundary then InsideCell2(c, x, y); V2(p[0], p[1])
    else V2(p[0], p[1])
  }

  /**
   * The vertex solve_qef_2d returns: bias, solve, fall back to the cell
   * boundary, clip. Clipping applies to whichever point was chosen.
   */
  function QefVertex2d(x: int, y: int, positions: seq<seq<real>>, normals: seq<seq<real>>,
                       s: Settings, lstsq: Lstsq): (r: V2)
    requires |positions| == |normals| > 0 && PointsOf(positions, 2) && PointsOf(normals, 2)
    ensures s.boundary || s.clip ==> InCell2(r, x, y)
  {
    var q := Make2d(BiasedPositions(positions, 2, s), BiasedNormals(normals, 2, s));
    Place2d(Choose2d(q, x, y, s, lstsq).candidate, x, y, s)
  }

  /**
   * solve_qef_2d as written: clipping assigns into the chosen point, which is
   * an immutable tuple when a corner was chosen; `None` is that TypeError.
   */
  function QefVertex2dAsWritten(x: int, y: int, positions: seq<seq<real>>, normals: seq<seq<real>>,
                                s: Settings, lstsq: Lstsq): (r: Option<V2>)
    requires |positions| == |normals| > 0 && PointsOf(positions, 2) && PointsOf(normals, 2)
    ensures !s.clip ==> r.Some?
    ensures r.Some? ==> r.value == QefVertex2d(x, y, positions, normals, s, lstsq)
  {
    var q := Make2d(BiasedPositions(positions, 2, s), BiasedNormals(normals, 2, s));
    if s.clip && Choose2d(q, x, y, s, lstsq).corner then None
    else Some(QefVertex2d(x, y, positions, normals, s, lstsq))
  }

  /** With neither boundary nor clip, solve_qef_2d returns the solver's point unchanged. */
  lemma QefVertex2dUnconstrained(x: int, y: int, positions: seq<seq<real>>, normals: seq<seq<real>>,
                                 s: Settings, lstsq: Lstsq)
    requires |positions| == |normals| > 0 && PointsOf(positions, 2) && PointsOf(normals, 2)
    requires !s.boundary && !s.clip
    ensures var sol := lstsq(Make2d(BiasedPositions(positions, 2, s), BiasedNormals(normals, 2, s)).a,
                             Make2d(BiasedPositions(positions, 2, s), BiasedNormals(normals, 2, s)).b).solution;
      QefVertex2d(x, y, positions, normals, s, lstsq) == V2(sol[0], sol[1])
  {
    var q := Make2d(BiasedPositions(positions, 2, s), BiasedNormals(normals, 2, s));
    ReassembleAllFree(q.fixedValues, lstsq(q.a, q.b).solution);
  }

  /** The settings of the example below: the defaults with clipping switched on and no bias. */
  const ClipNoBias := Settings(adaptive := true, clip := true, boundary := true, bias := false, biasStrength := 0.01)

  /**
   * Two planes x = 5 and y = 5 seen from the cell at (0, 0): the solution
   * (5, 5) and all four pinned solutions leave the cell, a corner is chosen,
   * and clipping it raises; the intended result is the nearest corner (1, 1).
   * The requires are the exact least-squares answers for these five systems.
   */
  lemma ClipCornerRaises2d(lstsq: Lstsq)
    requires var q := Make2d([[5.0, 0.0], [0.0, 5.0]], [[1.0, 0.0], [0.0, 1.0]]);
      lstsq(q.a, q.b).solution == [5.0, 5.0] &&
      lstsq(FixAxis(q, 0, 0.0).a, FixAxis(q, 0, 0.0).b).solution == [5.0] &&
      lstsq(FixAxis(q, 0, 1.0).a, FixAxis(q, 0, 1.0).b).solution == [5.0] &&
      lstsq(FixAxis(q, 1, 0.0).a, FixAxis(q, 1, 0.0).b).solution == [5.0] &&
      lstsq(FixAxis(q, 1, 1.0).a, FixAxis(q, 1, 1.0).b).solution == [5.0]
    ensures QefVertex2dAsWritten(0, 0, [[5.0, 0.0], [0.0, 5.0]], [[1.0, 0.0], [0.0, 1.0]], ClipNoBias, lstsq) == None
    ensures QefVertex2d(0, 0, [[5.0, 0.0], [0.0, 5.0]], [[1.0, 0.0], [0.0, 1.0]], ClipNoBias, lstsq) == V2(1.0, 1.0)
  {
    var ps: seq<seq<real>> := [[5.0, 0.0], [0.0, 5.0]];
    var ns: seq<seq<real>> := [[1.0, 0.0], [0.0, 1.0]];
    assert BiasedPositions(ps, 2, ClipNoBias) == ps && BiasedNormals(ns, 2, ClipNoBias) == ns;
    var q := Make2d(ps, ns);
    ExampleChoice2d(q, lstsq);
    var c := Choose2d(q, 0, 0, ClipNoBias, lstsq).candidate;
    assert Inside(c, [0, 0]);
  }

  /** In the example the fallback reaches the corners and picks (1, 1). */
  lemma ExampleChoice2d(q: Qef, lstsq: Lstsq)
    requires q == Make2d([[5.0, 0.0], [0.0, 5.0]], [[1.0, 0.0], [0.0, 1.0]])
    requires lstsq(q.a, q.b).solution == [5.0, 5.0]
    requires lstsq(FixAxis(q, 0, 0.0).a, FixAxis(q, 0, 0.0).b).solution == [5.0]
    requires lstsq(FixAxis(q, 0, 1.0).a, FixAxis(q, 0, 1.0).b).solution == [5.0]
    requires lstsq(FixAxis(q, 1, 0.0).a, FixAxis(q, 1, 0.0).b).solution == [5.0]
    requires lstsq(FixAxis(q, 1, 1.0).a, FixAxis(q, 1, 1.0).b).solution == [5.0]
    ensures Choose2d(q, 0, 0, ClipNoBias, lstsq).corner
    ensures Choose2d(q, 0, 0, ClipNoBias, lstsq).candidate.position == [1.0, 1.0]
  {
    assert !Inside(SolveSpec(q, lstsq), [0, 0]) by {
      ReassembleAt(q.fixedValues, [5.0, 5.0], 0);
    }
    FacesOutside2d(q, lstsq);
    BestCorner2d(q, lstsq);
  }

  /** With no pinned solve inside, the example's fallback settles on the corner (1, 1). */
  lemma BestCorner2d(q: Qef, lstsq: Lstsq)
    requires q == Make2d([[5.0, 0.0], [0.0, 5.0]], [[1.0, 0.0], [0.0, 1.0]])
    requires InsideOnly(FaceCandidates2d(q, 0, 0, lstsq), [0, 0]) == []
    ensures Ladder2d(q, 0, 0, lstsq).position == [1.0, 1.0]
  {
    var corners := CornerCandidates2d(q, 0, 0);
    var best := Ladder2d(q, 0, 0, lstsq);
    CornerErrors2d(q);
    assert best in corners && !Less(corners[3], best);
    assert best == corners[3];
  }

  /** The four pinned solves of the example above all leave the cell. */
  lemma FacesOutside2d(q: Qef, lstsq: Lstsq)
    requires q == Make2d([[5.0, 0.0], [0.0, 5.0]], [[1.0, 0.0], [0.0, 1.0]])
    requires lstsq(FixAxis(q, 0, 0.0).a, FixAxis(q, 0, 0.0).b).solution == [5.0]
    requires lstsq(FixAxis(q, 0, 1.0).a, FixAxis(q, 0, 1.0).b).solution == [5.0]
    requires lstsq(FixAxis(q, 1, 0.0).a, FixAxis(q, 1, 0.0).b).solution == [5.0]
    requires lstsq(FixAxis(q, 1, 1.0).a, FixAxis(q, 1, 1.0).b).solution == [5.0]
    ensures InsideOnly(FaceCandidates2d(q, 0, 0, lstsq), [0, 0]) == []
  {
    var r := FaceCandidates2d(q, 0, 0, lstsq);
    PinnedOutside2d(q, 0, 0.0, lstsq);
    PinnedOutside2d(q, 0, 1.0, lstsq);
    PinnedOutside2d(q, 1, 0.0, lstsq);
    PinnedOutside2d(q, 1, 1.0, lstsq);
    forall c | c in r ensures !Inside(c, [0, 0]) {
      assert c == r[0] || c == r[1] || c == r[2] || c == r[3];
    }
    if InsideOnly(r, [0, 0]) != [] {
      assert InsideOnly(r, [0, 0])[0] in InsideOnly(r, [0, 0]);
    }
  }

  /** A pinned solve of the example whose free coordinate comes back as 5 is outside the cell. */
  lemma PinnedOutside2d(q: Qef, axis: nat, v: real, lstsq: Lstsq)
    requires q == Make2d([[5.0, 0.0], [0.0, 5.0]], [[1.0, 0.0], [0.0, 1.0]]) && axis < 2
    requires lstsq(FixAxis(q, axis, v).a, FixAxis(q, axis, v).b).solution == [5.0]
    ensures !Inside(SolvePinned(q, axis, v, lstsq), [0, 0])
  {
    var f := q.fixedValues[axis := Some(v)];
    var other := 1 - axis;
    assert f[..other] == if axis == 0 then [Some(v)] else [];
    ReassembleAt(f, [5.0], other);
  }

  /** The squared errors of the example's four corners. */
  lemma CornerErrors2d(q: Qef)
    requires q == Make2d([[5.0, 0.0], [0.0, 5.0]], [[1.0, 0.0], [0.0, 1.0]])
    ensures var c := CornerCandidates2d(q, 0, 0);
      c[0].residual == 50.0 && c[1].residual == 41.0 && c[2].residual == 41.0 && c[3].residual == 32.0
  {
    ExampleError2d(q, [0.0, 0.0]);
    ExampleError2d(q, [0.0, 1.0]);
    ExampleError2d(q, [1.0, 0.0]);
    ExampleError2d(q, [1.0, 1.0]);
  }

  /** The example's squared error is the squared distance to (5, 5). */
  lemma ExampleError2d(q: Qef, p: seq<real>)
    requires q == Make2d([[5.0, 0.0], [0.0, 5.0]], [[1.0, 0.0], [0.0, 1.0]]) && |p| == 2
    ensures Evaluate(q, p) == (p[0] - 5.0) * (p[0] - 5.0) + (p[1] - 5.0) * (p[1] - 5.0)
  {
    Make2dMeasuresPlanes([[5.0, 0.0], [0.0, 5.0]], [[1.0, 0.0], [0.0, 1.0]], p, 0);
    Make2dMeasuresPlanes([[5.0, 0.0], [0.0, 5.0]], [[1.0, 0.0], [0.0, 1.0]], p, 1);
    var r := Residuals(q, p);
    assert r[0] == p[0] - 5.0 && r[1] == p[1] - 5.0;
    assert SumSquares(r[1..][1..]) == 0.0;
    assert SumSquares(r[1..]) == r[1] * r[1];
  }

  /** The chosen point as a vertex, clipped into the cell when clipping is on. */
  function Place3d(c: Candidate, x: int, y: int, z: int, s: Settings): (r: V3)
    requires |c.position| >= 3
    requires s.boundary ==> Inside(c, [x, y, z])
    ensures s.boundary || s.clip ==> InCell3(r, x, y, z)
    ensures !s.clip ==> r == V3(c.position[0], c.position[1], c.position[2])
    ensures Inside(c, [x, y, z]) ==> r == V3(c.position[0], c.position[1], c.position[2])
    ensures s.clip ==> r == V3(Clamp(c.position[0], x as real, x as real + 1.0), Clamp(c.position[1], y as real, y as real + 1.0),
                               Clamp(c.position[2], z as real, z as real + 1.0))
  {
    var p := c.position;
    if s.clip then
      if Inside(c, [x, y, z]) then InsideCell3(c, x, y, z); V3(p[0], p[1], p[2])
      else V3(Clamp(p[0], x as real, x as real + 1.0), Clamp(p[1], y as real, y as real + 1.0),
              Clamp(p[2], z as real, z as real + 1.0))
    else if s.boundary then InsideCell3(c, x, y, z); V3(p[0], p[1], p[2])
    else V3(p[0], p[1], p[2])
  }

  /**
   * The vertex solve_qef_3d returns: bias, solve, fall back to faces, edges
   * and corners of the cell, clip. Clipping applies to whichever point was chosen.
   */
  function QefVertex3d(x: int, y: int, z: int, positions: seq<seq<real>>, normals: seq<seq<real>>,
                       s: Settings, lstsq: Lstsq): (r: V3)
    requires |positions| == |normals| > 0 && PointsOf(positions, 3) && PointsOf(normals, 3)
    ensures s.boundary || s.clip ==> InCell3(r, x, y, z)
  {
    var q := Make3d(BiasedPositions(positions, 3, s), BiasedNormals(normals, 3, s));
    Place3d(Choose3d(q, x, y, z, s, lstsq).candidate, x, y, z, s)
  }

  /** solve_qef_3d as written: `None` is the TypeError of clipping a corner tuple. */
  function QefVertex3dAsWritten(x: int, y: int, z: int, positions: seq<seq<real>>, normals: seq<seq<real>>,
                                s: Settings, lstsq: Lstsq): (r: Option<V3>)
    requires |positions| == |normals| > 0 && PointsOf(positions, 3) && PointsOf(normals, 3)
    ensures !s.clip ==> r.Some?
    ensures r.Some? ==> r.value == QefVertex3d(x, y, z, positions, normals, s, lstsq)
  {
    var q := Make3d(BiasedPositions(positions, 3, s), BiasedNormals(normals, 3, s));
    if s.clip && Choose3d(q, x, y, z, s, lstsq).corner then None
    else Some(QefVertex3d(x, y, z, positions, normals, s, lstsq))
  }

  /** With neither boundary nor clip, solve_qef_3d returns the solver's point unchanged. */
  lemma QefVertex3dUnconstrained(x: int, y: int, z: int, positions: seq<seq<real>>, normals: seq<seq<real>>,
                                 s: Settings, lstsq: Lstsq)
    requires |positions| == |normals| > 0 && PointsOf(positions, 3) && PointsOf(normals, 3)
    requires !s.boundary && !s.clip
    ensures var sol := lstsq(Make3d(BiasedPositions(positions, 3, s), BiasedNormals(normals, 3, s)).a,
                             Make3d(BiasedPositions(positions, 3, s), BiasedNormals(normals, 3, s)).b).solution;
      QefVertex3d(x, y, z, positions, normals, s, lstsq) == V3(sol[0], sol[1], sol[2])
  {
    var q := Make3d(BiasedPositions(positions, 3, s), BiasedNormals(normals, 3, s));
    ReassembleAllFree(q.fixedValues, lstsq(q.a, q.b).solution);
  }

  /** A pinned solve reporting no residual reports the original QEF's error at its position. */
  lemma SolvePinnedError(q: Qef, axis: nat, v: real, lstsq: Lstsq)
    requires Valid(q) && axis < q.a.cols && |q.fixedValues| == q.a.cols
    requires forall j :: 0 <= j < |q.fixedValues| ==> q.fixedValues[j].None?
    requires |lstsq(FixAxis(q, axis, v).a, FixAxis(q, axis, v).b).residuals| == 0
    ensures SolvePinned(q, axis, v, lstsq).residual == Evaluate(q, SolvePinned(q, axis, v, lstsq).position)
  {
    FreshRepresents(q);
    FixAxisRepresents(q, q, axis, v);
    SolvedErrorIsBaseError(FixAxis(q, axis, v), q, lstsq);
  }

  /** The same for an edge solve: pinning the higher axis first keeps the errors consistent. */
  lemma SolvePinnedTwiceError(q: Qef, hi: nat, vhi: real, lo: nat, vlo: real, lstsq: Lstsq)
    requires Valid(q) && lo < hi < q.a.cols && |q.fixedValues| == q.a.cols
    requires forall j :: 0 <= j < |q.fixedValues| ==> q.fixedValues[j].None?
    requires |lstsq(PinnedTwice(q, hi, vhi, lo, vlo).a, PinnedTwice(q, hi, vhi, lo, vlo).b).residuals| == 0
    ensures SolvePinnedTwice(q, hi, vhi, lo, vlo, lstsq).residual
         == Evaluate(q, SolvePinnedTwice(q, hi, vhi, lo, vlo, lstsq).position)
  {
    FreshRepresents(q);
    FixAxisRepresents(q, q, hi, vhi);
    var q1 := FixAxis(q, hi, vhi);
    assert forall j :: 0 <= j <= lo ==> q1.fixedValues[j].None?;
    FixAxisRepresents(q1, q, lo, vlo);
    SolvedErrorIsBaseError(PinnedTwice(q, hi, vhi, lo, vlo), q, lstsq);
  }

  // ---------------------------------------------------------------------
  // solve_qef_2d and solve_qef_3d, step by step

  /**
   * The boundary fallback of solve_qef_2d as it runs: the four pinned solves,
   * filtered to the cell, then the corners if none is left, then `min`.
   */
  method Fallback2d(q: Qef, x: int, y: int, lstsq: Lstsq) returns (c: Candidate, corner: bool)
    requires Valid(q) && q.a.cols == 2 && q.fixedValues == [None, None]
    ensures c == Ladder2d(q, x, y, lstsq)
    ensures corner <==> InsideOnly(FaceCandidates2d(q, x, y, lstsq), [x, y]) == []
  {
    FixAxisKeepsErrors(q, 0, x as real + 0.0);
    FixAxisKeepsErrors(q, 0, x as real + 1.0);
    FixAxisKeepsErrors(q, 1, y as real + 0.0);
    FixAxisKeepsErrors(q, 1, y as real + 1.0);
    var r1 := Solve(FixAxis(q, 0, x as real + 0.0), lstsq);
    var r2 := Solve(FixAxis(q, 0, x as real + 1.0), lstsq);
    var r3 := Solve(FixAxis(q, 1, y as real + 0.0), lstsq);
    var r4 := Solve(FixAxis(q, 1, y as real + 1.0), lstsq);
    assert [r1, r2, r3, r4] == FaceCandidates2d(q, x, y, lstsq);
    var rs := InsideOnly([r1, r2, r3, r4], [x, y]);
    corner := false;
    if |rs| == 0 {
      InsideOnlyAll(CornerCandidates2d(q, x, y), [x, y]);
      rs := InsideOnly(CornerCandidates2d(q, x, y), [x, y]);
      corner := true;
    }
    c := MinOf(rs);
  }

  /**
   * The boundary fallback of solve_qef_3d as it runs: faces, then edges, then
   * corners, each filtered to the cell, then `min` over the first non-empty set.
   */
  method Fallback3d(q: Qef, x: int, y: int, z: int, lstsq: Lstsq) returns (c: Candidate, corner: bool)
    requires Valid(q) && q.a.cols == 3 && q.fixedValues == [None, None, None]
    ensures c == Ladder3d(q, x, y, z, lstsq)
    ensures corner <==> (InsideOnly(FaceCandidates3d(q, x, y, z, lstsq), [x, y, z]) == []
      && InsideOnly(EdgeCandidates3d(q, x, y, z, lstsq), [x, y, z]) == [])
  {
    var rs := InsideOnly(FaceCandidates3d(q, x, y, z, lstsq), [x, y, z]);
    corner := false;
    if |rs| == 0 {
      rs := InsideOnly(EdgeCandidates3d(q, x, y, z, lstsq), [x, y, z]);
    }
    if |rs| == 0 {
      InsideOnlyAll(CornerCandidates3d(q, x, y, z), [x, y, z]);
      rs := InsideOnly(CornerCandidates3d(q, x, y, z), [x, y, z]);
      corner := true;
    }
    c := MinOf(rs);
  }

  /**
   * The last step of solve_qef_2d: clip the chosen point's coordinates in
   * place and build the vertex.
   */
  method Finish2d(c: Candidate, x: int, y: int, s: Settings) returns (v: V2)
    requires |c.position| >= 2 && (s.boundary ==> Inside(c, [x, y]))
    ensures v == Place2d(c, x, y, s)
  {
    var p := c.position;
    if s.clip {
      p := p[0 := Clamp(p[0], x as real, x as real + 1.0)];
      p := p[1 := Clamp(p[1], y as real, y as real + 1.0)];
    }
    v := V2(p[0], p[1]);
  }

  /**
   * The last step of solve_qef_3d: clip the chosen point's coordinates in
   * place and build the vertex.
   */
  method Finish3d(c: Candidate, x: int, y: int, z: int, s: Settings) returns (v: V3)
    requires |c.position| >= 3 && (s.boundary ==> Inside(c, [x, y, z]))
    ensures v == Place3d(c, x, y, z, s)
  {
    var p := c.position;
    if s.clip {
      p := p[0 := Clamp(p[0], x as real, x as real + 1.0)];
      p := p[1 := Clamp(p[1], y as real, y as real + 1.0)];
      p := p[2 := Clamp(p[2], z as real, z as real + 1.0)];
    }
    v := V3(p[0], p[1], p[2]);
  }

  /** The bias step of solve_qef_2d: 2 pairs appended to the caller's lists. */
  method AddBias2d(positions: seq<seq<real>>, normals: seq<seq<real>>, s: Settings)
    returns (positionsOut: seq<seq<real>>, normalsOut: seq<seq<real>>)
    requires |positions| == |normals| > 0 && PointsOf(positions, 2) && PointsOf(normals, 2)
    ensures positionsOut == BiasedPositions(positions, 2, s) && normalsOut == BiasedNormals(normals, 2, s)
  {
    positionsOut, normalsOut := positions, normals;
    if s.bias {
      var massPoint := MassPoint(positions, 2);
      normalsOut := normalsOut + [[s.biasStrength, 0.0]];
      positionsOut := positionsOut + [massPoint];
      normalsOut := normalsOut + [[0.0, s.biasStrength]];
      positionsOut := positionsOut + [massPoint];
      BiasNormalsListed(s.biasStrength);
      assert normalsOut == BiasedNormals(normals, 2, s);
      assert positionsOut == BiasedPositions(positions, 2, s);
    }
  }

  /** The bias step of solve_qef_3d: 3 pairs appended to the caller's lists. */
  method AddBias3d(positions: seq<seq<real>>, normals: seq<seq<real>>, s: Settings)
    returns (positionsOut: seq<seq<real>>, normalsOut: seq<seq<real>>)
    requires |positions| == |normals| > 0 && PointsOf(positions, 3) && PointsOf(normals, 3)
    ensures positionsOut == BiasedPositions(positions, 3, s) && normalsOut == BiasedNormals(normals, 3, s)
  {
    positionsOut, normalsOut := positions, normals;
    if s.bias {
      var massPoint := MassPoint(positions, 3);
      normalsOut := normalsOut + [[s.biasStrength, 0.0, 0.0]];
      positionsOut := positionsOut + [massPoint];
      normalsOut := normalsOut + [[0.0, s.biasStrength, 0.0]];
      positionsOut := positionsOut + [massPoint];
      normalsOut := normalsOut + [[0.0, 0.0, s.biasStrength]];
      positionsOut := positionsOut + [massPoint];
      BiasNormalsListed(s.biasStrength);
      assert normalsOut == BiasedNormals(normals, 3, s);
      assert positionsOut == BiasedPositions(positions, 3, s);
    }
  }

  /**
   * solve_qef_2d: appends the bias pairs to the caller's lists (returned as
   * `positionsOut` and `normalsOut`), solves, walks the boundary fallbacks
   * and clips the chosen point in place.
   */
  method SolveQef2d(x: int, y: int, positions: seq<seq<real>>, normals: seq<seq<real>>,
                    s: Settings, lstsq: Lstsq) returns (v: V2, positionsOut: seq<seq<real>>, normalsOut: seq<seq<real>>)
    requires |positions| == |normals| > 0 && PointsOf(positions, 2) && PointsOf(normals, 2)
    ensures v == QefVertex2d(x, y, positions, normals, s, lstsq)
    ensures positionsOut == BiasedPositions(positions, 2, s) && normalsOut == BiasedNormals(normals, 2, s)
  {
    positionsOut, normalsOut := AddBias2d(positions, normals, s);
    var q := Make2d(positionsOut, normalsOut);
    var c := Solve(q, lstsq);
    var corner := false;
    if s.boundary {
      if !Inside(c, [x, y]) {
        c, corner := Fallback2d(q, x, y, lstsq);
      }
    }
    assert Choice(c, corner) == Choose2d(q, x, y, s, lstsq);
    v := Finish2d(c, x, y, s);
  }

  /**
   * solve_qef_3d: appends the bias pairs to the caller's lists, solves, walks
   * the face, edge and corner fallbacks and clips the chosen point in place.
   */
  method SolveQef3d(x: int, y: int, z: int, positions: seq<seq<real>>, normals: seq<seq<real>>,
                    s: Settings, lstsq: Lstsq) returns (v: V3, positionsOut: seq<seq<real>>, normalsOut: seq<seq<real>>)
    requires |positions| == |normals| > 0 && PointsOf(positions, 3) && PointsOf(normals, 3)
    ensures v == QefVertex3d(x, y, z, positions, normals, s, lstsq)
    ensures positionsOut == BiasedPositions(positions, 3, s) && normalsOut == BiasedNormals(normals, 3, s)
  {
    positionsOut, normalsOut := AddBias3d(positions, normals, s);
    var q := Make3d(positionsOut, normalsOut);
    var c := Solve(q, lstsq);
    var corner := false;
    if s.boundary {
      if !Inside(c, [x, y, z]) {
        c, corner := Fallback3d(q, x, y, z, lstsq);
      }
    }
    assert Choice(c, corner) == Choose3d(q, x, y, z, s, lstsq);
    v := Finish3d(c, x, y, z, s);
  }
}
