/** Utilities common to all meshing methods (common.py). */
module Common {
  import opened Wrappers

  /** An oriented 2D boundary segment between two vertices. */
  datatype Edge<V> = Edge(v1: V, v2: V) {

    /** Reverses the segment when `swap` holds, keeps it otherwise. */
    function Swap(swap: bool): (r: Edge<V>)
      ensures swap ==> r.v1 == v2 && r.v2 == v1
      ensures !swap ==> r == this
    {
      if swap then Edge(v2, v1) else Edge(v1, v2)
    }

    /** Applies `g` to both endpoints, keeping their order. */
    function Map<U>(g: V -> U): (r: Edge<U>)
      ensures r.v1 == g(v1) && r.v2 == g(v2)
    {
      Edge(g(v1), g(v2))
    }
  }

  /** Swapping twice with the same flag restores the segment. */
  lemma SwapTwice<V>(e: Edge<V>, swap: bool)
    ensures e.Swap(swap).Swap(swap) == e
  {
  }

  /** Relabelling the endpoints commutes with reversing the segment. */
  lemma SwapMapCommute<V, U>(e: Edge<V>, g: V -> U, swap: bool)
    ensures e.Swap(swap).Map(g) == e.Map(g).Swap(swap)
  {
  }

  /** True when exactly one of the two samples is solid (`> 0`). */
  predicate OppositeSigns(v0: real, v1: real) {
    (v1 > 0.0) != (v0 > 0.0)
  }

  /**
   * How far to interpolate from `v0` to `v1` to reach zero. `None` stands for
   * the failed assertion when the samples do not have opposite sign; with
   * adaptivity off the answer is always the midpoint.
   */
  function Adapt(v0: real, v1: real, adaptive: bool): (r: Option<real>)
    ensures r.Some? <==> OppositeSigns(v0, v1)
    ensures r.Some? && adaptive ==> v1 - v0 != 0.0 && v0 + r.value * (v1 - v0) == 0.0
    ensures r.Some? ==> 0.0 <= r.value <= 1.0
    ensures r.Some? && !adaptive ==> r.value == 0.5
  {
    if !OppositeSigns(v0, v1) then None
    else if adaptive then Some((0.0 - v0) / (v1 - v0))
    else Some(0.5)
  }

  /** The interpolation parameter of -1 towards 3 is one quarter. */
  lemma AdaptQuarter()
    ensures Adapt(-1.0, 3.0, true) == Some(0.25)
    ensures Adapt(1.0, 3.0, true) == None
  {
  }

  /** Negating both samples moves no crossing when neither sample is zero. */
  lemma AdaptNegate(v0: real, v1: real, adaptive: bool)
    requires v0 != 0.0 && v1 != 0.0
    ensures Adapt(-v0, -v1, adaptive) == Adapt(v0, v1, adaptive)
  {
    if OppositeSigns(v0, v1) && adaptive {
      assert (0.0 - -v0) / (-v1 - -v0) == (0.0 - v0) / (v1 - v0) by {
        assert -v1 - -v0 == -(v1 - v0);
      }
    }
  }
}
