/**
 * The bitmask conventions of the marching-cubes table generator: a set of
 * cube corners 0..7 is stored as the integer with bit v set for each corner
 * v in it (marching_cubes_gen.py, bits_to_verts and verts_to_bits).
 */
module CubeBits {

  function Pow2(v: nat): (r: nat)
    ensures r >= 1
  {
    if v == 0 then 1 else 2 * Pow2(v - 1)
  }

  /**
   * Bit v of n in two's complement, the test `2**v & n > 0`. It is defined
   * by halving, which rounds down like a right shift for negative n too.
   */
  predicate Bit(n: int, v: nat)
    decreases v
  {
    if v == 0 then n % 2 == 1 else Bit(n / 2, v - 1)
  }

  predicate StrictlyIncreasing(s: seq<int>) {
    forall i, j :: 0 <= i < j < |s| ==> s[i] < s[j]
  }

  /** The corners below k whose bit is set in n, in ascending order. */
  function BitsBelow(n: int, k: nat): (r: seq<int>)
    ensures forall v :: v in r <==> 0 <= v < k && Bit(n, v)
    ensures StrictlyIncreasing(r)
  {
    if k == 0 then []
    else
      var s := BitsBelow(n, k - 1);
      assert forall i :: 0 <= i < |s| ==> s[i] in s;
      s + (if Bit(n, k - 1) then [k - 1] else [])
  }

  /** The number of corners of a cube. */
  const CornerCount: nat := 8

  /** bits_to_verts: the ascending list of corners whose bit is set in n. */
  function BitsToVerts(n: int): (r: seq<int>)
    ensures forall v :: v in r <==> 0 <= v < 8 && Bit(n, v)
    ensures StrictlyIncreasing(r) && |r| <= 8
  {
    var r := BitsBelow(n, CornerCount);
    assert |r| <= 8 by {
      if |r| > 0 {
        assert r[|r| - 1] in r;
        IncreasingFrom(r, 0, |r| - 1);
      }
    }
    r
  }

  /** In a strictly increasing sequence starting at or above `lo`, entry i is at least lo + i. */
  lemma {:induction false} IncreasingFrom(s: seq<int>, lo: int, i: nat)
    requires StrictlyIncreasing(s) && i < |s| && (forall v :: v in s ==> lo <= v)
    ensures lo + i <= s[i]
  {
    if i > 0 {
      IncreasingFrom(s, lo, i - 1);
    } else {
      assert s[0] in s;
    }
  }

  /** verts_to_bits: the sum of 2**v over the listed corners, repeats counted again. */
  function VertsToBits(vs: seq<int>): (r: int)
    requires forall v :: v in vs ==> 0 <= v
    ensures r >= 0
  {
    if vs == [] then 0
    else
      var init := vs[..|vs| - 1];
      assert vs[|vs| - 1] in vs;
      assert forall v :: v in init ==> v in vs by {
        forall v | v in init ensures v in vs {
          var i :| 0 <= i < |init| && init[i] == v;
          assert vs[i] == v;
        }
      }
      VertsToBits(init) + Pow2(vs[|vs| - 1])
  }

  predicate DuplicateFree(s: seq<int>) {
    forall i, j :: 0 <= i < j < |s| ==> s[i] != s[j]
  }

  // ---------------------------------------------------------------------
  // Arithmetic on bits
  // ---------------------------------------------------------------------

  /** Euclidean division has one answer. */
  lemma ModUnique(n: int, m: int, q: int, s: int)
    requires m > 0 && 0 <= s < m && n == m * q + s
    ensures n % m == s
  {
    MulMono(m, q - n / m);
  }

  /** Multiples of a positive m below -m or above m come from factors past -1 or 1. */
  lemma {:induction false} MulMono(m: int, d: int)
    requires m > 0
    ensures d >= 1 ==> m * d >= m
    ensures d <= -1 ==> m * d <= -m
    decreases if d >= 0 then d else -d
  {
    if d > 1 {
      MulMono(m, d - 1);
      assert m * d == m * (d - 1) + m;
    } else if d < -1 {
      MulMono(m, d + 1);
      assert m * d == m * (d + 1) - m;
    }
  }

  /** The low k + 1 bits of n are its low bit and the low k bits of n / 2. */
  lemma ModHalf(n: int, k: nat)
    ensures n % Pow2(k + 1) == n % 2 + 2 * ((n / 2) % Pow2(k))
  {
    var p := Pow2(k);
    var h := n / 2;
    var q, r := h / p, h % p;
    assert h == p * q + r;
    assert n == 2 * h + n % 2;
    assert n == (2 * p) * q + (2 * r + n % 2);
    ModUnique(n, 2 * p, q, 2 * r + n % 2);
  }

  /** The low k + 1 bits of n are its low k bits plus bit k. */
  lemma {:induction false} ModPow2Step(n: int, k: nat)
    ensures n % Pow2(k + 1) == n % Pow2(k) + (if Bit(n, k) then Pow2(k) else 0)
    decreases k
  {
    if k > 0 {
      var h := n / 2;
      ModHalf(n, k);
      ModHalf(n, k - 1);
      ModPow2Step(h, k - 1);
      assert Bit(n, k) == Bit(h, k - 1);
      assert Pow2(k) == 2 * Pow2(k - 1);
    }
  }

  /** Adding 2**w to a number without bit w sets bit w and changes no other bit. */
  lemma {:induction false} AddBit(m: int, w: nat, v: nat)
    requires !Bit(m, w)
    ensures Bit(m + Pow2(w), v) == (Bit(m, v) || v == w)
    decreases w
  {
    if w == 0 {
      assert (m + 1) / 2 == m / 2;
    } else if v > 0 {
      assert (m + Pow2(w)) / 2 == m / 2 + Pow2(w - 1);
      AddBit(m / 2, w - 1, v - 1);
    }
  }

  /** Zero has no bit set. */
  lemma {:induction false} ZeroBits(v: nat)
    ensures !Bit(0, v)
  {
    if v > 0 {
      ZeroBits(v - 1);
    }
  }

  /** A number at least 2**k has a bit set at k or above. */
  lemma {:induction false} HighBit(m: int, k: nat) returns (v: nat)
    requires m >= Pow2(k)
    ensures v >= k && Bit(m, v)
    decreases m
  {
    if k == 0 && m % 2 == 1 {
      v := 0;
    } else {
      var w := HighBit(m / 2, if k == 0 then 0 else k - 1);
      v := w + 1;
    }
  }

  /** Complementing within eight bits flips each of them. */
  lemma {:induction false} ComplementBits(m: int, k: nat, v: nat)
    requires 0 <= m < Pow2(k) && v < k
    ensures Bit(Pow2(k) - 1 - m, v) == !Bit(m, v)
  {
    if v > 0 {
      assert (Pow2(k) - 1 - m) / 2 == Pow2(k - 1) - 1 - m / 2;
      ComplementBits(m / 2, k - 1, v - 1);
    }
  }

  // ---------------------------------------------------------------------
  // The two conversions undo each other
  // ---------------------------------------------------------------------

  /** Summing the corners below k that are set in n gives the low k bits of n. */
  lemma {:induction false} BitsBelowSum(n: int, k: nat)
    ensures VertsToBits(BitsBelow(n, k)) == n % Pow2(k)
  {
    if k > 0 {
      var s := BitsBelow(n, k - 1);
      BitsBelowSum(n, k - 1);
      ModPow2Step(n, k - 1);
      if Bit(n, k - 1) {
        SumSnoc(s, k - 1);
      } else {
        assert BitsBelow(n, k) == s;
      }
    }
  }

  lemma SumSnoc(s: seq<int>, v: int)
    requires forall u :: u in s ==> 0 <= u
    requires 0 <= v
    ensures VertsToBits(s + [v]) == VertsToBits(s) + Pow2(v)
  {
    assert (s + [v])[..|s|] == s;
  }

  /** verts_to_bits(bits_to_verts(n)) == n for every 8-bit n. */
  lemma BitsRoundTrip(n: int)
    requires 0 <= n < 256
    ensures VertsToBits(BitsToVerts(n)) == n
  {
    var p := Pow2(CornerCount);
    assert p == 256;
    BitsBelowSum(n, CornerCount);
    ModUnique(n, p, 0, n);
    assert BitsToVerts(n) == BitsBelow(n, CornerCount);
  }

  /** The bits of a sum of distinct powers of two are exactly the listed corners. */
  lemma {:induction false} VertsToBitsBits(vs: seq<int>)
    requires forall v :: v in vs ==> 0 <= v
    requires DuplicateFree(vs)
    ensures forall v: nat :: Bit(VertsToBits(vs), v) <==> v in vs
  {
    if vs == [] {
      forall v: nat ensures !Bit(0, v) {
        ZeroBits(v);
      }
    } else {
      var init, w := vs[..|vs| - 1], vs[|vs| - 1];
      assert w in vs;
      assert forall v :: v in init ==> v in vs;
      VertsToBitsBits(init);
      assert w !in init;
      assert VertsToBits(vs) == VertsToBits(init) + Pow2(w);
      forall v: nat ensures Bit(VertsToBits(vs), v) <==> v in vs {
        AddBit(VertsToBits(init), w, v);
        assert vs == init + [w];
      }
    }
  }

  /** A sum of distinct corners 0..7 fits in eight bits. */
  lemma CornersFit(vs: seq<int>)
    requires forall v :: v in vs ==> 0 <= v < 8
    requires DuplicateFree(vs)
    ensures VertsToBits(vs) < 256
  {
    VertsToBitsBits(vs);
    if VertsToBits(vs) >= 256 {
      assert Pow2(8) == 256;
      var v := HighBit(VertsToBits(vs), 8);
      assert false;
    }
  }

  /** The last entry of a strictly increasing sequence is its largest, and dropping it removes only it. */
  lemma DropLast(s: seq<int>)
    requires StrictlyIncreasing(s) && s != []
    ensures forall v :: v in s ==> v <= s[|s| - 1]
    ensures forall v :: v in s[..|s| - 1] <==> v in s && v != s[|s| - 1]
    ensures StrictlyIncreasing(s[..|s| - 1])
  {
    var init := s[..|s| - 1];
    forall v | v in s ensures v <= s[|s| - 1] {
      var i :| 0 <= i < |s| && s[i] == v;
    }
    forall v ensures v in init <==> v in s && v != s[|s| - 1] {
      if v in s {
        var i :| 0 <= i < |s| && s[i] == v;
        if i < |s| - 1 {
          assert init[i] == v;
        }
      }
    }
  }

  /** Two strictly increasing sequences with the same elements are equal. */
  lemma {:induction false} IncreasingUnique(s: seq<int>, t: seq<int>)
    requires StrictlyIncreasing(s) && StrictlyIncreasing(t)
    requires forall v :: v in s <==> v in t
    ensures s == t
  {
    assert s != [] ==> s[0] in s;
    assert t != [] ==> t[0] in t;
    if s != [] && t != [] {
      var a, s', t' := s[|s| - 1], s[..|s| - 1], t[..|t| - 1];
      assert a == t[|t| - 1] by {
        DropLast(s);
        DropLast(t);
        assert a in s && t[|t| - 1] in t;
      }
      assert StrictlyIncreasing(s') && StrictlyIncreasing(t') by {
        DropLast(s);
        DropLast(t);
      }
      assert forall v :: v in s' <==> v in t' by {
        DropLast(s);
        DropLast(t);
        forall v ensures v in s' <==> v in t' {
          assert v in s <==> v in t;
        }
      }
      IncreasingUnique(s', t');
      assert s == s' + [a] && t == t' + [a];
    }
  }

  /**
   * bits_to_verts(verts_to_bits(vs)) holds the corners of a duplicate-free
   * `vs` in ascending order, and is `vs` itself when `vs` is ascending.
   */
  lemma VertsRoundTrip(vs: seq<int>)
    requires forall v :: v in vs ==> 0 <= v < 8
    requires DuplicateFree(vs)
    ensures forall v :: v in BitsToVerts(VertsToBits(vs)) <==> v in vs
    ensures StrictlyIncreasing(vs) ==> BitsToVerts(VertsToBits(vs)) == vs
  {
    VertsToBitsBits(vs);
    if StrictlyIncreasing(vs) {
      IncreasingUnique(BitsToVerts(VertsToBits(vs)), vs);
    }
  }
}
