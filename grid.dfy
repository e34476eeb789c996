/** Index-space helpers shared by the grid kernels: the row-major order in which an
    `idefix_for` over (k, j, i) visits its cells, and the full-extent fills that
    reset a field to one value. */
module Grid {

  /** Cell (k, j, i) is visited before the cursor (ck, cj, ci) by a loop nest over
      k, then j, then i (the last index varies fastest). */
  predicate Before(k: int, j: int, i: int, ck: int, cj: int, ci: int)
  {
    k < ck || (k == ck && (j < cj || (j == cj && i < ci)))
  }

  /** The position of cell (k, j, i) in that order, over a grid of nj x ni cells per
      k-plane: the number of cells visited before it. */
  function Position(k: nat, j: nat, i: nat, nj: nat, ni: nat): nat
  {
    (k * nj + j) * ni + i
  }

  /** Moving to the next cell of a row advances the position by one. */
  lemma PositionNextCell(k: nat, j: nat, i: nat, nj: nat, ni: nat)
    ensures Position(k, j, i + 1, nj, ni) == Position(k, j, i, nj, ni) + 1
  {
  }

  /** The end of row j is the start of row j + 1. */
  lemma PositionNextRow(k: nat, j: nat, nj: nat, ni: nat)
    ensures Position(k, j, ni, nj, ni) == Position(k, j + 1, 0, nj, ni)
  {
    assert (k * nj + j + 1) * ni == (k * nj + j) * ni + ni;
  }

  /** The end of plane k is the start of plane k + 1. */
  lemma PositionNextPlane(k: nat, nj: nat, ni: nat)
    ensures Position(k, nj, 0, nj, ni) == Position(k + 1, 0, 0, nj, ni)
  {
    assert (k + 1) * nj == k * nj + nj;
  }

  /** The index (variable, k, j, i) of an element of a 4-D field, and (k, j, i) of a 3-D one. */
  type Index4 = (int, int, int, int)
  type Index3 = (int, int, int)

  /** The contents of the 4-D field `a` at one moment, by index. */
  ghost function Snapshot4(a: array4<real>): (m: imap<Index4, real>)
    reads a
    ensures forall nv, k, j, i | 0 <= nv < a.Length0 && 0 <= k < a.Length1 && 0 <= j < a.Length2
                                 && 0 <= i < a.Length3 :: (nv, k, j, i) in m && m[(nv, k, j, i)] == a[nv, k, j, i]
  {
    imap c: Index4 | 0 <= c.0 < a.Length0 && 0 <= c.1 < a.Length1 && 0 <= c.2 < a.Length2 && 0 <= c.3 < a.Length3
      :: a[c.0, c.1, c.2, c.3]
  }

  /** The contents of the 3-D field `a` at one moment, by index. */
  ghost function Snapshot3(a: array3<real>): (m: imap<Index3, real>)
    reads a
    ensures forall k, j, i | 0 <= k < a.Length0 && 0 <= j < a.Length1 && 0 <= i < a.Length2 ::
      (k, j, i) in m && m[(k, j, i)] == a[k, j, i]
  {
    imap c: Index3 | 0 <= c.0 < a.Length0 && 0 <= c.1 < a.Length1 && 0 <= c.2 < a.Length2 :: a[c.0, c.1, c.2]
  }

  /** The ghost cells a user boundary fills lie on the left or the right of the active range. */
  datatype BoundarySide = Left | Right

  /** Sets every element of the 3-D field `a` to `v`. */
  method Fill3(a: array3<real>, v: real)
    modifies a
    ensures forall k, j, i | 0 <= k < a.Length0 && 0 <= j < a.Length1 && 0 <= i < a.Length2 ::
      a[k, j, i] == v
  {
    var k := 0;
    while k < a.Length0
      invariant 0 <= k <= a.Length0
      invariant forall k', j', i' | 0 <= k' < a.Length0 && 0 <= j' < a.Length1 && 0 <= i' < a.Length2 ::
        Before(k', j', i', k, 0, 0) ==> a[k', j', i'] == v
    {
      var j := 0;
      while j < a.Length1
        invariant 0 <= j <= a.Length1
        invariant forall k', j', i' | 0 <= k' < a.Length0 && 0 <= j' < a.Length1 && 0 <= i' < a.Length2 ::
          Before(k', j', i', k, j, 0) ==> a[k', j', i'] == v
      {
        var i := 0;
        while i < a.Length2
          invariant 0 <= i <= a.Length2
          invariant forall k', j', i' | 0 <= k' < a.Length0 && 0 <= j' < a.Length1 && 0 <= i' < a.Length2 ::
            Before(k', j', i', k, j, i) ==> a[k', j', i'] == v
        {
          a[k, j, i] := v;
          i := i + 1;
        }
        j := j + 1;
      }
      k := k + 1;
    }
  }

  /** Sets every element of the 4-D field `a` (variable, k, j, i) to `v`. */
  method Fill4(a: array4<real>, v: real)
    modifies a
    ensures forall nv, k, j, i | 0 <= nv < a.Length0 && 0 <= k < a.Length1 && 0 <= j < a.Length2
                                 && 0 <= i < a.Length3 :: a[nv, k, j, i] == v
  {
    var nv := 0;
    while nv < a.Length0
      invariant 0 <= nv <= a.Length0
      invariant forall n, k, j, i | 0 <= n < nv && 0 <= k < a.Length1 && 0 <= j < a.Length2
                                    && 0 <= i < a.Length3 :: a[n, k, j, i] == v
    {
      var k := 0;
      while k < a.Length1
        invariant 0 <= k <= a.Length1
        invariant forall n, k', j', i' | 0 <= n <= nv && 0 <= k' < a.Length1 && 0 <= j' < a.Length2
                                         && 0 <= i' < a.Length3 ::
          (n < nv || Before(k', j', i', k, 0, 0)) ==> a[n, k', j', i'] == v
      {
        var j := 0;
        while j < a.Length2
          invariant 0 <= j <= a.Length2
          invariant forall n, k', j', i' | 0 <= n <= nv && 0 <= k' < a.Length1 && 0 <= j' < a.Length2
                                           && 0 <= i' < a.Length3 ::
            (n < nv || Before(k', j', i', k, j, 0)) ==> a[n, k', j', i'] == v
        {
          var i := 0;
          while i < a.Length3
            invariant 0 <= i <= a.Length3
            invariant forall n, k', j', i' | 0 <= n <= nv && 0 <= k' < a.Length1 && 0 <= j' < a.Length2
                                             && 0 <= i' < a.Length3 ::
              (n < nv || Before(k', j', i', k, j, i)) ==> a[n, k', j', i'] == v
          {
            a[nv, k, j, i] := v;
            i := i + 1;
          }
          j := j + 1;
        }
        k := k + 1;
      }
      nv := nv + 1;
    }
  }

  /** Kokkos::deep_copy of a 4-D field: `dst` becomes a copy of `src`. */
  method Copy4(dst: array4<real>, src: array4<real>)
    requires dst != src
    requires dst.Length0 == src.Length0 && dst.Length1 == src.Length1
    requires dst.Length2 == src.Length2 && dst.Length3 == src.Length3
    modifies dst
    ensures forall nv, k, j, i | 0 <= nv < dst.Length0 && 0 <= k < dst.Length1 && 0 <= j < dst.Length2
                                 && 0 <= i < dst.Length3 :: dst[nv, k, j, i] == src[nv, k, j, i]
  {
    forall nv, k, j, i | 0 <= nv < dst.Length0 && 0 <= k < dst.Length1 && 0 <= j < dst.Length2
                         && 0 <= i < dst.Length3
    {
      dst[nv, k, j, i] := src[nv, k, j, i];
    }
  }
}
