/** The magnetised disk test problem: its user-defined inner radial boundary and its
    initial flow. The cell-centred variables of the MHD build are RHO, VX1..VX3,
    BX1..BX3 and PRS; the face-centred field Vs holds BX1s..BX3s. */
module MhdDisk {
  import opened Grid
  import ParkMiller

  const RHO := 0
  const VX1 := 1
  const VX2 := 2
  const VX3 := 3
  const BX1 := 4
  const BX3 := 6
  const PRS := 7
  const NVAR := 8
  const BX1s := 0
  const BX2s := 1
  const BX3s := 2
  const IDIR := 0

  /** Vc (variable, k, j, i) and the face field Vs (component, k, j, i), which extends at
      least as far as Vc along every direction, and the radial coordinates x1. */
  predicate Fields(Vc: array4<real>, Vs: array4<real>, x1: array<real>)
  {
    Vc.Length0 == NVAR && Vs.Length0 == 3 && Vc != Vs
    && Vs.Length1 >= Vc.Length1 && Vs.Length2 >= Vc.Length2 && Vs.Length3 >= Vc.Length3
    && x1.Length == Vc.Length3
  }

  /** A ghost cell on the inner radial boundary, from the cell-centred value `here` it
      had and the value `src` of the first active cell of its row: density and pressure
      are copied, the velocities are copied and scaled by `factor`, and the cell-centred
      field is left alone. */
  function LeftGhost(nv: int, here: real, src: real, factor: real): real
  {
    if nv == RHO || nv == PRS then src
    else if VX1 <= nv <= VX3 then src * factor
    else here
  }

  /** The face field of that ghost cell: BX2s is copied, the rest is left alone. */
  function LeftGhostFace(c: int, here: real, src: real): real
  {
    if c == BX2s then src else here
  }

  /** The velocity scaling of ghost cell i: sqrt(x1(i) / x1(ighost)). */
  function Scaling(x1: array<real>, i: int, ighost: int, sqrt: real -> real): real
    requires 0 <= i < x1.Length && 0 <= ighost < x1.Length && x1[ighost] != 0.0
    reads x1
  {
    sqrt(x1[i] / x1[ighost])
  }

  /** UserdefBoundary for the cell-centred variables of one ghost cell (k, j, i) of the
      inner radial boundary. */
  method FillLeftCell(Vc: array4<real>, x1: array<real>, ighost: int, k: int, j: int, i: int,
                      sqrt: real -> real)
    requires Vc.Length0 == NVAR && x1.Length == Vc.Length3 && 0 <= ighost < Vc.Length3 && x1[ighost] != 0.0
    requires 0 <= k < Vc.Length1 && 0 <= j < Vc.Length2 && 0 <= i < ighost
    modifies Vc
    ensures forall nv, k', j', i' | 0 <= nv < NVAR && 0 <= k' < Vc.Length1 && 0 <= j' < Vc.Length2 && 0 <= i' < Vc.Length3 ::
      Vc[nv, k', j', i'] == if k' == k && j' == j && i' == i
                            then LeftGhost(nv, old(Vc[nv, k', j', i']), old(Vc[nv, k', j', ighost]), Scaling(x1, i, ighost, sqrt))
                            else old(Vc[nv, k', j', i'])
  {
    var f := Scaling(x1, i, ighost, sqrt);
    var rho, prs := Vc[RHO, k, j, ighost], Vc[PRS, k, j, ighost];
    var v1, v2, v3 := Vc[VX1, k, j, ighost], Vc[VX2, k, j, ighost], Vc[VX3, k, j, ighost];
    Vc[RHO, k, j, i] := rho;
    Vc[PRS, k, j, i] := prs;
    Vc[VX1, k, j, i] := v1 * f;
    Vc[VX2, k, j, i] := v2 * f;
    Vc[VX3, k, j, i] := v3 * f;
  }

  /** UserdefBoundary for the face field of one ghost cell (k, j, i). */
  method FillLeftFace(Vs: array4<real>, ighost: int, k: int, j: int, i: int)
    requires Vs.Length0 == 3 && 0 <= ighost < Vs.Length3
    requires 0 <= k < Vs.Length1 && 0 <= j < Vs.Length2 && 0 <= i < ighost
    modifies Vs
    ensures forall c, k', j', i' | 0 <= c < 3 && 0 <= k' < Vs.Length1 && 0 <= j' < Vs.Length2 && 0 <= i' < Vs.Length3 ::
      Vs[c, k', j', i'] == if k' == k && j' == j && i' == i
                           then LeftGhostFace(c, old(Vs[c, k', j', i']), old(Vs[c, k', j', ighost]))
                           else old(Vs[c, k', j', i'])
  {
    Vs[BX2s, k, j, i] := Vs[BX2s, k, j, ighost];
  }

  /** UserdefBoundary: only the inner radial boundary is user-defined. Its ghost cells
      i < ighost = nghost take density, pressure and BX2s from cell ighost of their row, and
      its velocities scaled by sqrt(x1(i) / x1(ighost)); the source column ighost and every
      other cell are unchanged. Every other (dir, side) changes nothing. */
  method UserdefBoundary(Vc: array4<real>, Vs: array4<real>, x1: array<real>, nghost: int,
                         dir: int, side: BoundarySide, sqrt: real -> real)
    requires dir == IDIR && side == Left ==>
      Fields(Vc, Vs, x1) && 0 <= nghost < Vc.Length3 && x1[nghost] != 0.0
    modifies Vc, Vs
    ensures dir == IDIR && side == Left ==>
      forall nv, k, j, i | 0 <= nv < NVAR && 0 <= k < Vc.Length1 && 0 <= j < Vc.Length2 && 0 <= i < Vc.Length3 ::
        Vc[nv, k, j, i] == if i < nghost
                           then LeftGhost(nv, old(Vc[nv, k, j, i]), old(Vc[nv, k, j, nghost]), Scaling(x1, i, nghost, sqrt))
                           else old(Vc[nv, k, j, i])
    ensures dir == IDIR && side == Left ==>
      forall c, k, j, i | 0 <= c < 3 && 0 <= k < Vs.Length1 && 0 <= j < Vs.Length2 && 0 <= i < Vs.Length3 ::
        Vs[c, k, j, i] == if k < Vc.Length1 && j < Vc.Length2 && i < nghost
                          then LeftGhostFace(c, old(Vs[c, k, j, i]), old(Vs[c, k, j, nghost]))
                          else old(Vs[c, k, j, i])
    ensures !(dir == IDIR && side == Left) ==> unchanged(Vc) && unchanged(Vs)
  {
    if dir != IDIR || side != Left {
      return;
    }
    var ighost := nghost;
    var k := 0;
    while k < Vc.Length1
      invariant 0 <= k <= Vc.Length1
      invariant forall nv, k', j', i' | 0 <= nv < NVAR && 0 <= k' < Vc.Length1 && 0 <= j' < Vc.Length2 && 0 <= i' < Vc.Length3 ::
        Vc[nv, k', j', i'] == if i' < ighost && k' < k
                              then LeftGhost(nv, old(Vc[nv, k', j', i']), old(Vc[nv, k', j', ighost]), Scaling(x1, i', ighost, sqrt))
                              else old(Vc[nv, k', j', i'])
      invariant forall c, k', j', i' | 0 <= c < 3 && 0 <= k' < Vs.Length1 && 0 <= j' < Vs.Length2 && 0 <= i' < Vs.Length3 ::
        Vs[c, k', j', i'] == if j' < Vc.Length2 && i' < ighost && k' < k
                             then LeftGhostFace(c, old(Vs[c, k', j', i']), old(Vs[c, k', j', ighost]))
                             else old(Vs[c, k', j', i'])
    {
      var j := 0;
      while j < Vc.Length2
        invariant 0 <= j <= Vc.Length2
        invariant forall nv, k', j', i' | 0 <= nv < NVAR && 0 <= k' < Vc.Length1 && 0 <= j' < Vc.Length2 && 0 <= i' < Vc.Length3 ::
          Vc[nv, k', j', i'] == if i' < ighost && Before(k', j', 0, k, j, 0)
                                then LeftGhost(nv, old(Vc[nv, k', j', i']), old(Vc[nv, k', j', ighost]), Scaling(x1, i', ighost, sqrt))
                                else old(Vc[nv, k', j', i'])
        invariant forall c, k', j', i' | 0 <= c < 3 && 0 <= k' < Vs.Length1 && 0 <= j' < Vs.Length2 && 0 <= i' < Vs.Length3 ::
          Vs[c, k', j', i'] == if j' < Vc.Length2 && i' < ighost && Before(k', j', 0, k, j, 0)
                               then LeftGhostFace(c, old(Vs[c, k', j', i']), old(Vs[c, k', j', ighost]))
                               else old(Vs[c, k', j', i'])
      {
        var i := 0;
        while i < ighost
          invariant 0 <= i <= ighost
          invariant forall nv, k', j', i' | 0 <= nv < NVAR && 0 <= k' < Vc.Length1 && 0 <= j' < Vc.Length2 && 0 <= i' < Vc.Length3 ::
            Vc[nv, k', j', i'] == if i' < ighost && Before(k', j', i', k, j, i)
                                  then LeftGhost(nv, old(Vc[nv, k', j', i']), old(Vc[nv, k', j', ighost]), Scaling(x1, i', ighost, sqrt))
                                  else old(Vc[nv, k', j', i'])
          invariant forall c, k', j', i' | 0 <= c < 3 && 0 <= k' < Vs.Length1 && 0 <= j' < Vs.Length2 && 0 <= i' < Vs.Length3 ::
            Vs[c, k', j', i'] == if j' < Vc.Length2 && i' < ighost && Before(k', j', i', k, j, i)
                                 then LeftGhostFace(c, old(Vs[c, k', j', i']), old(Vs[c, k', j', ighost]))
                                 else old(Vs[c, k', j', i'])
        {
          FillLeftCell(Vc, x1, ighost, k, j, i, sqrt);
          FillLeftFace(Vs, ighost, k, j, i);
          i := i + 1;
        }
        j := j + 1;
      }
      k := k + 1;
    }
  }

  /** The VX3 perturbation drawn from the generator state `q`: 1e-2 * (0.5 - randm()). */
  function Perturbation(q: int): real
  {
    0.01 * (0.5 - ParkMiller.Value(q))
  }

  /** The perturbation of a draw is at most 0.005 in magnitude. */
  lemma PerturbationBound(q: int)
    requires 0 <= q < ParkMiller.M
    ensures -0.005 < Perturbation(q) <= 0.005
  {
    ParkMiller.ValueInUnit(q);
  }

  /** The initial cell-centred state of a cell at radius r that drew generator state `q`,
      from the value `here` it had: unit density, pressure 1e-2, no radial velocity, the
      Keplerian VX2 = r^(-1/2), the random VX3; the cell-centred field is left alone. */
  function InitialVc(nv: int, here: real, r: real, q: int, keplerian: real -> real): real
  {
    if nv == RHO then 1.0
    else if nv == PRS then 0.01
    else if nv == VX1 then 0.0
    else if nv == VX2 then keplerian(r)
    else if nv == VX3 then Perturbation(q)
    else here
  }

  /** The initial face field of a cell at radius r: BX3s = 1e-2 * VX2, the rest zero. */
  function InitialVs(c: int, r: real, keplerian: real -> real): real
  {
    if c == BX3s then 0.01 * keplerian(r) else 0.0
  }

  /** InitFlow for cell (k, j, i), which draws one number. */
  method InitCell(Vc: array4<real>, Vs: array4<real>, x1: array<real>, g: ParkMiller.Generator,
                  keplerian: real -> real, k: int, j: int, i: int)
    requires Fields(Vc, Vs, x1) && g.Valid()
    requires 0 <= k < Vc.Length1 && 0 <= j < Vc.Length2 && 0 <= i < Vc.Length3
    modifies Vc, Vs, g
    ensures g.Valid() && g.in0 == ParkMiller.Next(old(g.in0))
    ensures forall nv, k', j', i' | 0 <= nv < NVAR && 0 <= k' < Vc.Length1 && 0 <= j' < Vc.Length2 && 0 <= i' < Vc.Length3 ::
      Vc[nv, k', j', i'] == if k' == k && j' == j && i' == i
                            then InitialVc(nv, old(Vc[nv, k', j', i']), x1[i], g.in0, keplerian)
                            else old(Vc[nv, k', j', i'])
    ensures forall c, k', j', i' | 0 <= c < 3 && 0 <= k' < Vs.Length1 && 0 <= j' < Vs.Length2 && 0 <= i' < Vs.Length3 ::
      Vs[c, k', j', i'] == if k' == k && j' == j && i' == i then InitialVs(c, x1[i], keplerian)
                           else old(Vs[c, k', j', i'])
  {
    var r := x1[i];
    var rnd := g.Randm();
    Vc[RHO, k, j, i] := 1.0;
    Vc[PRS, k, j, i] := 0.01;
    Vc[VX1, k, j, i] := 0.0;
    Vc[VX2, k, j, i] := keplerian(r);
    Vc[VX3, k, j, i] := 0.01 * (0.5 - rnd);
    Vs[BX1s, k, j, i] := 0.0;
    Vs[BX2s, k, j, i] := 0.0;
    Vs[BX3s, k, j, i] := 0.01 * Vc[VX2, k, j, i];
  }

  /** Setup::InitFlow: every cell of the full extent gets the initial state, the cell at
      position n of the k, j, i visiting order taking the (n + 1)-th number drawn; the
      generator ends advanced by one draw per cell. The VX3 perturbation is at most 0.005
      in magnitude, and BX3s is 1e-2 * VX2. */
  method InitFlow(Vc: array4<real>, Vs: array4<real>, x1: array<real>, g: ParkMiller.Generator,
                  keplerian: real -> real)
    requires Fields(Vc, Vs, x1) && g.Valid()
    modifies Vc, Vs, g
    ensures g.Valid() && g.in0 == ParkMiller.Iterate(old(g.in0), Position(Vc.Length1, 0, 0, Vc.Length2, Vc.Length3))
    ensures forall nv, k, j, i | 0 <= nv < NVAR && 0 <= k < Vc.Length1 && 0 <= j < Vc.Length2 && 0 <= i < Vc.Length3 ::
      Vc[nv, k, j, i] == InitialVc(nv, old(Vc[nv, k, j, i]), x1[i],
                                   ParkMiller.Iterate(old(g.in0), Position(k, j, i, Vc.Length2, Vc.Length3) + 1), keplerian)
    ensures forall k, j, i | 0 <= k < Vc.Length1 && 0 <= j < Vc.Length2 && 0 <= i < Vc.Length3 ::
      -0.005 < Vc[VX3, k, j, i] <= 0.005 && Vs[BX3s, k, j, i] == 0.01 * Vc[VX2, k, j, i]
    ensures forall c, k, j, i | 0 <= c < 3 && 0 <= k < Vs.Length1 && 0 <= j < Vs.Length2 && 0 <= i < Vs.Length3 ::
      Vs[c, k, j, i] == if k < Vc.Length1 && j < Vc.Length2 && i < Vc.Length3 then InitialVs(c, x1[i], keplerian)
                        else old(Vs[c, k, j, i])
  {
    ghost var s0 := g.in0;
    var nk, nj, ni := Vc.Length1, Vc.Length2, Vc.Length3;
    var k := 0;
    while k < nk
      invariant 0 <= k <= nk
      invariant g.Valid() && g.in0 == ParkMiller.Iterate(s0, Position(k, 0, 0, nj, ni))
      invariant forall nv, k', j', i' | 0 <= nv < NVAR && 0 <= k' < nk && 0 <= j' < nj && 0 <= i' < ni ::
        Vc[nv, k', j', i'] == if k' < k
                              then InitialVc(nv, old(Vc[nv, k', j', i']), x1[i'],
                                             ParkMiller.Iterate(s0, Position(k', j', i', nj, ni) + 1), keplerian)
                              else old(Vc[nv, k', j', i'])
      invariant forall c, k', j', i' | 0 <= c < 3 && 0 <= k' < Vs.Length1 && 0 <= j' < Vs.Length2 && 0 <= i' < Vs.Length3 ::
        Vs[c, k', j', i'] == if j' < nj && i' < ni && k' < k then InitialVs(c, x1[i'], keplerian)
                             else old(Vs[c, k', j', i'])
    {
      var j := 0;
      while j < nj
        invariant 0 <= j <= nj
        invariant g.Valid() && g.in0 == ParkMiller.Iterate(s0, Position(k, j, 0, nj, ni))
        invariant forall nv, k', j', i' | 0 <= nv < NVAR && 0 <= k' < nk && 0 <= j' < nj && 0 <= i' < ni ::
          Vc[nv, k', j', i'] == if Before(k', j', 0, k, j, 0)
                                then InitialVc(nv, old(Vc[nv, k', j', i']), x1[i'],
                                               ParkMiller.Iterate(s0, Position(k', j', i', nj, ni) + 1), keplerian)
                                else old(Vc[nv, k', j', i'])
        invariant forall c, k', j', i' | 0 <= c < 3 && 0 <= k' < Vs.Length1 && 0 <= j' < Vs.Length2 && 0 <= i' < Vs.Length3 ::
          Vs[c, k', j', i'] == if j' < nj && i' < ni && Before(k', j', 0, k, j, 0) then InitialVs(c, x1[i'], keplerian)
                               else old(Vs[c, k', j', i'])
      {
        var i := 0;
        while i < ni
          invariant 0 <= i <= ni
          invariant g.Valid() && g.in0 == ParkMiller.Iterate(s0, Position(k, j, i, nj, ni))
          invariant forall nv, k', j', i' | 0 <= nv < NVAR && 0 <= k' < nk && 0 <= j' < nj && 0 <= i' < ni ::
            Vc[nv, k', j', i'] == if Before(k', j', i', k, j, i)
                                  then InitialVc(nv, old(Vc[nv, k', j', i']), x1[i'],
                                                 ParkMiller.Iterate(s0, Position(k', j', i', nj, ni) + 1), keplerian)
                                  else old(Vc[nv, k', j', i'])
          invariant forall c, k', j', i' | 0 <= c < 3 && 0 <= k' < Vs.Length1 && 0 <= j' < Vs.Length2 && 0 <= i' < Vs.Length3 ::
            Vs[c, k', j', i'] == if j' < nj && i' < ni && Before(k', j', i', k, j, i) then InitialVs(c, x1[i'], keplerian)
                                 else old(Vs[c, k', j', i'])
        {
          InitCell(Vc, Vs, x1, g, keplerian, k, j, i);
          PositionNextCell(k, j, i, nj, ni);
          i := i + 1;
        }
        PositionNextRow(k, j, nj, ni);
        j := j + 1;
      }
      PositionNextPlane(k, nj, ni);
      k := k + 1;
    }
    forall k', j', i' | 0 <= k' < nk && 0 <= j' < nj && 0 <= i' < ni
      ensures -0.005 < Vc[VX3, k', j', i'] <= 0.005
    {
      ParkMiller.IterateInRange(s0, Position(k', j', i', nj, ni) + 1);
      PerturbationBound(ParkMiller.Iterate(s0, Position(k', j', i', nj, ni) + 1));
    }
  }
}
