/** The viscous disk test problem: its user-defined radial and meridional boundaries and
    its viscosity. The cell-centred variables of the isothermal build are RHO and
    VX1..VX3; the equilibrium density and rotation the boundaries impose are functions of
    the cell's coordinates (x1, x2) = (r, theta). */
module ViscousDisk {
  import opened Grid

  const RHO := 0
  const VX1 := 1
  const VX2 := 2
  const VX3 := 3
  const NVAR := 4
  const IDIR := 0
  const JDIR := 1

  /** The ghost cells [lo, hi) a boundary fills along one direction, and the cell src
      their copied components come from. */
  datatype GhostRange = GhostRange(lo: int, hi: int, src: int)

  /** The ghost range of `side` for the active range [beg, end) of an extent of np cells:
      the left range [0, beg) copies from beg, the right range [end, np) from end - 1. The
      source is an active cell outside the range, so the fill never overwrites it. */
  function Ghosts(side: BoundarySide, beg: int, end: int, np: int): (r: GhostRange)
    requires 0 <= beg < end <= np
    ensures 0 <= r.lo <= r.hi <= np && beg <= r.src < end
    ensures !(r.lo <= r.src < r.hi)
    ensures side == Left ==> r.lo == 0 && r.hi == beg
    ensures side == Right ==> r.lo == end && r.hi == np
  {
    match side
    case Left => GhostRange(0, beg, beg)
    case Right => GhostRange(end, np, end - 1)
  }

  /** A radial ghost cell, from the value `here` it had and the value `src` of the source
      cell of its row: the equilibrium density `rho`, the copied VX1 and VX2, the
      equilibrium rotation `vphi`. */
  function RadialGhost(nv: int, here: real, src: real, rho: real, vphi: real): real
  {
    if nv == RHO then rho
    else if nv == VX1 || nv == VX2 then src
    else if nv == VX3 then vphi
    else here
  }

  /** A meridional ghost cell: the equilibrium density, the copied VX1, no meridional
      velocity VX2, the equilibrium rotation. */
  function MeridionalGhost(nv: int, here: real, src: real, rho: real, vphi: real): real
  {
    if nv == RHO then rho
    else if nv == VX1 then src
    else if nv == VX2 then 0.0
    else if nv == VX3 then vphi
    else here
  }

  /** The fields the boundaries work on: Vc (variable, k, j, i) and the coordinates x1
      along i and x2 along j, with active ranges [beg, end) along both. */
  predicate Fields(Vc: array4<real>, x1: array<real>, x2: array<real>, beg: seq<int>, end: seq<int>)
  {
    Vc.Length0 == NVAR && x1.Length == Vc.Length3 && x2.Length == Vc.Length2
    && |beg| == 3 && |end| == 3
    && 0 <= beg[IDIR] < end[IDIR] <= Vc.Length3 && 0 <= beg[JDIR] < end[JDIR] <= Vc.Length2
  }

  /** The radial boundary for one ghost cell (k, j, i) whose source cell is (k, j, src). */
  method FillRadialCell(Vc: array4<real>, x1: array<real>, x2: array<real>, src: int,
                        k: int, j: int, i: int, density: (real, real) -> real, rotation: (real, real) -> real)
    requires Vc.Length0 == NVAR && x1.Length == Vc.Length3 && x2.Length == Vc.Length2
    requires 0 <= k < Vc.Length1 && 0 <= j < Vc.Length2 && 0 <= i < Vc.Length3 && 0 <= src < Vc.Length3 && i != src
    modifies Vc
    ensures forall nv, k', j', i' | 0 <= nv < NVAR && 0 <= k' < Vc.Length1 && 0 <= j' < Vc.Length2 && 0 <= i' < Vc.Length3 ::
      Vc[nv, k', j', i'] == if k' == k && j' == j && i' == i
                            then RadialGhost(nv, old(Vc[nv, k', j', i']), old(Vc[nv, k', j', src]),
                                             density(x1[i], x2[j]), rotation(x1[i], x2[j]))
                            else old(Vc[nv, k', j', i'])
  {
    var v1, v2 := Vc[VX1, k, j, src], Vc[VX2, k, j, src];
    Vc[RHO, k, j, i] := density(x1[i], x2[j]);
    Vc[VX1, k, j, i] := v1;
    Vc[VX2, k, j, i] := v2;
    Vc[VX3, k, j, i] := rotation(x1[i], x2[j]);
  }

  /** The meridional boundary for one ghost cell (k, j, i) whose source cell is (k, src, i). */
  method FillMeridionalCell(Vc: array4<real>, x1: array<real>, x2: array<real>, src: int,
                            k: int, j: int, i: int, density: (real, real) -> real, rotation: (real, real) -> real)
    requires Vc.Length0 == NVAR && x1.Length == Vc.Length3 && x2.Length == Vc.Length2
    requires 0 <= k < Vc.Length1 && 0 <= j < Vc.Length2 && 0 <= i < Vc.Length3 && 0 <= src < Vc.Length2 && j != src
    modifies Vc
    ensures forall nv, k', j', i' | 0 <= nv < NVAR && 0 <= k' < Vc.Length1 && 0 <= j' < Vc.Length2 && 0 <= i' < Vc.Length3 ::
      Vc[nv, k', j', i'] == if k' == k && j' == j && i' == i
                            then MeridionalGhost(nv, old(Vc[nv, k', j', i']), old(Vc[nv, k', src, i']),
                                                 density(x1[i], x2[j]), rotation(x1[i], x2[j]))
                            else old(Vc[nv, k', j', i'])
  {
    var v1 := Vc[VX1, k, src, i];
    Vc[RHO, k, j, i] := density(x1[i], x2[j]);
    Vc[VX1, k, j, i] := v1;
    Vc[VX2, k, j, i] := 0.0;
    Vc[VX3, k, j, i] := rotation(x1[i], x2[j]);
  }

  /** The radial part of UserdefBoundary: every cell of the i-range `g` takes the
      equilibrium density and rotation, and VX1, VX2 from cell `g.src` of its row. */
  method FillRadial(Vc: array4<real>, x1: array<real>, x2: array<real>, g: GhostRange,
                    density: (real, real) -> real, rotation: (real, real) -> real)
    requires Vc.Length0 == NVAR && x1.Length == Vc.Length3 && x2.Length == Vc.Length2
    requires 0 <= g.lo <= g.hi <= Vc.Length3 && 0 <= g.src < Vc.Length3 && !(g.lo <= g.src < g.hi)
    modifies Vc
    ensures forall nv, k, j, i | 0 <= nv < NVAR && 0 <= k < Vc.Length1 && 0 <= j < Vc.Length2 && 0 <= i < Vc.Length3 ::
      Vc[nv, k, j, i] == if g.lo <= i < g.hi
                         then RadialGhost(nv, old(Vc[nv, k, j, i]), old(Vc[nv, k, j, g.src]),
                                          density(x1[i], x2[j]), rotation(x1[i], x2[j]))
                         else old(Vc[nv, k, j, i])
  {
    var k := 0;
    while k < Vc.Length1
      invariant 0 <= k <= Vc.Length1
      invariant forall nv, k', j', i' | 0 <= nv < NVAR && 0 <= k' < Vc.Length1 && 0 <= j' < Vc.Length2 && 0 <= i' < Vc.Length3 ::
        Vc[nv, k', j', i'] == if g.lo <= i' < g.hi && k' < k
                              then RadialGhost(nv, old(Vc[nv, k', j', i']), old(Vc[nv, k', j', g.src]),
                                               density(x1[i'], x2[j']), rotation(x1[i'], x2[j']))
                              else old(Vc[nv, k', j', i'])
    {
      var j := 0;
      while j < Vc.Length2
        invariant 0 <= j <= Vc.Length2
        invariant forall nv, k', j', i' | 0 <= nv < NVAR && 0 <= k' < Vc.Length1 && 0 <= j' < Vc.Length2 && 0 <= i' < Vc.Length3 ::
          Vc[nv, k', j', i'] == if g.lo <= i' < g.hi && Before(k', j', 0, k, j, 0)
                                then RadialGhost(nv, old(Vc[nv, k', j', i']), old(Vc[nv, k', j', g.src]),
                                                 density(x1[i'], x2[j']), rotation(x1[i'], x2[j']))
                                else old(Vc[nv, k', j', i'])
      {
        var i := g.lo;
        while i < g.hi
          invariant g.lo <= i <= g.hi
          invariant forall nv, k', j', i' | 0 <= nv < NVAR && 0 <= k' < Vc.Length1 && 0 <= j' < Vc.Length2 && 0 <= i' < Vc.Length3 ::
            Vc[nv, k', j', i'] == if g.lo <= i' < g.hi && Before(k', j', i', k, j, i)
                                  then RadialGhost(nv, old(Vc[nv, k', j', i']), old(Vc[nv, k', j', g.src]),
                                                   density(x1[i'], x2[j']), rotation(x1[i'], x2[j']))
                                  else old(Vc[nv, k', j', i'])
        {
          FillRadialCell(Vc, x1, x2, g.src, k, j, i, density, rotation);
          i := i + 1;
        }
        j := j + 1;
      }
      k := k + 1;
    }
  }

  /** The meridional part of UserdefBoundary: every cell of the j-range `g` takes the
      equilibrium density and rotation, VX1 from row `g.src` of its column, and VX2 = 0. */
  method FillMeridional(Vc: array4<real>, x1: array<real>, x2: array<real>, g: GhostRange,
                        density: (real, real) -> real, rotation: (real, real) -> real)
    requires Vc.Length0 == NVAR && x1.Length == Vc.Length3 && x2.Length == Vc.Length2
    requires 0 <= g.lo <= g.hi <= Vc.Length2 && 0 <= g.src < Vc.Length2 && !(g.lo <= g.src < g.hi)
    modifies Vc
    ensures forall nv, k, j, i | 0 <= nv < NVAR && 0 <= k < Vc.Length1 && 0 <= j < Vc.Length2 && 0 <= i < Vc.Length3 ::
      Vc[nv, k, j, i] == if g.lo <= j < g.hi
                         then MeridionalGhost(nv, old(Vc[nv, k, j, i]), old(Vc[nv, k, g.src, i]),
                                              density(x1[i], x2[j]), rotation(x1[i], x2[j]))
                         else old(Vc[nv, k, j, i])
  {
    var k := 0;
    while k < Vc.Length1
      invariant 0 <= k <= Vc.Length1
      invariant forall nv, k', j', i' | 0 <= nv < NVAR && 0 <= k' < Vc.Length1 && 0 <= j' < Vc.Length2 && 0 <= i' < Vc.Length3 ::
        Vc[nv, k', j', i'] == if g.lo <= j' < g.hi && k' < k
                              then MeridionalGhost(nv, old(Vc[nv, k', j', i']), old(Vc[nv, k', g.src, i']),
                                                   density(x1[i'], x2[j']), rotation(x1[i'], x2[j']))
                              else old(Vc[nv, k', j', i'])
    {
      var j := g.lo;
      while j < g.hi
        invariant g.lo <= j <= g.hi
        invariant forall nv, k', j', i' | 0 <= nv < NVAR && 0 <= k' < Vc.Length1 && 0 <= j' < Vc.Length2 && 0 <= i' < Vc.Length3 ::
          Vc[nv, k', j', i'] == if g.lo <= j' < g.hi && Before(k', j', 0, k, j, 0)
                                then MeridionalGhost(nv, old(Vc[nv, k', j', i']), old(Vc[nv, k', g.src, i']),
                                                     density(x1[i'], x2[j']), rotation(x1[i'], x2[j']))
                                else old(Vc[nv, k', j', i'])
      {
        var i := 0;
        while i < Vc.Length3
          invariant 0 <= i <= Vc.Length3
          invariant forall nv, k', j', i' | 0 <= nv < NVAR && 0 <= k' < Vc.Length1 && 0 <= j' < Vc.Length2 && 0 <= i' < Vc.Length3 ::
            Vc[nv, k', j', i'] == if g.lo <= j' < g.hi && Before(k', j', i', k, j, i)
                                  then MeridionalGhost(nv, old(Vc[nv, k', j', i']), old(Vc[nv, k', g.src, i']),
                                                       density(x1[i'], x2[j']), rotation(x1[i'], x2[j']))
                                  else old(Vc[nv, k', j', i'])
        {
          FillMeridionalCell(Vc, x1, x2, g.src, k, j, i, density, rotation);
          i := i + 1;
        }
        j := j + 1;
      }
      k := k + 1;
    }
  }

  /** UserdefBoundary: along IDIR the ghost i-range of `side` is filled as a radial
      boundary, along JDIR the ghost j-range as a meridional boundary, each copying from
      the active cell next to the range; nothing is done along KDIR. Cells outside the
      range, the source cells among them, are unchanged. */
  method UserdefBoundary(Vc: array4<real>, x1: array<real>, x2: array<real>, beg: seq<int>, end: seq<int>,
                         dir: int, side: BoundarySide, density: (real, real) -> real, rotation: (real, real) -> real)
    requires Fields(Vc, x1, x2, beg, end)
    modifies Vc
    ensures dir == IDIR ==>
      var g := Ghosts(side, beg[IDIR], end[IDIR], Vc.Length3);
      forall nv, k, j, i | 0 <= nv < NVAR && 0 <= k < Vc.Length1 && 0 <= j < Vc.Length2 && 0 <= i < Vc.Length3 ::
        Vc[nv, k, j, i] == if g.lo <= i < g.hi
                           then RadialGhost(nv, old(Vc[nv, k, j, i]), old(Vc[nv, k, j, g.src]),
                                            density(x1[i], x2[j]), rotation(x1[i], x2[j]))
                           else old(Vc[nv, k, j, i])
    ensures dir == JDIR ==>
      var g := Ghosts(side, beg[JDIR], end[JDIR], Vc.Length2);
      forall nv, k, j, i | 0 <= nv < NVAR && 0 <= k < Vc.Length1 && 0 <= j < Vc.Length2 && 0 <= i < Vc.Length3 ::
        Vc[nv, k, j, i] == if g.lo <= j < g.hi
                           then MeridionalGhost(nv, old(Vc[nv, k, j, i]), old(Vc[nv, k, g.src, i]),
                                                density(x1[i], x2[j]), rotation(x1[i], x2[j]))
                           else old(Vc[nv, k, j, i])
    ensures dir != IDIR && dir != JDIR ==> unchanged(Vc)
  {
    if dir == IDIR {
      FillRadial(Vc, x1, x2, Ghosts(side, beg[IDIR], end[IDIR], Vc.Length3), density, rotation);
    }
    if dir == JDIR {
      FillMeridional(Vc, x1, x2, Ghosts(side, beg[JDIR], end[JDIR], Vc.Length2), density, rotation);
    }
  }

  /** The dynamic viscosity of a fluid of kinematic viscosity `nu` and density `rho`. */
  function DynamicViscosity(nu: real, rho: real): real
  {
    nu * rho
  }

  /** MyViscosity for cell (k, j, i). */
  method ViscosityCell(Vc: array4<real>, x1: array<real>, x2: array<real>, eta1: array3<real>, eta2: array3<real>,
                       nu: (real, real) -> real, k: int, j: int, i: int)
    requires Vc.Length0 == NVAR && x1.Length == Vc.Length3 && x2.Length == Vc.Length2
    requires eta1.Length0 == Vc.Length1 && eta1.Length1 == Vc.Length2 && eta1.Length2 == Vc.Length3
    requires eta2.Length0 == Vc.Length1 && eta2.Length1 == Vc.Length2 && eta2.Length2 == Vc.Length3
    requires eta1 != eta2
    requires 0 <= k < Vc.Length1 && 0 <= j < Vc.Length2 && 0 <= i < Vc.Length3
    modifies eta1, eta2
    ensures forall k', j', i' | 0 <= k' < Vc.Length1 && 0 <= j' < Vc.Length2 && 0 <= i' < Vc.Length3 ::
      eta1[k', j', i'] == if k' == k && j' == j && i' == i then DynamicViscosity(nu(x1[i'], x2[j']), Vc[RHO, k', j', i'])
                          else old(eta1[k', j', i'])
    ensures forall k', j', i' | 0 <= k' < Vc.Length1 && 0 <= j' < Vc.Length2 && 0 <= i' < Vc.Length3 ::
      eta2[k', j', i'] == if k' == k && j' == j && i' == i then 0.0 else old(eta2[k', j', i'])
  {
    eta1[k, j, i] := DynamicViscosity(nu(x1[i], x2[j]), Vc[RHO, k, j, i]);
    eta2[k, j, i] := 0.0;
  }

  /** MyViscosity: the dynamic viscosity eta1 is the kinematic viscosity nu(x1, x2) of the
      alpha prescription times the density, and the second viscosity eta2 is zero, in every
      cell of the full extent. */
  method MyViscosity(Vc: array4<real>, x1: array<real>, x2: array<real>, eta1: array3<real>, eta2: array3<real>,
                     nu: (real, real) -> real)
    requires Vc.Length0 == NVAR && x1.Length == Vc.Length3 && x2.Length == Vc.Length2
    requires eta1.Length0 == Vc.Length1 && eta1.Length1 == Vc.Length2 && eta1.Length2 == Vc.Length3
    requires eta2.Length0 == Vc.Length1 && eta2.Length1 == Vc.Length2 && eta2.Length2 == Vc.Length3
    requires eta1 != eta2
    modifies eta1, eta2
    ensures forall k, j, i | 0 <= k < Vc.Length1 && 0 <= j < Vc.Length2 && 0 <= i < Vc.Length3 ::
      eta1[k, j, i] == DynamicViscosity(nu(x1[i], x2[j]), Vc[RHO, k, j, i])
    ensures forall k, j, i | 0 <= k < Vc.Length1 && 0 <= j < Vc.Length2 && 0 <= i < Vc.Length3 ::
      eta2[k, j, i] == 0.0
  {
    var k := 0;
    while k < Vc.Length1
      invariant 0 <= k <= Vc.Length1
      invariant forall k', j', i' | 0 <= k' < Vc.Length1 && 0 <= j' < Vc.Length2 && 0 <= i' < Vc.Length3 ::
        eta1[k', j', i'] == if k' < k then DynamicViscosity(nu(x1[i'], x2[j']), Vc[RHO, k', j', i']) else old(eta1[k', j', i'])
      invariant forall k', j', i' | 0 <= k' < Vc.Length1 && 0 <= j' < Vc.Length2 && 0 <= i' < Vc.Length3 ::
        eta2[k', j', i'] == if k' < k then 0.0 else old(eta2[k', j', i'])
    {
      var j := 0;
      while j < Vc.Length2
        invariant 0 <= j <= Vc.Length2
        invariant forall k', j', i' | 0 <= k' < Vc.Length1 && 0 <= j' < Vc.Length2 && 0 <= i' < Vc.Length3 ::
          eta1[k', j', i'] == if Before(k', j', 0, k, j, 0) then DynamicViscosity(nu(x1[i'], x2[j']), Vc[RHO, k', j', i'])
                              else old(eta1[k', j', i'])
        invariant forall k', j', i' | 0 <= k' < Vc.Length1 && 0 <= j' < Vc.Length2 && 0 <= i' < Vc.Length3 ::
          eta2[k', j', i'] == if Before(k', j', 0, k, j, 0) then 0.0 else old(eta2[k', j', i'])
      {
        var i := 0;
        while i < Vc.Length3
          invariant 0 <= i <= Vc.Length3
          invariant forall k', j', i' | 0 <= k' < Vc.Length1 && 0 <= j' < Vc.Length2 && 0 <= i' < Vc.Length3 ::
            eta1[k', j', i'] == if Before(k', j', i', k, j, i) then DynamicViscosity(nu(x1[i'], x2[j']), Vc[RHO, k', j', i'])
                                else old(eta1[k', j', i'])
          invariant forall k', j', i' | 0 <= k' < Vc.Length1 && 0 <= j' < Vc.Length2 && 0 <= i' < Vc.Length3 ::
            eta2[k', j', i'] == if Before(k', j', i', k, j, i) then 0.0 else old(eta2[k', j', i'])
        {
          ViscosityCell(Vc, x1, x2, eta1, eta2, nu, k, j, i);
          i := i + 1;
        }
        j := j + 1;
      }
      k := k + 1;
    }
  }
}
