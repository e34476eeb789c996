/** The Runge-Kutta-Legendre driver: it advances the parabolic terms of a data block over
    one hyperbolic step dt_hyp by a cycle of s stages, each of which recomputes the
    parabolic right-hand side dU and combines it, by the recursion of RklCoefficients,
    with the states of the two previous stages. */
module Rkl {
  import opened Wrappers
  import opened Grid
  import opened Host
  import opened RklCoefficients

  /** The larger of two values, as std::fmax on ordered operands. */
  function FMax(a: real, b: real): (m: real)
    ensures m >= a && m >= b && (m == a || m == b)
  {
    if a >= b then a else b
  }

  /** The contribution -(F_fwd - F_here)/dV of a pair of faces to the right-hand side,
      plus the viscous source term when viscosity is integrated by the driver. */
  function RhsTerm(fluxFwd: real, flux: real, dv: real, haveViscosity: bool, src: real): (r: real)
    requires dv != 0.0
    // without the source term, the cell's volume times its rate of change is the net inflow
    ensures (r - (if haveViscosity then src else 0.0)) * dv == flux - fluxFwd
  {
    var rhs := -(fluxFwd - flux) / dv;
    if haveViscosity then rhs + src else rhs
  }

  /** The square of a cell width, which is positive. */
  function Square(dl: real): (d: real)
    requires dl > 0.0
    ensures d > 0.0
  {
    var e := dl;
    MulPos(dl, e);
    dl * e
  }

  /** The contribution 0.5 * max(dMaxFwd, dMax) / dl^2 of one direction to the inverse
      parabolic time step: non-negative when the diffusion coefficient is, positive when
      it is positive. */
  function InvDtTerm(dMaxFwd: real, dMax: real, dl: real): (inc: real)
    requires dl > 0.0
    ensures dMax >= 0.0 ==> inc >= 0.0
    ensures dMax > 0.0 ==> inc > 0.0
  {
    var m := FMax(dMaxFwd, dMax);
    if m >= 0.0 then DivNonNeg(0.5 * m, Square(dl)); 0.5 * m / Square(dl)
    else 0.5 * m / Square(dl)
  }

  /** dt is the parabolic time step of the largest inverse time step m > 0:
      (cfl * (1 / m)) / 2. */
  predicate ParabolicDt(dt: real, cfl: real, m: real)
  {
    m > 0.0 && dt == (cfl * (1.0 / m)) / 2.0
  }

  /** The stage count of a cycle whose ratio of hyperbolic to parabolic step is `ratio`,
      with `sqrt` for std::sqrt. */
  function StagesOf(order: Order, ratio: real, sqrt: real -> real): (s: int)
    requires ratio >= 0.0
    requires forall x: real | x >= 0.0 :: sqrt(x) >= 0.0 && sqrt(x) * sqrt(x) == x
  {
    StageCount(order, ratio, sqrt(Discriminant(order, ratio)))
  }

  /** The two assignments of the time step in ComputeDt: dt = 1 / m, then
      dt = (cfl * dt) / 2. */
  method ParabolicStep(cfl: real, m: real) returns (dt: real)
    requires m > 0.0
    ensures ParabolicDt(dt, cfl, m)
    ensures cfl > 0.0 ==> dt > 0.0
  {
    dt := 1.0 / m;
    dt := (cfl * dt) / 2.0;
    if cfl > 0.0 {
      DivNonNeg(1.0, m);
      assert (1.0 / m) * m == 1.0;
      MulPos(cfl, 1.0 / m);
    }
  }

  /** The stage count of a cycle: from scrh = dt_hyp / dt, the smallest stage count whose
      stability polynomial exceeds the target of scrh (StageCount). */
  method StageCountOf(order: Order, dtHyp: real, dt: real, sqrt: real -> real) returns (s: int)
    requires dtHyp >= 0.0 && dt > 0.0
    requires forall x: real | x >= 0.0 :: sqrt(x) >= 0.0 && sqrt(x) * sqrt(x) == x
    ensures dtHyp / dt >= 0.0 && s == StagesOf(order, dtHyp / dt, sqrt)
    ensures s >= MinStages(order)
  {
    DivNonNeg(dtHyp, dt);
    var scrh := dtHyp / dt;
    s := StageCount(order, scrh, sqrt(Discriminant(order, scrh)));
  }

  /** 1 along the direction `dir` of the index `d`, 0 along the others. */
  function Offset(dir: int, d: int): int
  {
    if dir == d then 1 else 0
  }

  /** The index along dir of cell (k, j, i). */
  function AlongIndex(dir: int, k: int, j: int, i: int): int
  {
    if dir == IDIR then i else if dir == JDIR then j else k
  }

  /** ig = ioffset*i + joffset*j + koffset*k is the index along dir. */
  lemma OffsetIndex(dir: int, k: int, j: int, i: int)
    requires 0 <= dir < DIMENSIONS
    ensures Offset(dir, IDIR) * i + Offset(dir, JDIR) * j + Offset(dir, KDIR) * k == AlongIndex(dir, k, j, i)
  {
  }

  /** The coefficients of stage j >= 2 of RKL_Cycle: mu_j, nu_j, mu~_j and gamma_j,
      computed from w1 and, for the second-order scheme, from the running b_j, b_{j-1},
      b_{j-2} and a_{j-1}, which are then advanced to stage j + 1. The first-order scheme
      has no dU0 term (gamma 0) and no b's. */
  method AdvanceCoefficients(order: Order, s: int, j: int, w1: real, bj: real, bjm1: real, bjm2: real, ajm1: real)
    returns (mu: real, nu: real, muTilde: real, gamma: real, bj': real, bjm1': real, bjm2': real, ajm1': real)
    requires s >= MinStages(order) && j >= 2 && w1 == W1(order, s)
    requires order == Second ==> bj == B(j) && bjm1 == B(j - 1) && bjm2 == B(j - 2) && ajm1 == 1.0 - B(j - 1)
    ensures mu == Mu(order, j) && nu == Nu(order, j)
    ensures muTilde == MuTilde(order, s, j) && gamma == Gamma(order, s, j)
    ensures order == Second ==> bj' == B(j + 1) && bjm1' == B(j) && bjm2' == B(j - 1) && ajm1' == 1.0 - B(j)
  {
    var J := j as real;
    bj', bjm1', bjm2', ajm1' := bj, bjm1, bjm2, ajm1;
    match order {
      case First =>
        mu := MuFrom(order, J, bj, 1.0);
        muTilde := MuTildeFrom(w1, mu);
        nu := NuFrom(order, J, bj, 1.0);
        gamma := GammaFrom(order, ajm1, muTilde);
      case Second =>
        mu := MuFrom(order, J, bj, bjm1);
        muTilde := MuTildeFrom(w1, mu);
        gamma := GammaFrom(order, ajm1, muTilde);
        nu := NuFrom(order, J, bj, bjm2);
        bjm2' := bjm1;
        bjm1' := bj;
        ajm1' := 1.0 - bjm1';
        NextB(j);
        bj' := 0.5 * ((j * j) as real + 3.0 * J) / ((j * j) as real + 3.0 * J + 2.0);
    }
  }

  /** The time at which stage j + 1 of a cycle of s stages from t over dt_hyp is
      evaluated, or the end time for j = s. */
  method NextStageTime(order: Order, s: int, t: real, dtHyp: real, j: int) returns (time: real)
    requires s >= MinStages(order) && 1 <= j <= s
    ensures time == StageTimes(order, s, t, dtHyp, s + 1)[j]
    ensures StageTimes(order, s, t, dtHyp, j) + [time] == StageTimes(order, s, t, dtHyp, j + 1)
  {
    StageTimeAt(order, s, t, dtHyp, s + 1, j);
    time := t + dtHyp * StageOffset(order, s, j);
  }

  /** The values at index c of the stage snapshots dUs, in stage order; an index that a
      snapshot lacks reads as 0. */
  ghost function Column(dUs: seq<imap<Index4, real>>, c: Index4): seq<real>
  {
    seq(|dUs|, m requires 0 <= m < |dUs| => if c in dUs[m] then dUs[m][c] else 0.0)
  }

  /** Adding a snapshot adds its value at c to the column of c. */
  lemma ColumnExtend(dUs: seq<imap<Index4, real>>, x: imap<Index4, real>, c: Index4)
    ensures Column(dUs + [x], c) == Column(dUs, c) + [if c in x then x[c] else 0.0]
  {
    var a, b := Column(dUs + [x], c), Column(dUs, c) + [if c in x then x[c] else 0.0];
    assert |a| == |b|;
    forall m | 0 <= m < |a|
      ensures a[m] == b[m]
    {
      if m < |dUs| {
        assert (dUs + [x])[m] == dUs[m];
      }
    }
  }

  /** A column whose every value is du ends the recursion of s stages at y0 + dt_hyp * du. */
  lemma ConstantColumn(order: Order, s: int, dtHyp: real, y0: real, du: real, dUs: seq<imap<Index4, real>>, c: Index4)
    requires s >= MinStages(order) && |dUs| == s - 1
    requires forall m | 0 <= m < |dUs| :: c in dUs[m] && dUs[m][c] == du
    ensures Recursion(order, s, dtHyp, y0, du, Column(dUs, c)).1 == y0 + dtHyp * du
  {
    var col := Column(dUs, c);
    assert forall m | 0 <= m < |col| :: col[m] == du;
    ConstantRightHandSide(order, s, dtHyp, y0, du, col);
  }

  /** One more stage derivative du advances the recursion by stage j = |dus| + 2: the
      current stage becomes the previous one, and the new current stage is the stage
      value of j. */
  lemma RecursionExtend(order: Order, s: int, j: int, dtHyp: real, y0: real, du0: real, dus: seq<real>, du: real)
    requires s >= MinStages(order) && |dus| == j - 2
    ensures var r := Recursion(order, s, dtHyp, y0, du0, dus);
      Recursion(order, s, dtHyp, y0, du0, dus + [du])
      == (r.1, StageValue(order, Mu(order, j), Nu(order, j), MuTilde(order, s, j), Gamma(order, s, j), dtHyp,
                          r.1, r.0, y0, du, du0))
  {
    assert (dus + [du])[..|dus|] == dus;
  }

  class RKLegendre {
    /** The data block the driver is attached to. */
    const data: DataBlock
    /** dU: variation of the cell-centred conservative variables in the current stage;
        dU0: dU of the first stage; Uc1: Uc of the previous stage. */
    const dU: array4<real>
    const dU0: array4<real>
    const Uc1: array4<real>
    /** RKL_ORDER. */
    const order: Order
    /** The current stage of a cycle, the parabolic time step, its CFL factor, and
        rmax_par (stored but not used by the driver). */
    var stage: int
    var dt: real
    var cfl_rkl: real
    var rmax_par: real

    /** `a` is none of the data block's 4-D fields. */
    predicate Apart(a: array4<real>)
    {
      a != data.Vc && a != data.Uc && a != data.Uc0 && a != data.FluxRiemann && a != data.viscSrc
    }

    /** The driver's own fields have the block's shape and alias nothing; the block is
        Cartesian. */
    ghost predicate Valid()
      reads data.Metric()
    {
      data.Valid() && data.geometry == Cartesian && data.Field4(data.Uc, NVAR) && data.Field4(data.Uc0, NVAR)
      && data.Field4(dU, NVAR) && data.Field4(dU0, NVAR) && data.Field4(Uc1, NVAR)
      && dU != dU0 && dU != Uc1 && dU0 != Uc1 && Apart(dU) && Apart(dU0) && Apart(Uc1)
      && dU !in data.Metric() && dU0 !in data.Metric() && Uc1 !in data.Metric()
    }

    /** Init: attaches the driver to `datain`, allocates dU, dU0 and Uc1 (zero-filled,
        as Kokkos views are) and takes the CFL factor from the [RKL] cfl entry, 0.5 when
        the entry is absent. */
    constructor Init(cfl: Option<real>, datain: DataBlock, order: Order)
      requires datain.Valid() && datain.geometry == Cartesian
      ensures Valid()
      ensures data == datain && this.order == order
      ensures fresh(dU) && fresh(dU0) && fresh(Uc1)
      ensures cfl_rkl == (if cfl.Some? then cfl.value else 0.5)
      ensures rmax_par == 100.0
      ensures forall nv, k, j, i | 0 <= nv < NVAR && datain.InGrid(k, j, i) ::
        dU[nv, k, j, i] == 0.0 && dU0[nv, k, j, i] == 0.0 && Uc1[nv, k, j, i] == 0.0
    {
      data := datain;
      this.order := order;
      var n := datain.np;
      dU := new real[NVAR, n[KDIR], n[JDIR], n[IDIR]]((_, _, _, _) => 0.0);
      dU0 := new real[NVAR, n[KDIR], n[JDIR], n[IDIR]]((_, _, _, _) => 0.0);
      Uc1 := new real[NVAR, n[KDIR], n[JDIR], n[IDIR]]((_, _, _, _) => 0.0);
      if cfl.Some? {
        cfl_rkl := cfl.value;
      } else {
        cfl_rkl := 0.5;
      }
      rmax_par := 100.0;
    }

    /** ResetFlux: zeroes FluxRiemann over all variables and the full extent. */
    method ResetFlux()
      requires Valid()
      modifies data.FluxRiemann
      ensures Valid()
      ensures forall nv, k, j, i | 0 <= nv < NVAR && data.InGrid(k, j, i) ::
        data.FluxRiemann[nv, k, j, i] == 0.0
    {
      Fill4(data.FluxRiemann, 0.0);
    }

    /** ResetStage: zeroes dU over all variables and InvDt, both over the full extent. */
    method ResetStage()
      requires Valid()
      modifies dU, data.InvDt
      ensures Valid()
      ensures forall nv, k, j, i | 0 <= nv < NVAR && data.InGrid(k, j, i) :: dU[nv, k, j, i] == 0.0
      ensures forall k, j, i | data.InGrid(k, j, i) :: data.InvDt[k, j, i] == 0.0
    {
      Fill4(dU, 0.0);
      Fill3(data.InvDt, 0.0);
    }

    /** (k, j, i) lies in the range [0, end) of the time-step reduction: the active cells
        and the ghost cells before them. */
    predicate InReduction(k: int, j: int, i: int)
    {
      |data.end| == 3 && 0 <= k < data.end[KDIR] && 0 <= j < data.end[JDIR] && 0 <= i < data.end[IDIR]
    }

    /** m is the maximum over the reduction range of the inverse time steps `v`, by cell. */
    ghost predicate IsMaxOver(m: real, v: imap<Index3, real>)
    {
      (forall k, j, i | InReduction(k, j, i) :: (k, j, i) in v && v[(k, j, i)] <= m)
      && (exists k, j, i | InReduction(k, j, i) :: (k, j, i) in v && v[(k, j, i)] == m)
    }

    /** `v` has the shape of InvDt after stage 1: zero outside the active cells,
        non-negative on them and positive on one of them. */
    ghost predicate FirstStageShape(v: imap<Index3, real>)
    {
      (forall k, j, i | data.InGrid(k, j, i) ::
         (k, j, i) in v && if data.Active(k, j, i) then v[(k, j, i)] >= 0.0 else v[(k, j, i)] == 0.0)
      && (exists k, j, i | data.Active(k, j, i) :: (k, j, i) in v && v[(k, j, i)] > 0.0)
    }

    /** m is the maximum of InvDt over the reduction range. */
    ghost predicate IsMaxInvDt(m: real)
      reads data.InvDt
    {
      IsMaxOver(m, Snapshot3(data.InvDt))
    }

    /** The max-reduction of InvDt over [0, end) (RKL_Timestep_reduction); the reduction
        starts from its first element, which with Kokkos' Max reducer is the same as
        starting from the reducer's identity. */
    method MaxInvDt() returns (m: real)
      requires data.Shaped()
      ensures IsMaxInvDt(m)
    {
      var inv := data.InvDt;
      var e := data.end;
      m := inv[0, 0, 0];
      ghost var wk, wj, wi := 0, 0, 0;
      var k := 0;
      while k < e[KDIR]
        invariant 0 <= k <= e[KDIR]
        invariant InReduction(wk, wj, wi) && inv[wk, wj, wi] == m
        invariant forall k', j', i' | InReduction(k', j', i') && Before(k', j', i', k, 0, 0) :: inv[k', j', i'] <= m
      {
        var j := 0;
        while j < e[JDIR]
          invariant 0 <= j <= e[JDIR]
          invariant InReduction(wk, wj, wi) && inv[wk, wj, wi] == m
          invariant forall k', j', i' | InReduction(k', j', i') && Before(k', j', i', k, j, 0) :: inv[k', j', i'] <= m
        {
          var i := 0;
          while i < e[IDIR]
            invariant 0 <= i <= e[IDIR]
            invariant InReduction(wk, wj, wi) && inv[wk, wj, wi] == m
            invariant forall k', j', i' | InReduction(k', j', i') && Before(k', j', i', k, j, i) :: inv[k', j', i'] <= m
          {
            if inv[k, j, i] >= m {
              wk, wj, wi := k, j, i;
            }
            m := FMax(inv[k, j, i], m);
            i := i + 1;
          }
          j := j + 1;
        }
        k := k + 1;
      }
    }

    /** Some cell of the reduction range has a positive inverse time step. */
    ghost predicate SomePositiveInvDt()
      requires data.Shaped()
      reads data.InvDt
    {
      exists k, j, i | InReduction(k, j, i) :: data.InvDt[k, j, i] > 0.0
    }

    /** (k, j, i) lies in the range of CalcTotalFlux along dir: the active range extended
        by one face along dir. */
    predicate InFluxRange(dir: int, k: int, j: int, i: int)
    {
      |data.beg| == 3 && |data.end| == 3
      && data.beg[KDIR] <= k < data.end[KDIR] + Offset(dir, KDIR)
      && data.beg[JDIR] <= j < data.end[JDIR] + Offset(dir, JDIR)
      && data.beg[IDIR] <= i < data.end[IDIR] + Offset(dir, IDIR)
    }

    /** The momentum flux of face (k, j, i) scaled by the face area once the face is
        `done`; every other value is `f` itself. */
    function TotalFlux(dir: int, nv: int, k: int, j: int, i: int, done: bool, f: real): real
      requires data.Shaped() && 0 <= dir < DIMENSIONS && data.InGrid(k, j, i)
      reads data.A[dir]
    {
      if done && IsMomentum(nv) then f * data.A[dir][k, j, i] else f
    }

    /** The body of CalcTotalFlux for one face (Cartesian: no area floor, no curvature
        terms). */
    method TotalFluxAt(dir: int, k: int, j: int, i: int)
      requires data.Shaped() && 0 <= dir < DIMENSIONS && data.InGrid(k, j, i)
      modifies data.FluxRiemann
      ensures forall nv, k', j', i' | 0 <= nv < NVAR && data.InGrid(k', j', i') ::
        data.FluxRiemann[nv, k', j', i']
        == TotalFlux(dir, nv, k', j', i', k' == k && j' == j && i' == i, old(data.FluxRiemann[nv, k', j', i']))
    {
      var flux := data.FluxRiemann;
      var ax := data.A[dir][k, j, i];
      var nv := 0;
      while nv < COMPONENTS
        invariant 0 <= nv <= COMPONENTS
        invariant forall n, k', j', i' | 0 <= n < NVAR && data.InGrid(k', j', i') ::
          flux[n, k', j', i']
          == if k' == k && j' == j && i' == i && VX1 <= n < VX1 + nv then old(flux[n, k', j', i']) * ax
             else old(flux[n, k', j', i'])
      {
        flux[nv + VX1, k, j, i] := flux[nv + VX1, k, j, i] * ax;
        nv := nv + 1;
      }
    }

    /** CalcTotalFlux: multiplies the momentum fluxes by the face area A[dir] over the
        active range extended by one face along dir. */
    method CalcTotalFlux(dir: int)
      requires Valid() && 0 <= dir < DIMENSIONS
      modifies data.FluxRiemann
      ensures Valid()
      ensures forall nv, k, j, i | 0 <= nv < NVAR && data.InGrid(k, j, i) ::
        data.FluxRiemann[nv, k, j, i]
        == TotalFlux(dir, nv, k, j, i, InFluxRange(dir, k, j, i), old(data.FluxRiemann[nv, k, j, i]))
    {
      var flux := data.FluxRiemann;
      var b, e := data.beg, data.end;
      var k := b[KDIR];
      while k < e[KDIR] + Offset(dir, KDIR)
        invariant b[KDIR] <= k <= e[KDIR] + Offset(dir, KDIR)
        invariant forall nv, k', j', i' | 0 <= nv < NVAR && data.InGrid(k', j', i') ::
          flux[nv, k', j', i'] == TotalFlux(dir, nv, k', j', i',
            InFluxRange(dir, k', j', i') && Before(k', j', i', k, b[JDIR], b[IDIR]), old(flux[nv, k', j', i']))
      {
        var j := b[JDIR];
        while j < e[JDIR] + Offset(dir, JDIR)
          invariant b[JDIR] <= j <= e[JDIR] + Offset(dir, JDIR)
          invariant forall nv, k', j', i' | 0 <= nv < NVAR && data.InGrid(k', j', i') ::
            flux[nv, k', j', i'] == TotalFlux(dir, nv, k', j', i',
              InFluxRange(dir, k', j', i') && Before(k', j', i', k, j, b[IDIR]), old(flux[nv, k', j', i']))
        {
          var i := b[IDIR];
          while i < e[IDIR] + Offset(dir, IDIR)
            invariant b[IDIR] <= i <= e[IDIR] + Offset(dir, IDIR)
            invariant forall nv, k', j', i' | 0 <= nv < NVAR && data.InGrid(k', j', i') ::
              flux[nv, k', j', i'] == TotalFlux(dir, nv, k', j', i',
                InFluxRange(dir, k', j', i') && Before(k', j', i', k, j, i), old(flux[nv, k', j', i']))
          {
            TotalFluxAt(dir, k, j, i);
            i := i + 1;
          }
          j := j + 1;
        }
        k := k + 1;
      }
    }

    /** The right-hand side along dir of momentum variable nv in active cell (k, j, i). */
    function Rhs(dir: int, nv: int, k: int, j: int, i: int): real
      requires data.Shaped() && 0 <= dir < DIMENSIONS && IsMomentum(nv) && data.Active(k, j, i)
      requires data.dV[k, j, i] != 0.0
      reads data.FluxRiemann, data.dV, data.viscSrc
    {
      RhsTerm(data.FluxRiemann[nv, k + Offset(dir, KDIR), j + Offset(dir, JDIR), i + Offset(dir, IDIR)],
              data.FluxRiemann[nv, k, j, i], data.dV[k, j, i], data.isRKLViscosity,
              data.viscSrc[nv - VX1, k, j, i])
    }

    /** The stage-1 contribution of direction dir to the inverse time step of active cell
        (k, j, i), whose width along dir is dx[dir](ig). */
    function InvDtIncrement(dir: int, k: int, j: int, i: int): real
      requires data.Shaped() && 0 <= dir < DIMENSIONS && data.Active(k, j, i)
      requires data.dx[dir][AlongIndex(dir, k, j, i)] > 0.0
      reads data.dMax, data.dx[dir]
    {
      InvDtTerm(data.dMax[k + Offset(dir, KDIR), j + Offset(dir, JDIR), i + Offset(dir, IDIR)],
                data.dMax[k, j, i], data.dx[dir][AlongIndex(dir, k, j, i)])
    }

    /** dU of variable nv in cell (k, j, i), from its value u before CalcRightHandSide,
        once the cell is `done`. */
    function AccumulatedDU(dir: int, nv: int, k: int, j: int, i: int, done: bool, u: real): real
      requires data.Shaped() && 0 <= dir < DIMENSIONS && data.InGrid(k, j, i)
      requires done ==> data.Active(k, j, i) && data.dV[k, j, i] != 0.0
      reads data.FluxRiemann, data.dV, data.viscSrc
    {
      if done && IsMomentum(nv) then u + Rhs(dir, nv, k, j, i) else u
    }

    /** InvDt of cell (k, j, i), from its value v before CalcRightHandSide, once the cell
        is `done` in stage `stage`: increased in stage 1 only. */
    function AccumulatedInvDt(stage: int, dir: int, k: int, j: int, i: int, done: bool, v: real): real
      requires data.Shaped() && 0 <= dir < DIMENSIONS && data.InGrid(k, j, i)
      requires done ==> data.Active(k, j, i) && data.dx[dir][AlongIndex(dir, k, j, i)] > 0.0
      reads data.dMax, data.dx[dir]
    {
      if done && stage == 1 then v + InvDtIncrement(dir, k, j, i) else v
    }

    /** The momentum part of the body of CalcRightHandSide for one active cell. */
    method AccumulateDU(dir: int, k: int, j: int, i: int)
      requires Valid() && 0 <= dir < DIMENSIONS && data.Active(k, j, i)
      modifies dU
      ensures forall nv, k', j', i' | 0 <= nv < NVAR && data.InGrid(k', j', i') ::
        dU[nv, k', j', i']
        == AccumulatedDU(dir, nv, k', j', i', k' == k && j' == j && i' == i, old(dU[nv, k', j', i']))
    {
      var nv := 0;
      while nv < COMPONENTS
        invariant 0 <= nv <= COMPONENTS
        invariant forall n, k', j', i' | 0 <= n < NVAR && data.InGrid(k', j', i') ::
          dU[n, k', j', i']
          == if k' == k && j' == j && i' == i && VX1 <= n < VX1 + nv then old(dU[n, k', j', i']) + Rhs(dir, n, k, j, i)
             else old(dU[n, k', j', i'])
      {
        var rhs := -(data.FluxRiemann[nv + VX1, k + Offset(dir, KDIR), j + Offset(dir, JDIR), i + Offset(dir, IDIR)]
                     - data.FluxRiemann[nv + VX1, k, j, i]) / data.dV[k, j, i];
        if data.isRKLViscosity {
          rhs := rhs + data.viscSrc[nv, k, j, i];
        }
        dU[nv + VX1, k, j, i] := dU[nv + VX1, k, j, i] + rhs;
        nv := nv + 1;
      }
    }

    /** The time-step part of the body of CalcRightHandSide for one active cell. */
    method AccumulateInvDt(dir: int, k: int, j: int, i: int)
      requires Valid() && 0 <= dir < DIMENSIONS && data.Active(k, j, i)
      modifies data.InvDt
      ensures forall k', j', i' | data.InGrid(k', j', i') ::
        data.InvDt[k', j', i']
        == AccumulatedInvDt(stage, dir, k', j', i', k' == k && j' == j && i' == i, old(data.InvDt[k', j', i']))
    {
      if stage == 1 {
        var ig := Offset(dir, IDIR) * i + Offset(dir, JDIR) * j + Offset(dir, KDIR) * k;
        OffsetIndex(dir, k, j, i);
        var dl := data.dx[dir][ig];
        var inc := InvDtTerm(data.dMax[k + Offset(dir, KDIR), j + Offset(dir, JDIR), i + Offset(dir, IDIR)],
                             data.dMax[k, j, i], dl);
        data.InvDt[k, j, i] := data.InvDt[k, j, i] + inc;
      }
    }

    /** The body of CalcRightHandSide for one active cell. */
    method RightHandSideAt(dir: int, k: int, j: int, i: int)
      requires Valid() && 0 <= dir < DIMENSIONS && data.Active(k, j, i)
      modifies dU, data.InvDt
      ensures Valid()
      ensures forall nv, k', j', i' | 0 <= nv < NVAR && data.InGrid(k', j', i') ::
        dU[nv, k', j', i']
        == AccumulatedDU(dir, nv, k', j', i', k' == k && j' == j && i' == i, old(dU[nv, k', j', i']))
      ensures forall k', j', i' | data.InGrid(k', j', i') ::
        data.InvDt[k', j', i']
        == AccumulatedInvDt(stage, dir, k', j', i', k' == k && j' == j && i' == i, old(data.InvDt[k', j', i']))
    {
      AccumulateDU(dir, k, j, i);
      AccumulateInvDt(dir, k, j, i);
    }

    /** CalcRightHandSide over the row (k, j). */
    method RightHandSideRow(dir: int, k: int, j: int)
      requires Valid() && 0 <= dir < DIMENSIONS
      requires data.beg[KDIR] <= k < data.end[KDIR] && data.beg[JDIR] <= j < data.end[JDIR]
      modifies dU, data.InvDt
      ensures Valid()
      ensures forall nv, k', j', i' | 0 <= nv < NVAR && data.InGrid(k', j', i') ::
        dU[nv, k', j', i'] == AccumulatedDU(dir, nv, k', j', i',
          data.Active(k', j', i') && k' == k && j' == j, old(dU[nv, k', j', i']))
      ensures forall k', j', i' | data.InGrid(k', j', i') ::
        data.InvDt[k', j', i'] == AccumulatedInvDt(stage, dir, k', j', i',
          data.Active(k', j', i') && k' == k && j' == j, old(data.InvDt[k', j', i']))
    {
      var i := data.beg[IDIR];
      while i < data.end[IDIR]
        invariant data.beg[IDIR] <= i <= data.end[IDIR]
        invariant Valid()
        invariant forall nv, k', j', i' | 0 <= nv < NVAR && data.InGrid(k', j', i') ::
          dU[nv, k', j', i'] == AccumulatedDU(dir, nv, k', j', i',
            data.Active(k', j', i') && k' == k && j' == j && i' < i, old(dU[nv, k', j', i']))
        invariant forall k', j', i' | data.InGrid(k', j', i') ::
          data.InvDt[k', j', i'] == AccumulatedInvDt(stage, dir, k', j', i',
            data.Active(k', j', i') && k' == k && j' == j && i' < i, old(data.InvDt[k', j', i']))
      {
        RightHandSideAt(dir, k, j, i);
        i := i + 1;
      }
    }

    /** CalcRightHandSide over the plane k. */
    method RightHandSidePlane(dir: int, k: int)
      requires Valid() && 0 <= dir < DIMENSIONS
      requires data.beg[KDIR] <= k < data.end[KDIR]
      modifies dU, data.InvDt
      ensures Valid()
      ensures forall nv, k', j', i' | 0 <= nv < NVAR && data.InGrid(k', j', i') ::
        dU[nv, k', j', i'] == AccumulatedDU(dir, nv, k', j', i',
          data.Active(k', j', i') && k' == k, old(dU[nv, k', j', i']))
      ensures forall k', j', i' | data.InGrid(k', j', i') ::
        data.InvDt[k', j', i'] == AccumulatedInvDt(stage, dir, k', j', i',
          data.Active(k', j', i') && k' == k, old(data.InvDt[k', j', i']))
    {
      var j := data.beg[JDIR];
      while j < data.end[JDIR]
        invariant data.beg[JDIR] <= j <= data.end[JDIR]
        invariant Valid()
        invariant forall nv, k', j', i' | 0 <= nv < NVAR && data.InGrid(k', j', i') ::
          dU[nv, k', j', i'] == AccumulatedDU(dir, nv, k', j', i',
            data.Active(k', j', i') && k' == k && j' < j, old(dU[nv, k', j', i']))
        invariant forall k', j', i' | data.InGrid(k', j', i') ::
          data.InvDt[k', j', i'] == AccumulatedInvDt(stage, dir, k', j', i',
            data.Active(k', j', i') && k' == k && j' < j, old(data.InvDt[k', j', i']))
      {
        RightHandSideRow(dir, k, j);
        j := j + 1;
      }
    }

    /** CalcRightHandSide: adds the right-hand side along dir to the momentum components of
        dU in every active cell, and in stage 1 the direction's contribution to InvDt. */
    method CalcRightHandSide(dir: int)
      requires Valid() && 0 <= dir < DIMENSIONS
      modifies dU, data.InvDt
      ensures Valid()
      ensures forall nv, k, j, i | 0 <= nv < NVAR && data.InGrid(k, j, i) ::
        dU[nv, k, j, i] == AccumulatedDU(dir, nv, k, j, i, data.Active(k, j, i), old(dU[nv, k, j, i]))
      ensures forall k, j, i | data.InGrid(k, j, i) ::
        data.InvDt[k, j, i] == AccumulatedInvDt(stage, dir, k, j, i, data.Active(k, j, i), old(data.InvDt[k, j, i]))
    {
      var k := data.beg[KDIR];
      while k < data.end[KDIR]
        invariant data.beg[KDIR] <= k <= data.end[KDIR]
        invariant Valid()
        invariant forall nv, k', j', i' | 0 <= nv < NVAR && data.InGrid(k', j', i') ::
          dU[nv, k', j', i'] == AccumulatedDU(dir, nv, k', j', i',
            data.Active(k', j', i') && k' < k, old(dU[nv, k', j', i']))
        invariant forall k', j', i' | data.InGrid(k', j', i') ::
          data.InvDt[k', j', i'] == AccumulatedInvDt(stage, dir, k', j', i',
            data.Active(k', j', i') && k' < k, old(data.InvDt[k', j', i']))
      {
        RightHandSidePlane(dir, k);
        k := k + 1;
      }
    }

    /** CalcParabolicRHS along dir: the area-weighted fluxes, then the right-hand side.
        The time argument is unused: the Cartesian code path never reads it. */
    method CalcParabolicRHS(dir: int, time: real)
      requires Valid() && 0 <= dir < DIMENSIONS
      modifies data.FluxRiemann, dU, data.InvDt
      ensures Valid()
      ensures forall nv, k, j, i | 0 <= nv < NVAR && data.InGrid(k, j, i) ::
        data.FluxRiemann[nv, k, j, i]
        == TotalFlux(dir, nv, k, j, i, InFluxRange(dir, k, j, i), old(data.FluxRiemann[nv, k, j, i]))
      ensures forall nv, k, j, i | 0 <= nv < NVAR && data.InGrid(k, j, i) ::
        dU[nv, k, j, i] == AccumulatedDU(dir, nv, k, j, i, data.Active(k, j, i), old(dU[nv, k, j, i]))
      ensures forall k, j, i | data.InGrid(k, j, i) ::
        data.InvDt[k, j, i] == AccumulatedInvDt(stage, dir, k, j, i, data.Active(k, j, i), old(data.InvDt[k, j, i]))
    {
      CalcTotalFlux(dir);
      CalcRightHandSide(dir);
    }

    /** dU vanishes outside the momentum components of the active cells. */
    ghost predicate Supported(a: array4<real>)
      requires data.Shaped() && data.Field4(a, NVAR)
      reads a
    {
      forall nv, k, j, i | 0 <= nv < NVAR && data.InGrid(k, j, i) && !(data.Active(k, j, i) && IsMomentum(nv)) ::
        a[nv, k, j, i] == 0.0
    }

    /** InvDt during a stage evaluation: non-negative on the active cells of stage 1 and
        zero elsewhere; once a direction has been added (`started`), stage 1 has an active
        cell with a positive inverse time step. */
    ghost predicate StageInvDt(started: bool)
      requires data.Shaped()
      reads this`stage, data.InvDt
    {
      (forall k, j, i | data.InGrid(k, j, i) ::
         if stage == 1 && data.Active(k, j, i) then data.InvDt[k, j, i] >= 0.0 else data.InvDt[k, j, i] == 0.0)
      && (stage == 1 && started ==> exists k, j, i | data.Active(k, j, i) :: data.InvDt[k, j, i] > 0.0)
    }

    /** EvolveStage: dU and InvDt are reset, then every direction adds its parabolic
        fluxes' right-hand side. Afterwards dU is supported on the momentum of the active
        cells, and InvDt is as StageInvDt says: in stage 1 only, non-negative on the active
        cells and positive on one of them. */
    method EvolveStage(time: real)
      requires Valid()
      modifies dU, data.InvDt, data.FluxRiemann, data.dMax, data.viscSrc
      ensures Valid()
      ensures Supported(dU) && StageInvDt(true)
      ensures stage == 1 ==> SomePositiveInvDt()
    {
      ResetStage();
      var dir := 0;
      while dir < DIMENSIONS
        invariant 0 <= dir <= DIMENSIONS
        invariant Valid()
        invariant Supported(dU) && StageInvDt(dir > 0)
      {
        EvolveDirection(dir, time);
        dir := dir + 1;
      }
    }

    /** One direction of EvolveStage: the fluxes are reset, the block computes the
        parabolic fluxes and the diffusion coefficients along dir, and their right-hand
        side is added. A cell of positive diffusion coefficient gets a positive inverse
        time step in stage 1. */
    method EvolveDirection(dir: int, time: real)
      requires Valid() && 0 <= dir < DIMENSIONS
      requires Supported(dU) && StageInvDt(dir > 0)
      modifies dU, data.InvDt, data.FluxRiemann, data.dMax, data.viscSrc
      ensures Valid()
      ensures Supported(dU) && StageInvDt(true)
    {
      ComputeFluxes(dir, time);
      CalcParabolicRHS(dir, time);
      SupportedStep(dir);
      StageInvDtStep(dir);
    }

    /** Adding the right-hand side along dir keeps dU supported on the momentum of the
        active cells. */
    twostate lemma SupportedStep(dir: int)
      requires data.Shaped() && Sized() && 0 <= dir < DIMENSIONS
      requires old(Supported(dU))
      requires forall k, j, i | data.Active(k, j, i) :: data.dV[k, j, i] != 0.0
      requires forall nv, k, j, i | 0 <= nv < NVAR && data.InGrid(k, j, i) ::
        dU[nv, k, j, i] == AccumulatedDU(dir, nv, k, j, i, data.Active(k, j, i), old(dU[nv, k, j, i]))
      ensures Supported(dU)
    {
    }

    /** Adding the stage-1 contributions along dir keeps InvDt non-negative on the active
        cells and zero elsewhere, and makes it positive on an active cell of positive
        diffusion coefficient. */
    twostate lemma StageInvDtStep(dir: int)
      requires Valid() && 0 <= dir < DIMENSIONS && stage == old(stage)
      requires old(StageInvDt(dir > 0))
      requires forall k, j, i | data.InGrid(k, j, i) ::
        data.InvDt[k, j, i] == AccumulatedInvDt(stage, dir, k, j, i, data.Active(k, j, i), old(data.InvDt[k, j, i]))
      ensures StageInvDt(true)
    {
      var wk, wj, wi :| data.Active(wk, wj, wi) && data.dMax[wk, wj, wi] > 0.0;
      assert stage == 1 ==> data.InvDt[wk, wj, wi] > 0.0;
    }

    /** ResetFlux, then the block's parabolic fluxes and diffusion coefficients along dir. */
    method ComputeFluxes(dir: int, time: real)
      requires Valid() && 0 <= dir < DIMENSIONS
      modifies data.FluxRiemann, data.dMax, data.viscSrc
      ensures Valid()
    {
      ResetFlux();
      data.CalcParabolicFlux(dir, time);
    }

    /** ComputeDt: the parabolic time step dt = (cfl_rkl * (1 / max InvDt)) / 2, the
        maximum taken over [0, end) (a single MPI rank). */
    method ComputeDt() returns (ghost newInvDt: real)
      requires data.Shaped() && SomePositiveInvDt()
      modifies this`dt
      ensures IsMaxInvDt(newInvDt) && newInvDt > 0.0 && ParabolicDt(dt, cfl_rkl, newInvDt)
      ensures cfl_rkl > 0.0 ==> dt > 0.0
      ensures stage == old(stage) && cfl_rkl == old(cfl_rkl) && rmax_par == old(rmax_par)
    {
      var newinvdt := MaxInvDt();
      PositiveMax(newinvdt);
      dt := ParabolicStep(cfl_rkl, newinvdt);
      newInvDt := newinvdt;
    }

    /** The maximum of InvDt is positive when some cell of the reduction range is. */
    lemma PositiveMax(m: real)
      requires data.Shaped() && IsMaxInvDt(m) && SomePositiveInvDt()
      ensures m > 0.0
    {
      var k, j, i :| InReduction(k, j, i) && data.InvDt[k, j, i] > 0.0;
      assert (k, j, i) in Snapshot3(data.InvDt);
    }


    /** The body of RKL_Cycle_InitUc1 for one active cell: Uc1 takes Uc, then every
        variable takes the first-stage value. */
    method InitUc1At(muTilde: real, dtHyp: real, k: int, j: int, i: int)
      requires Valid() && data.Active(k, j, i)
      modifies Uc1, data.Uc
      ensures Valid()
      ensures forall nv, k', j', i' | 0 <= nv < NVAR && data.InGrid(k', j', i') ::
        var here := k' == k && j' == j && i' == i;
        Uc1[nv, k', j', i'] == (if here then old(data.Uc[nv, k', j', i']) else old(Uc1[nv, k', j', i']))
        && data.Uc[nv, k', j', i']
           == (if here then FirstStageValue(muTilde, dtHyp, old(data.Uc[nv, k', j', i']), dU0[nv, k', j', i'])
               else old(data.Uc[nv, k', j', i']))
    {
      var uc := data.Uc;
      var nv := 0;
      while nv < NVAR
        invariant 0 <= nv <= NVAR
        invariant forall n, k', j', i' | 0 <= n < NVAR && data.InGrid(k', j', i') ::
          Uc1[n, k', j', i'] == (if k' == k && j' == j && i' == i && n < nv then uc[n, k', j', i'] else old(Uc1[n, k', j', i']))
          && uc[n, k', j', i'] == old(uc[n, k', j', i'])
      {
        Uc1[nv, k, j, i] := uc[nv, k, j, i];
        nv := nv + 1;
      }
      nv := 0;
      while nv < NVAR
        invariant 0 <= nv <= NVAR
        invariant forall n, k', j', i' | 0 <= n < NVAR && data.InGrid(k', j', i') ::
          var here := k' == k && j' == j && i' == i;
          Uc1[n, k', j', i'] == (if here then old(uc[n, k', j', i']) else old(Uc1[n, k', j', i']))
          && uc[n, k', j', i']
             == (if here && n < nv then FirstStageValue(muTilde, dtHyp, old(uc[n, k', j', i']), dU0[n, k', j', i'])
                 else old(uc[n, k', j', i']))
      {
        uc[nv, k, j, i] := FirstStageValue(muTilde, dtHyp, Uc1[nv, k, j, i], dU0[nv, k, j, i]);
        nv := nv + 1;
      }
    }

    /** RKL_Cycle_InitUc1: over the active cells, Uc1 keeps Uc and Uc takes the first
        stage, Uc1 + mu~_1 * dt_hyp * dU0; ghost cells keep both. */
    method InitUc1(muTilde: real, dtHyp: real)
      requires Valid()
      modifies Uc1, data.Uc
      ensures Valid()
      ensures forall nv, k, j, i | 0 <= nv < NVAR && data.InGrid(k, j, i) ::
        var act := data.Active(k, j, i);
        Uc1[nv, k, j, i] == (if act then old(data.Uc[nv, k, j, i]) else old(Uc1[nv, k, j, i]))
        && data.Uc[nv, k, j, i]
           == (if act then FirstStageValue(muTilde, dtHyp, old(data.Uc[nv, k, j, i]), dU0[nv, k, j, i])
               else old(data.Uc[nv, k, j, i]))
    {
      var b, e := data.beg, data.end;
      var k := b[KDIR];
      while k < e[KDIR]
        invariant b[KDIR] <= k <= e[KDIR]
        invariant Valid()
        invariant forall nv, k', j', i' | 0 <= nv < NVAR && data.InGrid(k', j', i') ::
          var done := data.Active(k', j', i') && k' < k;
          Uc1[nv, k', j', i'] == (if done then old(data.Uc[nv, k', j', i']) else old(Uc1[nv, k', j', i']))
          && data.Uc[nv, k', j', i']
             == (if done then FirstStageValue(muTilde, dtHyp, old(data.Uc[nv, k', j', i']), dU0[nv, k', j', i'])
                 else old(data.Uc[nv, k', j', i']))
      {
        var j := b[JDIR];
        while j < e[JDIR]
          invariant b[JDIR] <= j <= e[JDIR]
          invariant Valid()
          invariant forall nv, k', j', i' | 0 <= nv < NVAR && data.InGrid(k', j', i') ::
            var done := data.Active(k', j', i') && (k' < k || (k' == k && j' < j));
            Uc1[nv, k', j', i'] == (if done then old(data.Uc[nv, k', j', i']) else old(Uc1[nv, k', j', i']))
            && data.Uc[nv, k', j', i']
               == (if done then FirstStageValue(muTilde, dtHyp, old(data.Uc[nv, k', j', i']), dU0[nv, k', j', i'])
                   else old(data.Uc[nv, k', j', i']))
        {
          var i := b[IDIR];
          while i < e[IDIR]
            invariant b[IDIR] <= i <= e[IDIR]
            invariant Valid()
            invariant forall nv, k', j', i' | 0 <= nv < NVAR && data.InGrid(k', j', i') ::
              var done := data.Active(k', j', i') && Before(k', j', i', k, j, i);
              Uc1[nv, k', j', i'] == (if done then old(data.Uc[nv, k', j', i']) else old(Uc1[nv, k', j', i']))
              && data.Uc[nv, k', j', i']
                 == (if done then FirstStageValue(muTilde, dtHyp, old(data.Uc[nv, k', j', i']), dU0[nv, k', j', i'])
                     else old(data.Uc[nv, k', j', i']))
          {
            InitUc1At(muTilde, dtHyp, k, j, i);
            i := i + 1;
          }
          j := j + 1;
        }
        k := k + 1;
      }
    }


    /** The momentum update of stage j >= 2 for the momentum variable nv of a cell: the
        stage value from the current Uc, the previous stage Uc1, Uc0, dU and dU0. */
    function StageMomentum(mu: real, nu: real, muTilde: real, gamma: real, dtHyp: real,
                           nv: int, k: int, j: int, i: int, uc: real, uc1: real): real
      requires data.Shaped() && Sized() && 0 <= nv < NVAR && data.InGrid(k, j, i)
      reads data.Uc0, dU, dU0
    {
      StageValue(order, mu, nu, muTilde, gamma, dtHyp, uc, uc1, data.Uc0[nv, k, j, i], dU[nv, k, j, i], dU0[nv, k, j, i])
    }

    /** The driver's fields have the block's shape (the part of Valid that does not
        depend on the geometric factors). */
    predicate Sized()
    {
      data.Field4(dU, NVAR) && data.Field4(dU0, NVAR) && data.Field4(Uc1, NVAR)
    }

    /** The body of RKL_Cycle_UpdateUc for one active cell: every momentum component
        moves to Uc1 and takes the stage value. */
    method UpdateUcAt(mu: real, nu: real, muTilde: real, gamma: real, dtHyp: real, k: int, j: int, i: int)
      requires Valid() && data.Active(k, j, i)
      modifies Uc1, data.Uc
      ensures Valid()
      ensures forall nv, k', j', i' | 0 <= nv < NVAR && data.InGrid(k', j', i') ::
        var here := k' == k && j' == j && i' == i && IsMomentum(nv);
        Uc1[nv, k', j', i'] == (if here then old(data.Uc[nv, k', j', i']) else old(Uc1[nv, k', j', i']))
        && data.Uc[nv, k', j', i']
           == (if here then StageMomentum(mu, nu, muTilde, gamma, dtHyp, nv, k', j', i',
                                          old(data.Uc[nv, k', j', i']), old(Uc1[nv, k', j', i']))
               else old(data.Uc[nv, k', j', i']))
    {
      var uc := data.Uc;
      var nv := 0;
      while nv < COMPONENTS
        invariant 0 <= nv <= COMPONENTS
        invariant forall n, k', j', i' | 0 <= n < NVAR && data.InGrid(k', j', i') ::
          var here := k' == k && j' == j && i' == i && VX1 <= n < VX1 + nv;
          Uc1[n, k', j', i'] == (if here then old(uc[n, k', j', i']) else old(Uc1[n, k', j', i']))
          && uc[n, k', j', i']
             == (if here then StageMomentum(mu, nu, muTilde, gamma, dtHyp, n, k', j', i',
                                            old(uc[n, k', j', i']), old(Uc1[n, k', j', i']))
                 else old(uc[n, k', j', i']))
      {
        var m := VX1 + nv;
        var y := uc[m, k, j, i];
        var y1 := Uc1[m, k, j, i];
        Uc1[m, k, j, i] := y;
        uc[m, k, j, i] := StageValue(order, mu, nu, muTilde, gamma, dtHyp, y, y1, data.Uc0[m, k, j, i],
                                     dU[m, k, j, i], dU0[m, k, j, i]);
        nv := nv + 1;
      }
    }

    /** RKL_Cycle_UpdateUc: over the active cells, every momentum component of Uc moves
        to Uc1 and takes the stage value; all else keeps its value. */
    method UpdateUc(mu: real, nu: real, muTilde: real, gamma: real, dtHyp: real)
      requires Valid()
      modifies Uc1, data.Uc
      ensures Valid()
      ensures forall nv, k, j, i | 0 <= nv < NVAR && data.InGrid(k, j, i) ::
        var moved := data.Active(k, j, i) && IsMomentum(nv);
        Uc1[nv, k, j, i] == (if moved then old(data.Uc[nv, k, j, i]) else old(Uc1[nv, k, j, i]))
        && data.Uc[nv, k, j, i]
           == (if moved then StageMomentum(mu, nu, muTilde, gamma, dtHyp, nv, k, j, i,
                                           old(data.Uc[nv, k, j, i]), old(Uc1[nv, k, j, i]))
               else old(data.Uc[nv, k, j, i]))
    {
      var b, e := data.beg, data.end;
      var k := b[KDIR];
      while k < e[KDIR]
        invariant b[KDIR] <= k <= e[KDIR]
        invariant Valid()
        invariant forall nv, k', j', i' | 0 <= nv < NVAR && data.InGrid(k', j', i') ::
          var moved := data.Active(k', j', i') && IsMomentum(nv) && k' < k;
          Uc1[nv, k', j', i'] == (if moved then old(data.Uc[nv, k', j', i']) else old(Uc1[nv, k', j', i']))
          && data.Uc[nv, k', j', i']
             == (if moved then StageMomentum(mu, nu, muTilde, gamma, dtHyp, nv, k', j', i',
                                             old(data.Uc[nv, k', j', i']), old(Uc1[nv, k', j', i']))
                 else old(data.Uc[nv, k', j', i']))
      {
        var j := b[JDIR];
        while j < e[JDIR]
          invariant b[JDIR] <= j <= e[JDIR]
          invariant Valid()
          invariant forall nv, k', j', i' | 0 <= nv < NVAR && data.InGrid(k', j', i') ::
            var moved := data.Active(k', j', i') && IsMomentum(nv) && (k' < k || (k' == k && j' < j));
            Uc1[nv, k', j', i'] == (if moved then old(data.Uc[nv, k', j', i']) else old(Uc1[nv, k', j', i']))
            && data.Uc[nv, k', j', i']
               == (if moved then StageMomentum(mu, nu, muTilde, gamma, dtHyp, nv, k', j', i',
                                               old(data.Uc[nv, k', j', i']), old(Uc1[nv, k', j', i']))
                   else old(data.Uc[nv, k', j', i']))
        {
          var i := b[IDIR];
          while i < e[IDIR]
            invariant b[IDIR] <= i <= e[IDIR]
            invariant Valid()
            invariant forall nv, k', j', i' | 0 <= nv < NVAR && data.InGrid(k', j', i') ::
              var moved := data.Active(k', j', i') && IsMomentum(nv) && Before(k', j', i', k, j, i);
              Uc1[nv, k', j', i'] == (if moved then old(data.Uc[nv, k', j', i']) else old(Uc1[nv, k', j', i']))
              && data.Uc[nv, k', j', i']
                 == (if moved then StageMomentum(mu, nu, muTilde, gamma, dtHyp, nv, k', j', i',
                                                 old(data.Uc[nv, k', j', i']), old(Uc1[nv, k', j', i']))
                     else old(data.Uc[nv, k', j', i']))
          {
            UpdateUcAt(mu, nu, muTilde, gamma, dtHyp, k, j, i);
            i := i + 1;
          }
          j := j + 1;
        }
        k := k + 1;
      }
    }


    /** The state between the stages of a cycle. */
    ghost predicate Running()
      reads data.Metric(), data.Uc, data.Uc0, dU0
    {
      Valid() && Supported(dU0) && MomentumOnly()
    }

    /** Uc differs from Uc0 only in the momentum components of the active cells. */
    ghost predicate MomentumOnly()
      requires data.Shaped()
      reads data.Uc, data.Uc0
    {
      forall nv, k, j, i | 0 <= nv < NVAR && data.InGrid(k, j, i) && !(data.Active(k, j, i) && IsMomentum(nv)) ::
        data.Uc[nv, k, j, i] == data.Uc0[nv, k, j, i]
    }

    /** Kokkos::deep_copy(Uc0, Uc). */
    method SaveUc0()
      requires Valid()
      modifies data.Uc0
      ensures Valid()
      ensures forall nv, k, j, i | 0 <= nv < NVAR && data.InGrid(k, j, i) :: data.Uc0[nv, k, j, i] == data.Uc[nv, k, j, i]
    {
      Copy4(data.Uc0, data.Uc);
    }

    /** Kokkos::deep_copy(dU0, dU). */
    method SaveDU0()
      requires Valid()
      modifies dU0
      ensures Valid()
      ensures forall nv, k, j, i | 0 <= nv < NVAR && data.InGrid(k, j, i) :: dU0[nv, k, j, i] == dU[nv, k, j, i]
    {
      Copy4(dU0, dU);
    }

    /** The start of Cycle: stage 1, boundaries at `time`, conservative variables, and
        Uc0 := Uc. */
    method PrepareCycle(time: real)
      requires Valid()
      modifies this`stage, data.Vc, data.Uc, data.Uc0
      ensures Valid()
      ensures stage == 1 && dt == old(dt) && cfl_rkl == old(cfl_rkl) && rmax_par == old(rmax_par)
      ensures forall nv, k, j, i | 0 <= nv < NVAR && data.InGrid(k, j, i) :: data.Uc0[nv, k, j, i] == data.Uc[nv, k, j, i]
    {
      stage := 1;
      data.SetBoundary(time);
      data.ConvertPrimToCons();
      SaveUc0();
    }

    /** After stage |dUs| + 1 of a cycle of s stages over dt_hyp, the momentum of every
        active cell holds the last two stages of Recursion from its Uc0, its first-stage
        derivative dU0 and its column of the later stages' derivatives dUs: the previous
        stage in Uc1 and the current one in Uc. */
    ghost predicate Recursed(s: int, dtHyp: real, dUs: seq<imap<Index4, real>>)
      reads data.Uc, data.Uc0, dU0, Uc1
    {
      data.Shaped() && Sized() && s >= MinStages(order)
      && forall nv, k, j, i {:trigger Column(dUs, (nv, k, j, i))} | IsMomentum(nv) && data.Active(k, j, i) ::
           var r := Recursion(order, s, dtHyp, data.Uc0[nv, k, j, i], dU0[nv, k, j, i], Column(dUs, (nv, k, j, i)));
           Uc1[nv, k, j, i] == r.0 && data.Uc[nv, k, j, i] == r.1
    }

    /** When every later stage has the right-hand side of the first one, a full cycle
        moves the momentum of every active cell by exactly dt_hyp * dU0: the stages
        integrate a constant right-hand side exactly. */
    lemma ConstantCycle(s: int, dtHyp: real, dUs: seq<imap<Index4, real>>)
      requires Recursed(s, dtHyp, dUs) && |dUs| == s - 1
      requires forall m, nv, k, j, i | 0 <= m < |dUs| && IsMomentum(nv) && data.Active(k, j, i) ::
        (nv, k, j, i) in dUs[m] && dUs[m][(nv, k, j, i)] == dU0[nv, k, j, i]
      ensures forall nv, k, j, i | IsMomentum(nv) && data.Active(k, j, i) ::
        data.Uc[nv, k, j, i] == data.Uc0[nv, k, j, i] + dtHyp * dU0[nv, k, j, i]
    {
      forall nv, k, j, i | IsMomentum(nv) && data.Active(k, j, i)
        ensures data.Uc[nv, k, j, i] == data.Uc0[nv, k, j, i] + dtHyp * dU0[nv, k, j, i]
      {
        ConstantCell(s, dtHyp, dUs, nv, k, j, i);
      }
    }

    /** ConstantCycle for one cell. */
    lemma ConstantCell(s: int, dtHyp: real, dUs: seq<imap<Index4, real>>, nv: int, k: int, j: int, i: int)
      requires Recursed(s, dtHyp, dUs) && |dUs| == s - 1 && IsMomentum(nv) && data.Active(k, j, i)
      requires forall m | 0 <= m < |dUs| :: (nv, k, j, i) in dUs[m] && dUs[m][(nv, k, j, i)] == dU0[nv, k, j, i]
      ensures data.Uc[nv, k, j, i] == data.Uc0[nv, k, j, i] + dtHyp * dU0[nv, k, j, i]
    {
      var c := (nv, k, j, i);
      ConstantColumn(order, s, dtHyp, data.Uc0[nv, k, j, i], dU0[nv, k, j, i], dUs, c);
      assert data.Uc[nv, k, j, i]
             == Recursion(order, s, dtHyp, data.Uc0[nv, k, j, i], dU0[nv, k, j, i], Column(dUs, c)).1;
    }

    /** The first stage of Cycle up to the parabolic time step: the stage-1 right-hand
        side at `time`, dt = (cfl_rkl * (1 / m)) / 2 from the maximal inverse time step m,
        and dU0 := dU. */
    method FirstStage(time: real) returns (ghost maxInvDt: real)
      requires Valid() && cfl_rkl > 0.0 && stage == 1
      modifies this`dt, dU, dU0, data.InvDt, data.FluxRiemann, data.dMax, data.viscSrc
      ensures Valid()
      ensures stage == 1 && cfl_rkl == old(cfl_rkl) && rmax_par == old(rmax_par)
      ensures IsMaxInvDt(maxInvDt) && maxInvDt > 0.0 && ParabolicDt(dt, cfl_rkl, maxInvDt) && dt > 0.0
      ensures Supported(dU) && StageInvDt(true) && Supported(dU0)
      ensures forall nv, k, j, i | 0 <= nv < NVAR && data.InGrid(k, j, i) :: dU0[nv, k, j, i] == dU[nv, k, j, i]
    {
      EvolveStage(time);
      maxInvDt := StepAndSave();
    }

    /** The end of the first stage: ComputeDt from the stage-1 InvDt, then dU0 := dU. */
    method StepAndSave() returns (ghost maxInvDt: real)
      requires Valid() && cfl_rkl > 0.0 && stage == 1 && SomePositiveInvDt()
      modifies this`dt, dU0
      ensures Valid()
      ensures IsMaxInvDt(maxInvDt) && maxInvDt > 0.0 && ParabolicDt(dt, cfl_rkl, maxInvDt) && dt > 0.0
      ensures stage == 1 && cfl_rkl == old(cfl_rkl) && rmax_par == old(rmax_par)
      ensures forall nv, k, j, i | 0 <= nv < NVAR && data.InGrid(k, j, i) :: dU0[nv, k, j, i] == dU[nv, k, j, i]
    {
      maxInvDt := ComputeDt();
      SaveDU0();
    }

    /** RKL_Cycle_InitUc1 with mu~_1 of a cycle of s stages, and the primitive variables of
        the first stage: afterwards only the momentum of the active cells differs from
        Uc0, and Uc1 and Uc hold the first two values of Recursion. */
    method StartStages(s: int, muTilde: real, dtHyp: real)
      requires Valid() && Supported(dU0) && s >= MinStages(order) && muTilde == MuTilde1(order, s)
      requires forall nv, k, j, i | 0 <= nv < NVAR && data.InGrid(k, j, i) :: data.Uc0[nv, k, j, i] == data.Uc[nv, k, j, i]
      modifies Uc1, data.Uc, data.Vc
      ensures Running() && Recursed(s, dtHyp, [])
      ensures forall nv, k, j, i | 0 <= nv < NVAR && data.InGrid(k, j, i) ::
        var act := data.Active(k, j, i);
        Uc1[nv, k, j, i] == (if act then old(data.Uc[nv, k, j, i]) else old(Uc1[nv, k, j, i]))
        && data.Uc[nv, k, j, i]
           == (if act then FirstStageValue(MuTilde1(order, s), dtHyp, old(data.Uc[nv, k, j, i]), dU0[nv, k, j, i])
               else old(data.Uc[nv, k, j, i]))
    {
      InitUc1(muTilde, dtHyp);
      // outside the momentum of the active cells dU0 is zero, so the first stage keeps Uc
      forall nv, k, j, i | 0 <= nv < NVAR && data.InGrid(k, j, i) && !(data.Active(k, j, i) && IsMomentum(nv))
        ensures data.Uc[nv, k, j, i] == data.Uc0[nv, k, j, i]
      {
        assert muTilde * dtHyp * dU0[nv, k, j, i] == 0.0;
      }
      data.ConvertConsToPrim();
      assert MomentumOnly() == true;
    }

    /** The boundaries at `time` and the right-hand side of a stage after the first. */
    method EvaluateStage(time: real)
      requires Running()
      modifies data.Vc, dU, data.InvDt, data.FluxRiemann, data.dMax, data.viscSrc
      ensures Running()
      ensures Supported(dU) && StageInvDt(true)
    {
      data.SetBoundary(time);
      EvolveStage(time);
    }

    /** RKL_Cycle_UpdateUc with the coefficients of stage j of a cycle of s stages, then
        the primitive variables: the recursion advances by the stage's derivatives dU. */
    method AdvanceStage(s: int, j: int, mu: real, nu: real, muTilde: real, gamma: real, dtHyp: real,
                        ghost dUs: seq<imap<Index4, real>>)
      requires Running() && Recursed(s, dtHyp, dUs) && j >= 2 && |dUs| == j - 2
      requires mu == Mu(order, j) && nu == Nu(order, j) && muTilde == MuTilde(order, s, j) && gamma == Gamma(order, s, j)
      modifies data.Vc, data.Uc, Uc1
      ensures Running() && Recursed(s, dtHyp, dUs + [Snapshot4(dU)])
      ensures forall nv, k, j', i | 0 <= nv < NVAR && data.InGrid(k, j', i) ::
        var moved := data.Active(k, j', i) && IsMomentum(nv);
        Uc1[nv, k, j', i] == (if moved then old(data.Uc[nv, k, j', i]) else old(Uc1[nv, k, j', i]))
        && data.Uc[nv, k, j', i]
           == (if moved then StageMomentum(mu, nu, muTilde, gamma, dtHyp, nv, k, j', i,
                                           old(data.Uc[nv, k, j', i]), old(Uc1[nv, k, j', i]))
               else old(data.Uc[nv, k, j', i]))
    {
      UpdateUc(mu, nu, muTilde, gamma, dtHyp);
      ghost var x := Snapshot4(dU);
      forall nv, k, j', i | IsMomentum(nv) && data.Active(k, j', i)
        ensures var r := Recursion(order, s, dtHyp, data.Uc0[nv, k, j', i], dU0[nv, k, j', i], Column(dUs + [x], (nv, k, j', i)));
          Uc1[nv, k, j', i] == r.0 && data.Uc[nv, k, j', i] == r.1
      {
        var c := (nv, k, j', i);
        ColumnExtend(dUs, x, c);
        RecursionExtend(order, s, j, dtHyp, data.Uc0[nv, k, j', i], dU0[nv, k, j', i], Column(dUs, c), dU[nv, k, j', i]);
      }
      data.ConvertConsToPrim();
    }

    /** stage++ at the end of a stage. */
    method NextStage()
      requires Running()
      modifies this`stage
      ensures Running() && stage == old(stage) + 1
    {
      stage := stage + 1;
    }

    /** Stage j >= 2 of a cycle of s stages once its coefficients are known: boundaries
        at `time`, the stage's right-hand side dU, RKL_Cycle_UpdateUc and the primitive
        variables, then stage++. The momentum of each active cell moves to Uc1 and takes
        the stage value of stage j; the recursion advances by dU. */
    method Substage(s: int, j: int, mu: real, nu: real, muTilde: real, gamma: real, dtHyp: real,
                    time: real, ghost dUs: seq<imap<Index4, real>>)
      requires Running() && Recursed(s, dtHyp, dUs) && j >= 2 && |dUs| == j - 2 && stage == j
      requires mu == Mu(order, j) && nu == Nu(order, j) && muTilde == MuTilde(order, s, j) && gamma == Gamma(order, s, j)
      modifies this`stage, data.Vc, data.Uc, dU, data.InvDt, data.FluxRiemann, data.dMax, data.viscSrc, Uc1
      ensures Running() && Recursed(s, dtHyp, dUs + [Snapshot4(dU)])
      ensures Supported(dU)
      ensures forall nv, k, j', i | 0 <= nv < NVAR && data.InGrid(k, j', i) ::
        var moved := data.Active(k, j', i) && IsMomentum(nv);
        Uc1[nv, k, j', i] == (if moved then old(data.Uc[nv, k, j', i]) else old(Uc1[nv, k, j', i]))
        && data.Uc[nv, k, j', i]
           == (if moved then StageMomentum(mu, nu, muTilde, gamma, dtHyp, nv, k, j', i,
                                           old(data.Uc[nv, k, j', i]), old(Uc1[nv, k, j', i]))
               else old(data.Uc[nv, k, j', i]))
      ensures stage == j + 1 && dt == old(dt) && cfl_rkl == old(cfl_rkl) && rmax_par == old(rmax_par)
    {
      EvaluateStage(time);
      AdvanceStage(s, j, mu, nu, muTilde, gamma, dtHyp, dUs);
      NextStage();
    }

    /** One pass of the stage loop for stage j >= 2: its coefficients from the
        recurrence state (b_j, b_{j-1}, b_{j-2}, a_{j-1}), which advances to stage j + 1,
        then Substage at `time`; the stage's derivatives dU join the column dUs. */
    method StageStep(s: int, j: int, w1: real, bj: real, bjm1: real, bjm2: real, ajm1: real,
                     t: real, dtHyp: real, time: real, ghost times: seq<real>, ghost dUs: seq<imap<Index4, real>>)
      returns (bj': real, bjm1': real, bjm2': real, ajm1': real, nextTime: real, ghost times': seq<real>,
               ghost dUs': seq<imap<Index4, real>>)
      requires Running() && Recursed(s, dtHyp, dUs) && 2 <= j <= s && |dUs| == j - 2 && stage == j
      requires times + [time] == StageTimes(order, s, t, dtHyp, j)
      requires s >= MinStages(order) && w1 == W1(order, s)
      requires order == Second ==> bj == B(j) && bjm1 == B(j - 1) && bjm2 == B(j - 2) && ajm1 == 1.0 - B(j - 1)
      modifies this`stage, data.Vc, data.Uc, dU, data.InvDt, data.FluxRiemann, data.dMax, data.viscSrc, Uc1
      ensures times' + [nextTime] == StageTimes(order, s, t, dtHyp, j + 1)
      ensures Running() && |dUs'| == j - 1 && Recursed(s, dtHyp, dUs')
      ensures stage == j + 1 && dt == old(dt) && cfl_rkl == old(cfl_rkl) && rmax_par == old(rmax_par)
      ensures order == Second ==> bj' == B(j + 1) && bjm1' == B(j) && bjm2' == B(j - 1) && ajm1' == 1.0 - B(j)
    {
      var mu, nu, muTilde, gamma;
      mu, nu, muTilde, gamma, bj', bjm1', bjm2', ajm1' := AdvanceCoefficients(order, s, j, w1, bj, bjm1, bjm2, ajm1);
      nextTime := NextStageTime(order, s, t, dtHyp, j);
      Substage(s, j, mu, nu, muTilde, gamma, dtHyp, time, dUs);
      dUs' := dUs + [Snapshot4(dU)];
      times' := times + [time];
    }

    /** The stage loop of a cycle of s stages from t over dt_hyp: stages 2..s, each with
        the coefficients of its index; returns the times the stages were evaluated at, the
        time after the last stage, and the derivatives dU of stages 2..s, by which the
        momentum of the active cells ends at the last stage of Recursion. */
    method Stages(s: int, t: real, dtHyp: real)
      returns (ghost times: seq<real>, ghost endTime: real, ghost dUs: seq<imap<Index4, real>>)
      requires Running() && s >= MinStages(order) && Recursed(s, dtHyp, [])
      modifies this`stage, data.Vc, data.Uc, dU, data.InvDt, data.FluxRiemann, data.dMax, data.viscSrc, Uc1
      ensures Valid() && MomentumOnly()
      ensures stage == s + 1 && dt == old(dt) && cfl_rkl == old(cfl_rkl) && rmax_par == old(rmax_par)
      ensures times + [endTime] == StageTimes(order, s, t, dtHyp, s + 1)
      ensures |dUs| == s - 1 && Recursed(s, dtHyp, dUs)
    {
      var w1 := W1(order, s);
      var bj, bjm1, bjm2 := 1.0 / 3.0, 1.0 / 3.0, 1.0 / 3.0;
      var ajm1 := 1.0 - bjm1;
      times := [t];
      dUs := [];
      var time := NextStageTime(order, s, t, dtHyp, 1);
      var j := 2;
      ghost var jm1, jm2 := 1, 0;
      stage := j;
      while j <= s
        invariant 2 <= j <= s + 1 && stage == j
        // compared with true so that the verifier keeps Running as one fact
        invariant Running() == true
        invariant dt == old(dt) && cfl_rkl == old(cfl_rkl) && rmax_par == old(rmax_par)
        invariant jm1 == j - 1 && jm2 == j - 2
        invariant order == Second ==> bj == B(j) && bjm1 == B(jm1) && bjm2 == B(jm2) && ajm1 == 1.0 - B(jm1)
        invariant times + [time] == StageTimes(order, s, t, dtHyp, j)
        invariant |dUs| == jm2 && Recursed(s, dtHyp, dUs)
      {
        var next := j + 1;
        bj, bjm1, bjm2, ajm1, time, times, dUs := StageStep(s, j, w1, bj, bjm1, bjm2, ajm1, t, dtHyp, time, times, dUs);
        jm2, jm1, j := jm1, j, next;
      }
      endTime := time;
    }

    /** Cycle: one RKL cycle over the hyperbolic step dt_hyp = data.dt from data.t.
        Stage 1 evaluates the right-hand side at t and fixes the parabolic time step
        dt = (cfl_rkl * (1 / m)) / 2 from the largest stage-1 inverse time step m (over
        the snapshot invDt1 of InvDt), and from it the stage count s; each later stage j
        moves Uc by the recursion with the coefficients of stage j. The cycle has exactly
        s = StageCount stages, stage j > 1 is evaluated at t + dt_hyp * StageOffset(j - 1),
        the time after the last stage is t + dt_hyp, the momentum of every active cell
        ends at the last stage of Recursion over the derivatives dUs of stages 2..s, and
        only that momentum moves away from Uc0 (the conservative state at the start of the
        cycle). `sqrt` is std::sqrt, on exact reals. */
    method Cycle(sqrt: real -> real)
      returns (ghost stages: int, ghost times: seq<real>, ghost endTime: real,
               ghost invDt1: imap<Index3, real>, ghost maxInvDt: real, ghost dUs: seq<imap<Index4, real>>)
      requires Valid()
      requires data.dt >= 0.0 && cfl_rkl > 0.0
      requires forall x: real | x >= 0.0 :: sqrt(x) >= 0.0 && sqrt(x) * sqrt(x) == x
      modifies this`stage, this`dt, data.Vc, data.Uc, data.Uc0, dU, dU0, Uc1, data.InvDt, data.FluxRiemann, data.dMax, data.viscSrc
      ensures Valid()
      ensures maxInvDt > 0.0 && IsMaxOver(maxInvDt, invDt1) && ParabolicDt(dt, cfl_rkl, maxInvDt)
      ensures FirstStageShape(invDt1)
      ensures dt > 0.0 && data.dt / dt >= 0.0
      ensures stages == StagesOf(order, data.dt / dt, sqrt)
      ensures stage == stages + 1
      ensures times + [endTime] == StageTimes(order, stages, data.t, data.dt, stages + 1)
      ensures |dUs| == stages - 1 && Recursed(stages, data.dt, dUs)
      ensures MomentumOnly()
      ensures cfl_rkl == old(cfl_rkl) && rmax_par == old(rmax_par)
    {
      var t := data.t;
      var dtHyp := data.dt;
      var time := t;
      maxInvDt, invDt1 := StartCycle(time);
      var rklstages := StageCountOf(order, dtHyp, dt, sqrt);
      times, endTime, dUs := LaterStages(rklstages, t, dtHyp);
      stages := rklstages;
    }

    /** The start of Cycle and its first stage: stage 1, boundaries, Uc0 := Uc, the
        stage-1 right-hand side at `time`, the parabolic time step from the largest
        inverse time step (of the snapshot invDt1 of InvDt) and dU0 := dU. */
    method StartCycle(time: real) returns (ghost maxInvDt: real, ghost invDt1: imap<Index3, real>)
      requires Valid() && cfl_rkl > 0.0
      modifies this`stage, this`dt, data.Vc, data.Uc, data.Uc0, dU, dU0, data.InvDt, data.FluxRiemann, data.dMax, data.viscSrc
      ensures Valid() && Supported(dU0)
      ensures maxInvDt > 0.0 && IsMaxOver(maxInvDt, invDt1) && ParabolicDt(dt, cfl_rkl, maxInvDt) && dt > 0.0
      ensures FirstStageShape(invDt1)
      ensures forall k, j, i | data.InGrid(k, j, i) :: invDt1[(k, j, i)] == data.InvDt[k, j, i]
      ensures stage == 1 && cfl_rkl == old(cfl_rkl) && rmax_par == old(rmax_par)
      ensures forall nv, k, j, i | 0 <= nv < NVAR && data.InGrid(k, j, i) :: data.Uc0[nv, k, j, i] == data.Uc[nv, k, j, i]
    {
      PrepareCycle(time);
      maxInvDt := FirstStage(time);
      invDt1 := Snapshot3(data.InvDt);
      SnapshotShape();
    }

    /** After stage 1, the snapshot of InvDt has FirstStageShape. */
    lemma SnapshotShape()
      requires data.Shaped() && stage == 1 && StageInvDt(true)
      ensures FirstStageShape(Snapshot3(data.InvDt))
    {
      var v := Snapshot3(data.InvDt);
      var wk, wj, wi :| data.Active(wk, wj, wi) && data.InvDt[wk, wj, wi] > 0.0;
      assert data.InGrid(wk, wj, wi);
    }

    /** The cycle after the first stage: RKL_Cycle_InitUc1 with mu~_1 of a cycle of s
        stages, then the stage loop over stages 2..s. */
    method LaterStages(s: int, t: real, dtHyp: real)
      returns (ghost times: seq<real>, ghost endTime: real, ghost dUs: seq<imap<Index4, real>>)
      requires Valid() && Supported(dU0) && s >= MinStages(order)
      requires forall nv, k, j, i | 0 <= nv < NVAR && data.InGrid(k, j, i) :: data.Uc0[nv, k, j, i] == data.Uc[nv, k, j, i]
      modifies this`stage, data.Vc, data.Uc, dU, data.InvDt, data.FluxRiemann, data.dMax, data.viscSrc, Uc1
      ensures Valid() && MomentumOnly()
      ensures stage == s + 1 && dt == old(dt) && cfl_rkl == old(cfl_rkl) && rmax_par == old(rmax_par)
      ensures times + [endTime] == StageTimes(order, s, t, dtHyp, s + 1)
      ensures |dUs| == s - 1 && Recursed(s, dtHyp, dUs)
    {
      var muTilde := MuTilde1(order, s);
      StartStages(s, muTilde, dtHyp);
      times, endTime, dUs := Stages(s, t, dtHyp);
    }
  }
}
