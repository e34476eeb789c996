/** Optional values: an input entry that may be absent, a function pointer that may be null. */
module Wrappers {
  datatype Option<T> = None | Some(value: T)
}

/** The part of the host data block that the parabolic driver and gravity work on: the
    grid extents, the cell-centred fields of the hydro solver, the geometric factors,
    and the solver routines the driver calls but that are not part of this model. */
module Host {
  import opened Grid

  /** Cell-centred variables of a hydrodynamic build with an energy equation:
      RHO, VX1..VX3 (momentum MX1..MX3 in conservative form), PRS. */
  const NVAR := 5
  const VX1 := 1
  const COMPONENTS := 3
  const DIMENSIONS := 3
  const IDIR := 0
  const JDIR := 1
  const KDIR := 2

  /** The GEOMETRY the code is built for. */
  datatype Geometry = Cartesian | Polar | Cylindrical | Spherical

  /** The velocity/momentum components VX1 .. VX1+COMPONENTS-1. */
  predicate IsMomentum(nv: int)
  {
    VX1 <= nv < VX1 + COMPONENTS
  }

  class DataBlock {
    const geometry: Geometry
    /** np_tot, beg and end per direction (IDIR, JDIR, KDIR): the total extent including
        ghost cells, and the half-open range [beg, end) of active cells. */
    const np: seq<int>
    const beg: seq<int>
    const end: seq<int>
    /** Cell-centre coordinates x[dir] and cell widths dx[dir] along each direction. */
    const x: seq<array<real>>
    const dx: seq<array<real>>
    /** Cell volumes and the face areas A[dir] of the left faces along dir. */
    const dV: array3<real>
    const A: seq<array3<real>>
    /** Hydro fields (variable, k, j, i): primitive Vc, conservative Uc, the conservative
        state Uc0 at the start of a cycle, the face fluxes, and the viscous source terms. */
    const Vc: array4<real>
    const Uc: array4<real>
    const Uc0: array4<real>
    const FluxRiemann: array4<real>
    const viscSrc: array4<real>
    /** Inverse parabolic time step and the maximal diffusion coefficient, per cell. */
    const InvDt: array3<real>
    const dMax: array3<real>
    /** Whether viscosity is integrated by the parabolic driver. */
    const isRKLViscosity: bool
    var t: real
    var dt: real
    var haveGravity: bool

    constructor (geometry: Geometry, np: seq<int>, beg: seq<int>, end: seq<int>,
                 x: seq<array<real>>, dx: seq<array<real>>, dV: array3<real>, A: seq<array3<real>>,
                 Vc: array4<real>, Uc: array4<real>, Uc0: array4<real>, FluxRiemann: array4<real>,
                 viscSrc: array4<real>, InvDt: array3<real>, dMax: array3<real>,
                 isRKLViscosity: bool, t: real, dt: real)
      ensures this.geometry == geometry && this.np == np && this.beg == beg && this.end == end
      ensures this.x == x && this.dx == dx && this.dV == dV && this.A == A
      ensures this.Vc == Vc && this.Uc == Uc && this.Uc0 == Uc0 && this.FluxRiemann == FluxRiemann
      ensures this.viscSrc == viscSrc && this.InvDt == InvDt && this.dMax == dMax
      ensures this.isRKLViscosity == isRKLViscosity && this.t == t && this.dt == dt
      ensures !this.haveGravity
    {
      this.geometry := geometry;
      this.np := np;
      this.beg := beg;
      this.end := end;
      this.x := x;
      this.dx := dx;
      this.dV := dV;
      this.A := A;
      this.Vc := Vc;
      this.Uc := Uc;
      this.Uc0 := Uc0;
      this.FluxRiemann := FluxRiemann;
      this.viscSrc := viscSrc;
      this.InvDt := InvDt;
      this.dMax := dMax;
      this.isRKLViscosity := isRKLViscosity;
      this.t := t;
      this.dt := dt;
      this.haveGravity := false;
    }

    /** (k, j, i) lies in the full ghost-inclusive extent. */
    predicate InGrid(k: int, j: int, i: int)
    {
      |np| == 3 && 0 <= k < np[KDIR] && 0 <= j < np[JDIR] && 0 <= i < np[IDIR]
    }

    /** (k, j, i) is an active (non-ghost) cell. */
    predicate Active(k: int, j: int, i: int)
    {
      |beg| == 3 && |end| == 3
      && beg[KDIR] <= k < end[KDIR] && beg[JDIR] <= j < end[JDIR] && beg[IDIR] <= i < end[IDIR]
    }

    /** A 4-D field with `n` variables over the full extent. */
    predicate Field4(a: array4<real>, n: int)
    {
      |np| == 3 && a.Length0 == n && a.Length1 == np[KDIR] && a.Length2 == np[JDIR] && a.Length3 == np[IDIR]
    }

    /** A 3-D field over the full extent. */
    predicate Field3(a: array3<real>)
    {
      |np| == 3 && a.Length0 == np[KDIR] && a.Length1 == np[JDIR] && a.Length2 == np[IDIR]
    }

    /** Three directions, each with its cell-centre coordinates. */
    predicate Sized()
    {
      |np| == 3 && |x| == 3
      && x[IDIR].Length == np[IDIR] && x[JDIR].Length == np[JDIR] && x[KDIR].Length == np[KDIR]
    }

    /** Extents and field shapes: at least one active cell and one ghost layer after the
        active range in every direction, and separately allocated fields. */
    predicate Shaped()
    {
      |np| == 3 && |beg| == 3 && |end| == 3 && |x| == 3 && |dx| == 3 && |A| == 3
      && (forall d | 0 <= d < 3 :: 0 <= beg[d] < end[d] < np[d])
      && (forall d | 0 <= d < 3 :: x[d].Length == np[d] && dx[d].Length == np[d] && Field3(A[d]))
      && Field4(Vc, NVAR) && Field4(Uc, NVAR) && Field4(Uc0, NVAR) && Field4(FluxRiemann, NVAR)
      && Field4(viscSrc, COMPONENTS) && Field3(dV) && Field3(InvDt) && Field3(dMax)
      && Uc != Uc0 && Uc != Vc && Uc != FluxRiemann && Uc != viscSrc && Uc0 != Vc
      && Uc0 != FluxRiemann && Uc0 != viscSrc && FluxRiemann != Vc && FluxRiemann != viscSrc
      && InvDt !in Metric() && Uc !in Metric() && Vc !in Metric() && FluxRiemann !in Metric()
      && viscSrc !in Metric() && InvDt != A[0] && InvDt != A[1] && InvDt != A[2]
    }

    /** The objects whose contents Valid depends on. */
    function Metric(): set<object>
    {
      if |dx| == 3 then {dMax, dV, dx[0], dx[1], dx[2]} else {dMax, dV}
    }

    /** Shapes, positive cell volumes and cell widths, and non-negative diffusion
        coefficients that are positive in some active cell (so that the parabolic time
        step, which divides by the largest inverse time step, is defined). */
    ghost predicate Valid()
      reads Metric()
    {
      Shaped()
      && (forall k, j, i | InGrid(k, j, i) :: dV[k, j, i] > 0.0 && dMax[k, j, i] >= 0.0)
      && (exists k, j, i | Active(k, j, i) :: dMax[k, j, i] > 0.0)
      && (forall d, n | 0 <= d < 3 && 0 <= n < np[d] :: dx[d][n] > 0.0)
    }

    /** Fills the ghost cells of the primitive variables at time `time`. */
    method SetBoundary(time: real)
      requires Valid()
      modifies Vc
      ensures Valid()
    {
    }

    /** Recomputes Uc from Vc. */
    method ConvertPrimToCons()
      requires Valid()
      modifies Uc
      ensures Valid()
    {
    }

    /** Recomputes Vc from Uc. */
    method ConvertConsToPrim()
      requires Valid()
      modifies Vc
      ensures Valid()
    {
    }

    /** Computes the parabolic fluxes along `dir` at time `time` into FluxRiemann, the
        diffusion coefficients into dMax and the viscous source terms into viscSrc. */
    method CalcParabolicFlux(dir: int, time: real)
      requires Valid() && 0 <= dir < DIMENSIONS
      modifies FluxRiemann, dMax, viscSrc
      ensures Valid()
    {
    }
  }
}
