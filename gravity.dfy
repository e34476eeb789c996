/** Gravity of a data block: the configuration read from the [Gravity] section of the
    input (which potentials and body force are enabled), the enrolment of the user's
    potential and body-force functions, and the computation of the potential phiP as a
    user potential or zero, plus the potential -M/r of a central mass. */
module Gravity {
  import opened Wrappers
  import opened Grid
  import opened Host

  /** The values of the [Gravity] section that Init reads: the list of `potential`
      entries, the first value of `Mcentral` and the first value of `bodyForce`, each
      absent when the entry is not in the input. */
  datatype GravityInput = GravityInput(potential: Option<seq<string>>, mcentral: Option<real>,
                                       bodyForce: Option<string>)

  /** The conditions under which the source stops with IDEFIX_ERROR. */
  datatype GravityError =
    | UnknownPotential
    | UnknownBodyForce
    | PotentialNotEnabled
    | BodyForceNotEnabled
    | PotentialNotEnrolled
    | BodyForceNotEnrolled
    | PlanetsNotImplemented
    | SelfGravityNotImplemented

  datatype Status = Ok | Failed(error: GravityError)

  /** The configuration of a gravity object: which potentials and forces are enabled,
      which arrays are allocated, and the central mass. */
  datatype Config = Config(potential: bool, userDef: bool, central: bool, selfGravity: bool,
                           planets: bool, bodyForce: bool, initialisedPotential: bool,
                           initialisedBodyForce: bool, mass: real)

  /** A user-supplied function (GravPotentialFunc or BodyForceFunc), known by its name. */
  datatype Callback = Callback(name: string)

  /** The potentials Init can enable. */
  datatype Potential = UserDef | Central | SelfGravity

  /** The potential an entry of the `potential` list names, if Init recognises it. */
  function ParsePotential(name: string): (r: Option<Potential>)
    ensures r.Some? ==> PotentialName(r.value) == name
  {
    if name == "userdef" then Some(UserDef)
    else if name == "central" then Some(Central)
    else if name == "selfgravity" then Some(SelfGravity)
    else None
  }

  /** The name of a potential in the `potential` list of the input file. */
  function PotentialName(p: Potential): string
  {
    match p
    case UserDef => "userdef"
    case Central => "central"
    case SelfGravity => "selfgravity"
  }

  /** Every potential is recognised by its own name. */
  lemma ParsePotentialName(p: Potential)
    ensures ParsePotential(PotentialName(p)) == Some(p)
  {
  }

  /** Some of the first `n` entries names potential `p`. */
  predicate Names(entries: seq<string>, n: int, p: Potential)
    requires 0 <= n <= |entries|
  {
    exists m | 0 <= m < n :: ParsePotential(entries[m]) == Some(p)
  }

  /** The first n + 1 entries name `p` iff the first n do or entry n does. */
  lemma NamesNext(entries: seq<string>, n: int, p: Potential)
    requires 0 <= n < |entries|
    ensures Names(entries, n + 1, p) <==> Names(entries, n, p) || ParsePotential(entries[n]) == Some(p)
  {
    if ParsePotential(entries[n]) == Some(p) {
      assert Names(entries, n + 1, p);
    } else if Names(entries, n + 1, p) {
      var m :| 0 <= m < n + 1 && ParsePotential(entries[m]) == Some(p);
      assert m < n;
    }
  }

  /** Every potential entry of the input is recognised. */
  predicate PotentialsKnown(input: GravityInput)
  {
    input.potential.Some? ==>
      forall m | 0 <= m < |input.potential.value| :: ParsePotential(input.potential.value[m]).Some?
  }

  /** The body force of the input, if any, is the only implemented one. */
  predicate BodyForceKnown(input: GravityInput)
  {
    input.bodyForce.Some? ==> input.bodyForce.value == "userdef"
  }

  /** The input lists potential `p`. */
  predicate Requests(input: GravityInput, p: Potential)
  {
    input.potential.Some? && Names(input.potential.value, |input.potential.value|, p)
  }

  /** The loop of Gravity::Init over the `potential` entries: which potentials they
      enable and the central mass that results, starting from `mass0` and taking Mcentral
      when a central potential is listed. The loop stops at the first unrecognised entry,
      where `known` is false and the source raises an error. */
  method ScanPotentials(entries: seq<string>, mcentral: Option<real>, mass0: real)
    returns (known: bool, userDef: bool, central: bool, selfGravity: bool, mass: real)
    ensures known <==> forall m | 0 <= m < |entries| :: ParsePotential(entries[m]).Some?
    ensures known ==> userDef == Names(entries, |entries|, UserDef)
    ensures known ==> central == Names(entries, |entries|, Central)
    ensures known ==> selfGravity == Names(entries, |entries|, SelfGravity)
    ensures known ==> mass == (if central && mcentral.Some? then mcentral.value else mass0)
  {
    known, userDef, central, selfGravity, mass := true, false, false, false, mass0;
    var i := 0;
    while i < |entries|
      invariant 0 <= i <= |entries|
      invariant forall m | 0 <= m < i :: ParsePotential(entries[m]).Some?
      invariant userDef == Names(entries, i, UserDef)
      invariant central == Names(entries, i, Central)
      invariant selfGravity == Names(entries, i, SelfGravity)
      invariant mass == (if central && mcentral.Some? then mcentral.value else mass0)
    {
      NamesNext(entries, i, UserDef);
      NamesNext(entries, i, Central);
      NamesNext(entries, i, SelfGravity);
      match ParsePotential(entries[i]) {
        case Some(UserDef) =>
          userDef := true;
        case Some(Central) =>
          central := true;
          if mcentral.Some? {
            mass := mcentral.value;
          }
        case Some(SelfGravity) =>
          selfGravity := true;
        case None =>
          known := false;
          return;
      }
      i := i + 1;
    }
  }

  /** The status Init ends with: an error at the first unknown potential, else at an
      unknown body force. */
  function InitStatus(input: GravityInput): Status
  {
    if !PotentialsKnown(input) then Failed(UnknownPotential)
    else if !BodyForceKnown(input) then Failed(UnknownBodyForce)
    else Ok
  }

  /** The configuration after the potential part of Init: every listed potential is
      enabled, and the central mass is Mcentral when a central potential is listed and
      Mcentral is given. */
  function EnabledPotentials(input: GravityInput, c: Config): Config
  {
    c.(potential := c.potential || input.potential.Some?,
       userDef := c.userDef || Requests(input, UserDef),
       central := c.central || Requests(input, Central),
       selfGravity := c.selfGravity || Requests(input, SelfGravity),
       mass := if Requests(input, Central) && input.mcentral.Some? then input.mcentral.value else c.mass)
  }

  /** The configuration after the body-force part of Init. */
  function EnabledBodyForce(input: GravityInput, c: Config): Config
  {
    c.(bodyForce := c.bodyForce || input.bodyForce.Some?)
  }

  /** The configuration after the allocation part of Init: every enabled quantity has
      its array. */
  function WithArrays(c: Config): (r: Config)
    ensures r.potential ==> r.initialisedPotential
    ensures r.bodyForce ==> r.initialisedBodyForce
  {
    c.(initialisedPotential := c.initialisedPotential || c.potential,
       initialisedBodyForce := c.initialisedBodyForce || c.bodyForce)
  }

  /** The configuration after a successful Init on `input` from configuration `c`. */
  function Configured(input: GravityInput, c: Config): Config
  {
    WithArrays(EnabledBodyForce(input, EnabledPotentials(input, c)))
  }

  /** Init enables and allocates only: what was enabled or allocated stays so. */
  lemma ConfiguredMonotone(input: GravityInput, c: Config)
    ensures var r := Configured(input, c);
      (c.potential ==> r.potential) && (c.userDef ==> r.userDef) && (c.central ==> r.central)
      && (c.selfGravity ==> r.selfGravity) && r.planets == c.planets && (c.bodyForce ==> r.bodyForce)
      && (c.initialisedPotential ==> r.initialisedPotential)
      && (c.initialisedBodyForce ==> r.initialisedBodyForce)
  {
  }

  /** Calling Init twice with the same input configures as calling it once. */
  lemma ConfiguredIdempotent(input: GravityInput, c: Config)
    ensures Configured(input, Configured(input, c)) == Configured(input, c)
  {
  }

  /** The distance r to the central mass of the cell with coordinates (x1, x2, x3) in the
      GEOMETRY the code is built for (three dimensions): 1 in Cartesian geometry, x1 in
      spherical, sqrt(x1^2 + x3^2) in polar, sqrt(x1^2 + x2^2) in cylindrical. */
  function Radius(geometry: Geometry, x1: real, x2: real, x3: real, sqrt: real -> real): real
  {
    match geometry
    case Cartesian => 1.0
    case Spherical => x1
    case Polar => sqrt(x1 * x1 + x3 * x3)
    case Cylindrical => sqrt(x1 * x1 + x2 * x2)
  }

  /** The potential -M/r of a central mass M at distance r. */
  function CentralPotential(mass: real, r: real): real
    requires r != 0.0
  {
    -mass / r
  }

  /** The radius is positive when x1, the radial coordinate of the curvilinear
      geometries, is; of std::sqrt only its positivity on positive reals is used. */
  lemma RadiusPositive(geometry: Geometry, x1: real, x2: real, x3: real, sqrt: real -> real)
    requires geometry != Cartesian ==> x1 > 0.0
    requires forall x: real | x > 0.0 :: sqrt(x) > 0.0
    ensures Radius(geometry, x1, x2, x3, sqrt) > 0.0
  {
    match geometry
    case Cartesian =>
    case Spherical =>
    case Polar => SumOfSquaresPositive(x1, x3);
    case Cylindrical => SumOfSquaresPositive(x1, x2);
  }

  /** x^2 + y^2 > 0 for x > 0. */
  lemma SumOfSquaresPositive(x: real, y: real)
    requires x > 0.0
    ensures x * x + y * y > 0.0
  {
    assert x * x > 0.0;
    assert y * y >= 0.0;
  }

  class Gravity {
    const data: DataBlock
    /** Which potentials and forces are enabled. */
    var havePotential: bool
    var haveUserDefPotential: bool
    var haveCentralMassPotential: bool
    var haveSelfGravityPotential: bool
    var havePlanetsPotential: bool
    var haveBodyForce: bool
    /** Whether phiP and bodyForceVector have been allocated. */
    var haveInitialisedPotential: bool
    var haveInitialisedBodyForce: bool
    var centralMass: real
    /** The potential (k, j, i) and the body force (component, k, j, i). */
    var phiP: array3<real>
    var bodyForceVector: array4<real>
    /** The enrolled user functions; None is a null pointer. */
    var gravPotentialFunc: Option<Callback>
    var bodyForceFunc: Option<Callback>

    /** A gravity object of `data` with nothing enabled, no enrolled functions and empty
        arrays; `centralMass` is the default mass. */
    constructor (data: DataBlock, centralMass: real)
      ensures this.data == data && this.centralMass == centralMass
      ensures !havePotential && !haveUserDefPotential && !haveCentralMassPotential
      ensures !haveSelfGravityPotential && !havePlanetsPotential && !haveBodyForce
      ensures !haveInitialisedPotential && !haveInitialisedBodyForce
      ensures gravPotentialFunc == None && bodyForceFunc == None
    {
      this.data := data;
      this.centralMass := centralMass;
      havePotential, haveUserDefPotential, haveCentralMassPotential := false, false, false;
      haveSelfGravityPotential, havePlanetsPotential, haveBodyForce := false, false, false;
      haveInitialisedPotential, haveInitialisedBodyForce := false, false;
      phiP := new real[0, 0, 0];
      bodyForceVector := new real[0, 0, 0, 0];
      gravPotentialFunc, bodyForceFunc := None, None;
    }

    /** bodyForceVector has COMPONENTS components over the full extent. */
    predicate BodyForceShaped()
      reads this
    {
      data.Field4(bodyForceVector, COMPONENTS)
    }

    /** The allocated arrays have the shape of the data block. */
    predicate Allocated()
      reads this
    {
      data.Sized()
      && (haveInitialisedPotential ==> data.Field3(phiP))
      && (haveInitialisedBodyForce ==> BodyForceShaped())
    }

    /** After Init: every enabled quantity has its array. */
    predicate Valid()
      reads this
    {
      Allocated()
      && (havePotential ==> haveInitialisedPotential)
      && (haveBodyForce ==> haveInitialisedBodyForce)
    }

    /** Gravity::Init: marks the data block as having gravity, enables the potentials
        listed in the input and the user body force, and allocates each needed array that
        is not allocated yet. Stops at the first unknown potential, or at an unknown body
        force. */
    method Init(input: GravityInput) returns (status: Status)
      requires Allocated()
      modifies this, data`haveGravity
      ensures data.haveGravity
      ensures status == InitStatus(input)
      ensures status == Ok ==> Valid() && Configuration() == Configured(input, old(Configuration()))
      ensures status == Ok ==> gravPotentialFunc == old(gravPotentialFunc) && bodyForceFunc == old(bodyForceFunc)
      ensures old(haveInitialisedPotential) ==> phiP == old(phiP)
      ensures old(haveInitialisedBodyForce) ==> bodyForceVector == old(bodyForceVector)
      ensures phiP != old(phiP) ==> fresh(phiP) && AllZero3(phiP)
      ensures bodyForceVector != old(bodyForceVector) ==> fresh(bodyForceVector) && AllZero4(bodyForceVector)
    {
      data.haveGravity := true;
      ghost var c0 := Configuration();
      var known := EnablePotentials(input);
      if !known {
        return Failed(UnknownPotential);
      }
      known := EnableBodyForce(input);
      if !known {
        return Failed(UnknownBodyForce);
      }
      Allocate();
      assert Configuration() == WithArrays(EnabledBodyForce(input, EnabledPotentials(input, c0)));
      status := Ok;
    }

    /** The configuration, as a value. */
    function Configuration(): Config
      reads this
    {
      Config(havePotential, haveUserDefPotential, haveCentralMassPotential, haveSelfGravityPotential,
             havePlanetsPotential, haveBodyForce, haveInitialisedPotential, haveInitialisedBodyForce,
             centralMass)
    }

    /** The potential part of Gravity::Init. */
    method EnablePotentials(input: GravityInput) returns (known: bool)
      modifies this`havePotential, this`haveUserDefPotential, this`haveCentralMassPotential,
               this`haveSelfGravityPotential, this`centralMass
      ensures known == PotentialsKnown(input)
      ensures known ==> Configuration() == EnabledPotentials(input, old(Configuration()))
    {
      known := true;
      if input.potential.Some? {
        havePotential := true;
        var userDef, central, selfGravity, mass;
        known, userDef, central, selfGravity, mass :=
          ScanPotentials(input.potential.value, input.mcentral, centralMass);
        haveUserDefPotential := haveUserDefPotential || userDef;
        haveCentralMassPotential := haveCentralMassPotential || central;
        haveSelfGravityPotential := haveSelfGravityPotential || selfGravity;
        centralMass := mass;
      }
    }

    /** The body-force part of Gravity::Init: only "userdef" is known. */
    method EnableBodyForce(input: GravityInput) returns (known: bool)
      modifies this`haveBodyForce
      ensures known == BodyForceKnown(input)
      ensures known ==> Configuration() == EnabledBodyForce(input, old(Configuration()))
    {
      known := true;
      if input.bodyForce.Some? {
        if input.bodyForce.value == "userdef" {
          haveBodyForce := true;
        } else {
          known := false;
        }
      }
    }

    /** The allocation part of Gravity::Init: a zero-filled array for each enabled
        quantity whose array is not allocated yet. */
    method Allocate()
      requires Allocated()
      modifies this`phiP, this`bodyForceVector, this`haveInitialisedPotential, this`haveInitialisedBodyForce
      ensures Valid() && Configuration() == WithArrays(old(Configuration()))
      ensures old(haveInitialisedPotential) ==> phiP == old(phiP)
      ensures old(haveInitialisedBodyForce) ==> bodyForceVector == old(bodyForceVector)
      ensures phiP != old(phiP) ==> fresh(phiP) && AllZero3(phiP)
      ensures bodyForceVector != old(bodyForceVector) ==> fresh(bodyForceVector) && AllZero4(bodyForceVector)
    {
      if havePotential && !haveInitialisedPotential {
        phiP := new real[data.np[KDIR], data.np[JDIR], data.np[IDIR]]((k, j, i) => 0.0);
        haveInitialisedPotential := true;
      }
      if haveBodyForce && !haveInitialisedBodyForce {
        bodyForceVector := new real[COMPONENTS, data.np[KDIR], data.np[JDIR], data.np[IDIR]]((c, k, j, i) => 0.0);
        haveInitialisedBodyForce := true;
      }
    }

    /** Gravity::EnrollPotential: stores the user potential, which must have been enabled. */
    method EnrollPotential(myFunc: Callback) returns (status: Status)
      modifies this
      ensures status == Ok <==> haveUserDefPotential
      ensures status != Ok ==> status == Failed(PotentialNotEnabled)
      ensures gravPotentialFunc == (if status == Ok then Some(myFunc) else old(gravPotentialFunc))
      ensures unchanged(this`havePotential, this`haveUserDefPotential, this`haveCentralMassPotential,
                        this`haveSelfGravityPotential, this`havePlanetsPotential, this`haveBodyForce)
      ensures unchanged(this`haveInitialisedPotential, this`haveInitialisedBodyForce, this`centralMass)
      ensures unchanged(this`phiP, this`bodyForceVector, this`bodyForceFunc)
    {
      if !haveUserDefPotential {
        return Failed(PotentialNotEnabled);
      }
      gravPotentialFunc := Some(myFunc);
      status := Ok;
    }

    /** Gravity::EnrollBodyForce: stores the user body force, which must have been enabled. */
    method EnrollBodyForce(myFunc: Callback) returns (status: Status)
      modifies this
      ensures status == Ok <==> haveBodyForce
      ensures status != Ok ==> status == Failed(BodyForceNotEnabled)
      ensures bodyForceFunc == (if status == Ok then Some(myFunc) else old(bodyForceFunc))
      ensures unchanged(this`havePotential, this`haveUserDefPotential, this`haveCentralMassPotential,
                        this`haveSelfGravityPotential, this`havePlanetsPotential, this`haveBodyForce)
      ensures unchanged(this`haveInitialisedPotential, this`haveInitialisedBodyForce, this`centralMass)
      ensures unchanged(this`phiP, this`bodyForceVector, this`gravPotentialFunc)
    {
      if !haveBodyForce {
        return Failed(BodyForceNotEnabled);
      }
      bodyForceFunc := Some(myFunc);
      status := Ok;
    }

    /** The enrolled user potential, called on the data block at its current time; it
        may write anything into phiP. */
    method CallPotentialFunc()
      requires Valid() && havePotential
      modifies phiP
    {
    }

    /** The enrolled user body force; it may write anything into bodyForceVector. */
    method CallBodyForceFunc()
      requires Valid() && haveBodyForce
      modifies bodyForceVector
    {
    }

    /** Gravity::ResetPotential: phiP is zero over the full extent. */
    method ResetPotential()
      requires Valid() && havePotential
      modifies phiP
      ensures AllZero3(phiP)
    {
      Fill3(phiP, 0.0);
    }

    /** Every cell has a positive distance to the central mass: the radial coordinate x1
        is positive when the geometry is curvilinear. */
    predicate RadiiPositive()
      reads data.x
    {
      data.Sized()
      && (data.geometry != Cartesian ==> forall i | 0 <= i < data.np[IDIR] :: data.x[IDIR][i] > 0.0)
    }

    /** The central-mass potential of cell (k, j, i). */
    function CellPotential(k: int, j: int, i: int, sqrt: real -> real): real
      requires RadiiPositive() && data.InGrid(k, j, i)
      requires forall x: real | x > 0.0 :: sqrt(x) > 0.0
      reads this, data.x
    {
      var x1, x2, x3 := data.x[IDIR][i], data.x[JDIR][j], data.x[KDIR][k];
      RadiusPositive(data.geometry, x1, x2, x3, sqrt);
      CentralPotential(centralMass, Radius(data.geometry, x1, x2, x3, sqrt))
    }

    /** Gravity::AddCentralMassPotential: adds -M/r of the central mass to every cell. */
    method AddCentralMassPotential(sqrt: real -> real)
      requires Valid() && havePotential && RadiiPositive()
      requires forall x: real | x > 0.0 :: sqrt(x) > 0.0
      modifies phiP
      ensures forall k, j, i | data.InGrid(k, j, i) ::
        phiP[k, j, i] == old(phiP[k, j, i]) + CellPotential(k, j, i, sqrt)
    {
      var k := 0;
      while k < data.np[KDIR]
        invariant 0 <= k <= data.np[KDIR]
        invariant forall k', j', i' | data.InGrid(k', j', i') ::
          phiP[k', j', i'] == old(phiP[k', j', i']) + (if Before(k', j', i', k, 0, 0) then CellPotential(k', j', i', sqrt) else 0.0)
      {
        var j := 0;
        while j < data.np[JDIR]
          invariant 0 <= j <= data.np[JDIR]
          invariant forall k', j', i' | data.InGrid(k', j', i') ::
            phiP[k', j', i'] == old(phiP[k', j', i']) + (if Before(k', j', i', k, j, 0) then CellPotential(k', j', i', sqrt) else 0.0)
        {
          var i := 0;
          while i < data.np[IDIR]
            invariant 0 <= i <= data.np[IDIR]
            invariant forall k', j', i' | data.InGrid(k', j', i') ::
              phiP[k', j', i'] == old(phiP[k', j', i']) + (if Before(k', j', i', k, j, i) then CellPotential(k', j', i', sqrt) else 0.0)
          {
            phiP[k, j, i] := phiP[k, j, i] + CellPotential(k, j, i, sqrt);
            i := i + 1;
          }
          j := j + 1;
        }
        k := k + 1;
      }
    }

    /** Gravity::ComputeGravity: the potential is the user potential (which must be
        enrolled) or zero, plus the central-mass potential when enabled; planets and
        self-gravity are not implemented; the body force is the user body force, which
        must be enrolled. The source stops at the first failing check, in this order. */
    method ComputeGravity(sqrt: real -> real) returns (status: Status)
      requires Valid() && (haveCentralMassPotential ==> RadiiPositive())
      requires forall x: real | x > 0.0 :: sqrt(x) > 0.0
      modifies phiP, bodyForceVector
      ensures status == Failed(PotentialNotEnrolled) <==>
        havePotential && haveUserDefPotential && gravPotentialFunc.None?
      ensures status == Failed(PlanetsNotImplemented) <==>
        havePotential && !(haveUserDefPotential && gravPotentialFunc.None?) && havePlanetsPotential
      ensures status == Failed(SelfGravityNotImplemented) <==>
        havePotential && !(haveUserDefPotential && gravPotentialFunc.None?) && !havePlanetsPotential
        && haveSelfGravityPotential
      ensures status == Failed(BodyForceNotEnrolled) <==>
        !(havePotential && ((haveUserDefPotential && gravPotentialFunc.None?) || havePlanetsPotential
                            || haveSelfGravityPotential))
        && haveBodyForce && bodyForceFunc.None?
      ensures status == Ok || status == Failed(PotentialNotEnrolled) || status == Failed(PlanetsNotImplemented)
              || status == Failed(SelfGravityNotImplemented) || status == Failed(BodyForceNotEnrolled)
      ensures havePotential && !haveUserDefPotential ==>
        forall k, j, i | data.InGrid(k, j, i) ::
          phiP[k, j, i] == (if haveCentralMassPotential then CellPotential(k, j, i, sqrt) else 0.0)
      ensures !havePotential || status == Failed(PotentialNotEnrolled) ==> unchanged(phiP)
      ensures !haveBodyForce || status != Ok ==> unchanged(bodyForceVector)
    {
      if havePotential {
        if haveUserDefPotential {
          if gravPotentialFunc.None? {
            return Failed(PotentialNotEnrolled);
          }
          CallPotentialFunc();
        } else {
          ResetPotential();
        }
        if haveCentralMassPotential {
          AddCentralMassPotential(sqrt);
        }
        if havePlanetsPotential {
          return Failed(PlanetsNotImplemented);
        }
        if haveSelfGravityPotential {
          return Failed(SelfGravityNotImplemented);
        }
      }
      if haveBodyForce {
        if bodyForceFunc.None? {
          return Failed(BodyForceNotEnrolled);
        }
        CallBodyForceFunc();
      }
      status := Ok;
    }
  }

  /** Every element of the 4-D field `a` is zero. */
  ghost predicate AllZero4(a: array4<real>)
    reads a
  {
    forall c, k, j, i | 0 <= c < a.Length0 && 0 <= k < a.Length1 && 0 <= j < a.Length2 && 0 <= i < a.Length3 ::
      a[c, k, j, i] == 0.0
  }

  /** Every element of the 3-D field `a` is zero. */
  ghost predicate AllZero3(a: array3<real>)
    reads a
  {
    forall k, j, i | 0 <= k < a.Length0 && 0 <= j < a.Length1 && 0 <= i < a.Length2 :: a[k, j, i] == 0.0
  }
}
