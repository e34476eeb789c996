/** Stage count, stage coefficients and stage times of the Runge-Kutta-Legendre
    super-time-stepping scheme (first or second order), on exact reals. */
module RklCoefficients {

  /** The scheme order, RKL_ORDER in the source (2 unless configured otherwise). */
  datatype Order = First | Second

  /** The argument of the square root in the closed-form stage count:
      1 + 8r for order 1, 9 + 16r for order 2. */
  function Discriminant(order: Order, ratio: real): real
  {
    match order
    case First => 1.0 + 2.0 * 4.0 * ratio
    case Second => 3.0 * 3.0 + 4.0 * 4.0 * ratio
  }

  /** The left-hand side of the stability equation: s^2+s (order 1), s^2+s-2 (order 2). */
  function StagePoly(order: Order, s: real): real
  {
    match order
    case First => s * s + s
    case Second => s * s + s - 2.0
  }

  /** The right-hand side of the stability equation: 2r (order 1), 4r (order 2),
      with r = dt_hyp / dt_parabolic. */
  function StageTarget(order: Order, ratio: real): real
  {
    match order
    case First => 2.0 * ratio
    case Second => 4.0 * ratio
  }

  /** Fewest stages a cycle of each order can have. */
  function MinStages(order: Order): int
  {
    match order
    case First => 1
    case Second => 2
  }

  /** The real root `nrkl` of the stability equation, as the source evaluates it
      from the square root `root` of the discriminant. */
  function Nrkl(order: Order, ratio: real, root: real): (n: real)
    requires ratio >= 0.0 && root >= 0.0 && root * root == Discriminant(order, ratio)
    ensures n >= 0.0 && StagePoly(order, n) == StageTarget(order, ratio)
    ensures order == Second ==> n >= 1.0
  {
    RootIsHalfRootMinusOne(order, ratio, root);
    match order
    case First => 4.0 * ratio / (1.0 + root)
    case Second => 4.0 * (1.0 + 2.0 * ratio) / (1.0 + root)
  }

  /** A product of positive reals is positive. */
  lemma MulPos(a: real, b: real)
    requires a > 0.0 && b > 0.0
    ensures a * b > 0.0
  {
  }

  /** A non-negative real over a positive one is non-negative. */
  lemma DivNonNeg(a: real, b: real)
    requires a >= 0.0 && b > 0.0
    ensures a / b >= 0.0
  {
  }

  /** Squares of non-negative reals are ordered like the reals. */
  lemma SquareMonotone(x: real, y: real)
    ensures 0.0 <= x < y ==> x * x < y * y
  {
    if 0.0 <= x < y {
      MulPos(y - x, y + x);
      assert y * y - x * x == (y - x) * (y + x);
    }
  }

  /** A quotient is determined by the product it inverts. */
  lemma DivideExact(x: real, y: real, h: real)
    requires y != 0.0 && x == y * h
    ensures x / y == h
  {
  }

  /** The division in Nrkl equals (root - 1) / 2, the positive root of the quadratic. */
  lemma RootIsHalfRootMinusOne(order: Order, ratio: real, root: real)
    requires ratio >= 0.0 && root >= 0.0 && root * root == Discriminant(order, ratio)
    ensures root >= 1.0
    ensures order == Second ==> root >= 3.0
    ensures order == First ==> 4.0 * ratio / (1.0 + root) == (root - 1.0) / 2.0
    ensures order == Second ==> 4.0 * (1.0 + 2.0 * ratio) / (1.0 + root) == (root - 1.0) / 2.0
    ensures StagePoly(order, (root - 1.0) / 2.0) == StageTarget(order, ratio)
  {
    SquareMonotone(root, 1.0);
    SquareMonotone(root, 3.0);
    var h := (root - 1.0) / 2.0;
    assert (1.0 + root) * h == (root * root - 1.0) / 2.0;
    assert h * h + h == (root * root - 1.0) / 4.0;
    match order {
      case First =>
        DivideExact(4.0 * ratio, 1.0 + root, h);
      case Second =>
        DivideExact(4.0 * (1.0 + 2.0 * ratio), 1.0 + root, h);
    }
  }

  /** For non-negative s <= t, the stability polynomial is monotone. */
  lemma StagePolyMonotone(order: Order, s: real, t: real)
    requires 0.0 <= s <= t
    ensures StagePoly(order, s) <= StagePoly(order, t)
    ensures s < t ==> StagePoly(order, s) < StagePoly(order, t)
  {
    assert s * s <= t * t by {
      assert s * s <= s * t <= t * t;
    }
    if s < t {
      assert s * s <= t * t;
    }
  }

  /** The stability polynomial at an integer stage count. */
  function Poly(order: Order, s: int): real
  {
    StagePoly(order, s as real)
  }

  /** rklstages = 1 + floor(nrkl): the smallest non-negative integer whose stability
      polynomial strictly exceeds the target, so an exact integer root still adds one
      stage; at least one stage for order 1 and two for order 2. */
  function StageCount(order: Order, ratio: real, root: real): (s: int)
    requires ratio >= 0.0 && root >= 0.0 && root * root == Discriminant(order, ratio)
    ensures s >= MinStages(order)
    ensures Poly(order, s) > StageTarget(order, ratio)
    ensures forall s' :: 0 <= s' < s ==> Poly(order, s') <= StageTarget(order, ratio)
  {
    var n := Nrkl(order, ratio, root);
    var f := n.Floor;
    assert f as real <= n < f as real + 1.0;
    StagePolyMonotone(order, n, f as real + 1.0);
    forall s' | 0 <= s' < 1 + f
      ensures Poly(order, s') <= StageTarget(order, ratio)
    {
      StagePolyMonotone(order, s' as real, n);
    }
    1 + f
  }

  /** The stage count on the boundary value r = 1 of order 2: 2^2 + 2 - 2 = 4r exactly,
      and the source takes one more stage. */
  lemma StageCountAtTransition()
    ensures StageCount(Second, 1.0, 5.0) == 3
  {
    assert 5.0 * 5.0 == Discriminant(Second, 1.0);
    var s := StageCount(Second, 1.0, 5.0);
    assert Poly(Second, 2) == 4.0;
    assert Poly(Second, 3) == 10.0;
  }

  /** w1 = 4/(s^2+s-2) (order 2) or 2/(s^2+s) (order 1): the reciprocal of the stability
      polynomial, scaled so that the last stage ends at the full step. */
  function W1(order: Order, s: int): (w: real)
    requires s >= MinStages(order)
    ensures w > 0.0 && StagePoly(order, s as real) * w == StageTarget(order, 1.0)
  {
    StagePolyMonotone(order, MinStages(order) as real, s as real);
    match order
    case First => 2.0 / StagePoly(order, s as real)
    case Second => 4.0 / StagePoly(order, s as real)
  }

  /** b_j of the second-order scheme: b_0 = b_1 = b_2 = 1/3 and
      b_j = (j^2+j-2) / (2j(j+1)) from j = 2 on; every b lies in [1/3, 1/2). */
  function B(j: int): (b: real)
    ensures 1.0 / 3.0 <= b < 0.5
  {
    if j < 2 then 1.0 / 3.0
    else
      var J := j as real;
      BBounds(J);
      (J * J + J - 2.0) / (2.0 * J * (J + 1.0))
  }

  /** For J >= 2, (J^2+J-2) / (2J(J+1)) lies in [1/3, 1/2). */
  lemma BBounds(J: real)
    requires J >= 2.0
    ensures 2.0 * J * (J + 1.0) > 0.0
    ensures 1.0 / 3.0 <= (J * J + J - 2.0) / (2.0 * J * (J + 1.0)) < 0.5
  {
    var n := J * J + J - 2.0;
    var d := 2.0 * J * (J + 1.0);
    MulPos(2.0 * J, J + 1.0);
    assert 3.0 * n - d == (J + 3.0) * (J - 2.0);
    assert (J + 3.0) * (J - 2.0) >= 0.0;
    assert n < 0.5 * d;
    var q := n / d;
    assert q * d == n;
  }

  /** The source's update `b_j = 0.5*(j^2+3j)/(j^2+3j+2)`, evaluated in iteration j,
      is b_{j+1}. */
  lemma NextB(j: int)
    requires j >= 1
    ensures 0.5 * ((j * j) as real + 3.0 * j as real) / ((j * j) as real + 3.0 * j as real + 2.0) == B(j + 1)
  {
    var J := j as real;
    var K := J + 1.0;
    assert (j + 1) as real == K;
    assert K * K + K - 2.0 == J * J + 3.0 * J;
    assert 2.0 * K * (K + 1.0) == 2.0 * (J * J + 3.0 * J + 2.0);
  }

  /** mu_j as the source evaluates it in stage J from the running b_j and b_{j-1}:
      (2J-1)/J, times b_j/b_{j-1} for order 2. */
  function MuFrom(order: Order, J: real, bj: real, bjm1: real): real
    requires J > 0.0 && bjm1 > 0.0
  {
    match order
    case First => (2.0 * J - 1.0) / J
    case Second => (2.0 * J - 1.0) / J * bj / bjm1
  }

  /** nu_j as the source evaluates it in stage J from the running b_j and b_{j-2}:
      -(J-1)/J, or -(J-1)*b_j/(J*b_{j-2}) for order 2. */
  function NuFrom(order: Order, J: real, bj: real, bjm2: real): real
    requires J > 0.0 && bjm2 > 0.0
  {
    MulPos(J, bjm2);
    match order
    case First => -(J - 1.0) / J
    case Second => -(J - 1.0) * bj / (J * bjm2)
  }

  /** Stage coefficients for stage j >= 2. */
  function Mu(order: Order, j: int): real
    requires j >= 2
  {
    MuFrom(order, j as real, B(j), B(j - 1))
  }

  function Nu(order: Order, j: int): real
    requires j >= 2
  {
    NuFrom(order, j as real, B(j), B(j - 2))
  }

  /** mu~_j = w1 * mu_j as the source evaluates it. */
  function MuTildeFrom(w1: real, mu: real): real
  {
    w1 * mu
  }

  /** gamma_j = -a_{j-1} * mu~_j as the source evaluates it for order 2; order 1 has no
      dU0 term and no gamma. */
  function GammaFrom(order: Order, ajm1: real, muTilde: real): real
  {
    match order
    case First => 0.0
    case Second => -ajm1 * muTilde
  }

  function MuTilde(order: Order, s: int, j: int): real
    requires s >= MinStages(order)
    requires j >= 2
  {
    MuTildeFrom(W1(order, s), Mu(order, j))
  }

  /** gamma_j, with a_{j-1} = 1 - b_{j-1}. */
  function Gamma(order: Order, s: int, j: int): real
    requires s >= MinStages(order)
    requires j >= 2
  {
    GammaFrom(order, 1.0 - B(j - 1), MuTilde(order, s, j))
  }

  /** mu~_1: the weight of the first-stage derivative (w1/3 for order 2, w1 for order 1). */
  function MuTilde1(order: Order, s: int): real
    requires s >= MinStages(order)
  {
    match order
    case First => W1(order, s)
    case Second => W1(order, s) / 3.0
  }

  /** Fraction of dt_hyp elapsed after stage j, as the source computes `time`:
      0.5*(j^2+j)*w1 (order 1) or 0.25*(j^2+j-2)*w1 (order 2). */
  function StageOffset(order: Order, s: int, j: int): real
    requires s >= MinStages(order)
  {
    match order
    case First => 0.5 * StagePoly(order, j as real) * W1(order, s)
    case Second => 0.25 * StagePoly(order, j as real) * W1(order, s)
  }

  /** The stage time is t at stage 1 for order 2, t + dt_hyp after the last stage, and
      grows strictly from stage 1 to the last stage. */
  lemma StageOffsets(order: Order, s: int)
    requires s >= MinStages(order)
    ensures order == Second ==> StageOffset(order, s, 1) == 0.0
    ensures StageOffset(order, s, 1) >= 0.0
    ensures StageOffset(order, s, s) == 1.0
    ensures forall j, k :: 1 <= j < k ==> StageOffset(order, s, j) < StageOffset(order, s, k)
  {
    var w := W1(order, s);
    forall j, k | 1 <= j < k
      ensures StageOffset(order, s, j) < StageOffset(order, s, k)
    {
      StagePolyMonotone(order, j as real, k as real);
      ScaleMonotone(StagePoly(order, j as real), StagePoly(order, k as real), w);
    }
  }

  /** The times at which a cycle of s stages from t over dt_hyp evaluates its first n
      stages: t for stage 1, and t + dt_hyp * StageOffset(j - 1) for stage j > 1. */
  function StageTimes(order: Order, s: int, t: real, dtHyp: real, n: nat): (ts: seq<real>)
    requires s >= MinStages(order)
    ensures |ts| == n
  {
    if n == 0 then []
    else if n == 1 then [t]
    else StageTimes(order, s, t, dtHyp, n - 1) + [t + dtHyp * StageOffset(order, s, n - 1)]
  }

  /** Stage 1 is evaluated at the start of the step. */
  lemma {:induction false} StageTimeFirst(order: Order, s: int, t: real, dtHyp: real, n: nat)
    requires s >= MinStages(order) && n >= 1
    ensures StageTimes(order, s, t, dtHyp, n)[0] == t
  {
    if n > 1 {
      StageTimeFirst(order, s, t, dtHyp, n - 1);
    }
  }

  /** Stage j + 1 > 1 is evaluated at t + dt_hyp * StageOffset(j). */
  lemma {:induction false} StageTimeAt(order: Order, s: int, t: real, dtHyp: real, n: nat, j: int)
    requires s >= MinStages(order) && 1 <= j < n
    ensures StageTimes(order, s, t, dtHyp, n)[j] == t + dtHyp * StageOffset(order, s, j)
  {
    if j < n - 1 {
      StageTimeAt(order, s, t, dtHyp, n - 1, j);
    }
  }

  /** The times of a cycle of s stages from t over dt_hyp, with the end time appended:
      stage 1 at t, every stage within [t, t + dt_hyp), the stages after the first at
      strictly increasing times, and the cycle ending exactly at t + dt_hyp. */
  lemma CycleTimes(order: Order, s: int, t: real, dtHyp: real, n: nat)
    requires s >= MinStages(order) && dtHyp > 0.0 && n == s + 1
    ensures StageTimes(order, s, t, dtHyp, n)[0] == t
    ensures forall j | 0 <= j < s :: t <= StageTimes(order, s, t, dtHyp, n)[j] < t + dtHyp
    ensures forall j, k | 1 <= j < k <= s ::
      StageTimes(order, s, t, dtHyp, n)[j] < StageTimes(order, s, t, dtHyp, n)[k]
    ensures StageTimes(order, s, t, dtHyp, n)[s] == t + dtHyp
  {
    var ts := StageTimes(order, s, t, dtHyp, n);
    StageTimeFirst(order, s, t, dtHyp, s + 1);
    forall j | 0 <= j < s
      ensures t <= ts[j]
    {
      StageTimeAfterStart(order, s, t, dtHyp, j);
    }
    forall j | 0 <= j < s
      ensures ts[j] < t + dtHyp
    {
      StageTimeBeforeEnd(order, s, t, dtHyp, j);
    }
    forall j, k | 1 <= j < k <= s
      ensures ts[j] < ts[k]
    {
      StageTimesOrdered(order, s, t, dtHyp, j, k);
    }
    StageTimeLast(order, s, t, dtHyp);
  }

  /** No stage of a cycle is evaluated before t. */
  lemma StageTimeAfterStart(order: Order, s: int, t: real, dtHyp: real, j: int)
    requires s >= MinStages(order) && dtHyp > 0.0 && 0 <= j < s
    ensures t <= StageTimes(order, s, t, dtHyp, s + 1)[j]
  {
    if j == 0 {
      StageTimeFirst(order, s, t, dtHyp, s + 1);
    } else {
      StageTimeAt(order, s, t, dtHyp, s + 1, j);
      StageOffsetBounds(order, s, j);
      OffsetAfterStart(t, dtHyp, StageOffset(order, s, j));
    }
  }

  /** No stage of a cycle is evaluated at or after t + dt_hyp. */
  lemma StageTimeBeforeEnd(order: Order, s: int, t: real, dtHyp: real, j: int)
    requires s >= MinStages(order) && dtHyp > 0.0 && 0 <= j < s
    ensures StageTimes(order, s, t, dtHyp, s + 1)[j] < t + dtHyp
  {
    if j == 0 {
      StageTimeFirst(order, s, t, dtHyp, s + 1);
    } else {
      StageTimeAt(order, s, t, dtHyp, s + 1, j);
      StageOffsetBounds(order, s, j);
      OffsetBeforeEnd(t, dtHyp, StageOffset(order, s, j));
    }
  }

  /** Stages j < k after the first are evaluated in increasing time order. */
  lemma StageTimesOrdered(order: Order, s: int, t: real, dtHyp: real, j: int, k: int)
    requires s >= MinStages(order) && dtHyp > 0.0 && 1 <= j < k <= s
    ensures StageTimes(order, s, t, dtHyp, s + 1)[j] < StageTimes(order, s, t, dtHyp, s + 1)[k]
  {
    StageTimeAt(order, s, t, dtHyp, s + 1, j);
    StageTimeAt(order, s, t, dtHyp, s + 1, k);
    StageOffsetOrdered(order, s, j, k);
    OffsetTimesOrdered(StageTimes(order, s, t, dtHyp, s + 1)[j], StageTimes(order, s, t, dtHyp, s + 1)[k],
                       t, dtHyp, StageOffset(order, s, j), StageOffset(order, s, k));
  }

  /** The time after the last stage is the end of the step. */
  lemma StageTimeLast(order: Order, s: int, t: real, dtHyp: real)
    requires s >= MinStages(order)
    ensures StageTimes(order, s, t, dtHyp, s + 1)[s] == t + dtHyp
  {
    StageTimeAt(order, s, t, dtHyp, s + 1, s);
    StageOffsets(order, s);
  }

  /** Offsets grow with the stage. */
  lemma StageOffsetOrdered(order: Order, s: int, j: int, k: int)
    requires s >= MinStages(order) && 1 <= j < k
    ensures StageOffset(order, s, j) < StageOffset(order, s, k)
  {
    StageOffsets(order, s);
  }

  /** The offset of a stage before the last lies in [0, 1). */
  lemma StageOffsetBounds(order: Order, s: int, j: int)
    requires s >= MinStages(order) && 1 <= j < s
    ensures 0.0 <= StageOffset(order, s, j) < 1.0
  {
    StageOffsets(order, s);
    if j > 1 {
      assert StageOffset(order, s, 1) < StageOffset(order, s, j);
    }
  }

  /** A time t + dt*o with o >= 0 is not before t. */
  lemma OffsetAfterStart(t: real, dt: real, o: real)
    requires dt > 0.0 && 0.0 <= o
    ensures t <= t + dt * o
  {
    if o > 0.0 {
      MulPos(dt, o);
    }
  }

  /** A time t + dt*o with o < 1 is before t + dt. */
  lemma OffsetBeforeEnd(t: real, dt: real, o: real)
    requires dt > 0.0 && o < 1.0
    ensures t + dt * o < t + dt
  {
    MulPos(dt, 1.0 - o);
  }

  /** Times a = t + dt*o1 and b = t + dt*o2 are ordered like their offsets. */
  lemma OffsetTimesOrdered(a: real, b: real, t: real, dt: real, o1: real, o2: real)
    requires a == t + dt * o1 && b == t + dt * o2 && dt > 0.0 && o1 < o2
    ensures a < b
  {
    MulPos(dt, o2 - o1);
  }

  /** Multiplying by a positive factor keeps a strict order. */
  lemma ScaleMonotone(a: real, b: real, w: real)
    requires a < b && w > 0.0
    ensures a * w < b * w
  {
    MulPos(b - a, w);
  }

  /** The scalar value of stage j when the recursion is applied to du/dt = 1 from u = 0
      over a unit step: w1*b_j*j(j+1)/2 (order 2) or w1*j(j+1)/2 (order 1). */
  function ExactStage(order: Order, s: int, j: int): real
    requires s >= MinStages(order)
  {
    match order
    case First => W1(order, s) * Tri(j as real)
    case Second => W1(order, s) * B(j) * Tri(j as real)
  }

  /** The triangular number J(J+1)/2. */
  function Tri(J: real): real
  {
    J * (J + 1.0) / 2.0
  }

  /** The first-stage update of one conservative variable: Uc1 + mu~_1*dt_hyp*dU0. */
  function FirstStageValue(muTilde: real, dtHyp: real, uc1: real, du0: real): real
  {
    uc1 + muTilde * dtHyp * du0
  }

  /** The update of one momentum component at stage j >= 2, from the current stage uc,
      the previous stage uc1, the initial state uc0 and the derivatives du, du0:
      mu*uc + nu*uc1 + dt_hyp*mu~*du for order 1, plus (1-mu-nu)*uc0 + gamma*dt_hyp*du0
      for order 2. */
  function StageValue(order: Order, mu: real, nu: real, muTilde: real, gamma: real, dtHyp: real,
                      uc: real, uc1: real, uc0: real, du: real, du0: real): real
  {
    var y := mu * uc + nu * uc1;
    match order
    case First => y + dtHyp * muTilde * du
    case Second => y + (1.0 - mu - nu) * uc0 + dtHyp * muTilde * du + gamma * dtHyp * du0
  }

  /** The recursion of a cycle of s stages over dt_hyp for one conservative variable, as
      Cycle combines Uc, Uc1, Uc0, dU and dU0: the two latest stages (Y_{j-1}, Y_j) after
      stage j = |dus| + 1, where Y_0 = y0 is the value at the start of the cycle, Y_1 the
      first-stage update with the first-stage derivative du0, and Y_j for j >= 2 the stage
      update with the coefficients of stage j and the derivative dus[j - 2] of stage j. */
  function Recursion(order: Order, s: int, dtHyp: real, y0: real, du0: real, dus: seq<real>): (real, real)
    requires s >= MinStages(order)
    decreases |dus|
  {
    if |dus| == 0 then (y0, FirstStageValue(MuTilde1(order, s), dtHyp, y0, du0))
    else
      var j := |dus| + 1;
      var (prev, cur) := Recursion(order, s, dtHyp, y0, du0, dus[..|dus| - 1]);
      (cur, StageValue(order, Mu(order, j), Nu(order, j), MuTilde(order, s, j), Gamma(order, s, j), dtHyp,
                       cur, prev, y0, dus[|dus| - 1], du0))
  }

  /** The stage update is affine: with Uc0 = y0 and both derivatives du (h = dt_hyp * du),
      it takes v1 = y0 + e1*h and v2 = y0 + e2*h to v0 = y0 + e0*h, where e0 is its value on
      e1, e2 over a unit step with unit derivatives and Uc0 = 0. */
  lemma AffineStep(order: Order, mu: real, nu: real, muTilde: real, gamma: real, dtHyp: real,
                   y0: real, du: real, e0: real, e1: real, e2: real, v0: real, v1: real, v2: real)
    requires StageValue(order, mu, nu, muTilde, gamma, 1.0, e1, e2, 0.0, 1.0, 1.0) == e0
    requires order == First ==> mu + nu == 1.0
    requires v0 == y0 + e0 * (dtHyp * du) && v1 == y0 + e1 * (dtHyp * du) && v2 == y0 + e2 * (dtHyp * du)
    ensures StageValue(order, mu, nu, muTilde, gamma, dtHyp, v1, v2, y0, du, du) == v0
  {
    var h := dtHyp * du;
    var y := mu * (y0 + e1 * h) + nu * (y0 + e2 * h);
    assert y == (mu + nu) * y0 + (mu * e1 + nu * e2) * h;
    assert dtHyp * muTilde * du == muTilde * h;
    assert gamma * dtHyp * du == gamma * h;
    match order {
      case First =>
        assert e0 == mu * e1 + nu * e2 + muTilde;
        assert e0 * h == (mu * e1 + nu * e2) * h + muTilde * h;
      case Second =>
        assert e0 == mu * e1 + nu * e2 + muTilde + gamma;
        assert e0 * h == (mu * e1 + nu * e2) * h + muTilde * h + gamma * h;
    }
  }

  /** The first-order weights of the two previous stages sum to one. */
  lemma FirstWeightsSum(j: int)
    requires j >= 2
    ensures Mu(First, j) + Nu(First, j) == 1.0
  {
    var J := j as real;
    assert (2.0 * J - 1.0) / J + -(J - 1.0) / J == J / J;
  }

  /** a/J*b/c, multiplied back by c*J, gives a*b. */
  lemma CancelQuotient(a: real, J: real, b: real, c: real)
    requires J != 0.0 && c != 0.0
    ensures a / J * b / c * c * J == a * b
  {
    var q := a / J;
    assert q * J == a;
    var r := q * b / c;
    assert r * c == q * b;
  }

  /** -(a)*b/(J*c), multiplied back by c*J, gives -a*b. */
  lemma CancelQuotientNeg(a: real, J: real, b: real, c: real)
    requires J != 0.0 && c != 0.0
    ensures -a * b / (J * c) * c * J == -a * b
  {
    var d := J * c;
    assert d != 0.0;
    var r := -a * b / d;
    assert r * d == -a * b;
  }

  /** The algebra of one stage: with mu*b1*J = (2J-1)*bj and nu*b2*J = -(J-1)*bj, the
      stage update maps the two previous exact stages w*b*t to the next one. */
  lemma StepAlgebra(w: real, J: real, bj: real, b1: real, b2: real, mu: real, nu: real,
                    t0: real, t1: real, t2: real)
    requires J >= 2.0
    requires mu * b1 * J == (2.0 * J - 1.0) * bj
    requires nu * b2 * J == -(J - 1.0) * bj
    requires t0 == J * (J + 1.0) / 2.0 && t1 == (J - 1.0) * J / 2.0 && t2 == (J - 2.0) * (J - 1.0) / 2.0
    ensures mu * (w * b1 * t1) + nu * (w * b2 * t2) + w * mu + -(1.0 - b1) * (w * mu) == w * bj * t0
  {
    var lhs := mu * (w * b1 * t1) + nu * (w * b2 * t2) + w * mu + -(1.0 - b1) * (w * mu);
    var X := mu * b1 * J;
    var Z := nu * b2 * J;
    var P := (J - 1.0) * J + 2.0;
    var Q := (J - 2.0) * (J - 1.0);
    assert lhs == mu * b1 * w * P / 2.0 + nu * b2 * w * Q / 2.0;
    assert 2.0 * J * lhs == X * w * P + Z * w * Q;
    assert X * w * P + Z * w * Q == bj * w * ((2.0 * J - 1.0) * P - (J - 1.0) * Q);
    assert (2.0 * J - 1.0) * P - (J - 1.0) * Q == J * J * (J + 1.0);
    assert 2.0 * J * lhs == 2.0 * J * (w * bj * t0);
  }

  /** Rewrites the stage values in the combined update by equal ones. */
  lemma SubstituteStages(mu: real, nu: real, w: real, b1: real, e0: real, e1: real, e2: real,
                         f0: real, f1: real, f2: real)
    requires e0 == f0 && e1 == f1 && e2 == f2
    requires mu * f1 + nu * f2 + w * mu + -(1.0 - b1) * (w * mu) == f0
    ensures StepHolds(mu, nu, w, b1, e0, e1, e2)
  {
  }

  /** The quotients mu and nu of stage J, multiplied out. */
  lemma CoefficientProducts(J: real, bj: real, b1: real, b2: real, mu: real, nu: real)
    requires J >= 2.0 && b1 > 0.0 && b2 > 0.0
    requires mu == (2.0 * J - 1.0) / J * bj / b1
    requires nu == -(J - 1.0) * bj / (J * b2)
    ensures mu * b1 * J == (2.0 * J - 1.0) * bj
    ensures nu * b2 * J == -(J - 1.0) * bj
  {
    CancelQuotient(2.0 * J - 1.0, J, bj, b1);
    CancelQuotientNeg(J - 1.0, J, bj, b2);
  }

  /** Triangular numbers of J, J1 = J-1 and J2 = J-2. */
  lemma TriValues(J: real, J1: real, J2: real)
    requires J1 == J - 1.0 && J2 == J - 2.0
    ensures Tri(J) == J * (J + 1.0) / 2.0
    ensures Tri(J1) == (J - 1.0) * J / 2.0
    ensures Tri(J2) == (J - 2.0) * (J - 1.0) / 2.0
  {
  }

  /** The coefficients of stage J (mu, nu from b_J, b_{J-1}, b_{J-2}) and the exact
      stages e0, e1, e2 of J, J1 = J-1 and J2 = J-2. */
  predicate StepInputs(w: real, J: real, J1: real, J2: real, bj: real, b1: real, b2: real,
                       mu: real, nu: real, e0: real, e1: real, e2: real)
  {
    && J >= 2.0 && J1 == J - 1.0 && J2 == J - 2.0 && b1 > 0.0 && b2 > 0.0
    && mu == (2.0 * J - 1.0) / J * bj / b1
    && nu == -(J - 1.0) * bj / (J * b2)
    && e0 == w * bj * Tri(J) && e1 == w * b1 * Tri(J1) && e2 == w * b2 * Tri(J2)
  }

  /** The stage update with mu~ = w*mu and gamma = -(1-b1)*mu~ takes e1, e2 to e0. */
  predicate StepHolds(mu: real, nu: real, w: real, b1: real, e0: real, e1: real, e2: real)
  {
    mu * e1 + nu * e2 + w * mu + -(1.0 - b1) * (w * mu) == e0
  }

  /** One step of the recursion with the coefficients written out, for any w1 and any
      positive b_{J-1}, b_{J-2}. */
  lemma StepCoefficients(w: real, J: real, J1: real, J2: real, bj: real, b1: real, b2: real,
                         mu: real, nu: real, e0: real, e1: real, e2: real)
    requires StepInputs(w, J, J1, J2, bj, b1, b2, mu, nu, e0, e1, e2)
    ensures StepHolds(mu, nu, w, b1, e0, e1, e2)
  {
    CoefficientProducts(J, bj, b1, b2, mu, nu);
    TriValues(J, J1, J2);
    StepAlgebra(w, J, bj, b1, b2, mu, nu, Tri(J), Tri(J1), Tri(J2));
    SubstituteStages(mu, nu, w, b1, e0, e1, e2, w * bj * Tri(J), w * b1 * Tri(J1), w * b2 * Tri(J2));
  }

  /** The inputs of one first-order step: every b is 1. */
  lemma FirstStepInputs(s: int, j: int)
    requires s >= 1 && j >= 2
    ensures StepInputs(W1(First, s), j as real, (j - 1) as real, (j - 2) as real, 1.0, 1.0, 1.0,
                       Mu(First, j), Nu(First, j),
                       ExactStage(First, s, j), ExactStage(First, s, j - 1), ExactStage(First, s, j - 2))
  {
  }

  /** The inputs of one second-order step. */
  lemma SecondStepInputs(s: int, j: int)
    requires s >= 2 && j >= 2
    ensures StepInputs(W1(Second, s), j as real, (j - 1) as real, (j - 2) as real, B(j), B(j - 1), B(j - 2),
                       Mu(Second, j), Nu(Second, j),
                       ExactStage(Second, s, j), ExactStage(Second, s, j - 1), ExactStage(Second, s, j - 2))
  {
    MuSecond(j);
    NuSecond(j);
    SecondStages(s, j);
  }

  lemma MuSecond(j: int)
    requires j >= 2
    ensures Mu(Second, j) == (2.0 * j as real - 1.0) / j as real * B(j) / B(j - 1)
  {
  }

  lemma NuSecond(j: int)
    requires j >= 2
    ensures Nu(Second, j) == -(j as real - 1.0) * B(j) / (j as real * B(j - 2))
  {
  }

  lemma SecondStages(s: int, j: int)
    requires s >= 2
    ensures ExactStage(Second, s, j) == W1(Second, s) * B(j) * Tri(j as real)
    ensures ExactStage(Second, s, j - 1) == W1(Second, s) * B(j - 1) * Tri((j - 1) as real)
    ensures ExactStage(Second, s, j - 2) == W1(Second, s) * B(j - 2) * Tri((j - 2) as real)
  {
  }

  /** mu~ = w1*mu and gamma = -(1-b1)*mu~. */
  predicate Weights(w: real, mu: real, b1: real, muTilde: real, gamma: real)
  {
    muTilde == w * mu && gamma == -(1.0 - b1) * muTilde
  }

  lemma SecondWeights(s: int, j: int)
    requires s >= 2 && j >= 2
    ensures Weights(W1(Second, s), Mu(Second, j), B(j - 1), MuTilde(Second, s, j), Gamma(Second, s, j))
  {
    SecondMuTilde(s, j);
    SecondGamma(s, j);
  }

  lemma SecondMuTilde(s: int, j: int)
    requires s >= 2 && j >= 2
    ensures MuTilde(Second, s, j) == W1(Second, s) * Mu(Second, j)
  {
  }

  lemma SecondGamma(s: int, j: int)
    requires s >= 2 && j >= 2
    ensures Gamma(Second, s, j) == -(1.0 - B(j - 1)) * MuTilde(Second, s, j)
  {
  }

  /** StepHolds is the source's update with Uc0 = 0, once mu~ and gamma are identified. */
  lemma StepHoldsUpdate(order: Order, mu: real, nu: real, w: real, b1: real, muTilde: real, gamma: real,
                        e0: real, e1: real, e2: real)
    requires StepHolds(mu, nu, w, b1, e0, e1, e2)
    requires Weights(w, mu, b1, muTilde, gamma)
    requires order == First ==> b1 == 1.0
    ensures StageValue(order, mu, nu, muTilde, gamma, 1.0, e1, e2, 0.0, 1.0, 1.0) == e0
  {
  }

  /** One step of the recursion maps the two previous exact stages to the next one. */
  lemma StepExact(order: Order, s: int, j: int)
    requires s >= MinStages(order)
    requires j >= 2
    ensures StageValue(order, Mu(order, j), Nu(order, j), MuTilde(order, s, j), Gamma(order, s, j), 1.0,
                       ExactStage(order, s, j - 1), ExactStage(order, s, j - 2), 0.0, 1.0, 1.0) == ExactStage(order, s, j)
  {
    match order {
      case First => StepExactFirst(s, j);
      case Second => StepExactSecond(s, j);
    }
  }

  lemma StepExactFirst(s: int, j: int)
    requires s >= 1 && j >= 2
    ensures StageValue(First, Mu(First, j), Nu(First, j), MuTilde(First, s, j), Gamma(First, s, j), 1.0,
                       ExactStage(First, s, j - 1), ExactStage(First, s, j - 2), 0.0, 1.0, 1.0) == ExactStage(First, s, j)
  {
    FirstStepHolds(s, j);
    FirstWeights(s, j);
    StepHoldsUpdate(First, Mu(First, j), Nu(First, j), W1(First, s), 1.0,
                    MuTilde(First, s, j), Gamma(First, s, j),
                    ExactStage(First, s, j), ExactStage(First, s, j - 1), ExactStage(First, s, j - 2));
  }

  lemma FirstStepHolds(s: int, j: int)
    requires s >= 1 && j >= 2
    ensures StepHolds(Mu(First, j), Nu(First, j), W1(First, s), 1.0,
                      ExactStage(First, s, j), ExactStage(First, s, j - 1), ExactStage(First, s, j - 2))
  {
    FirstStepInputs(s, j);
    StepCoefficients(W1(First, s), j as real, (j - 1) as real, (j - 2) as real, 1.0, 1.0, 1.0,
                     Mu(First, j), Nu(First, j),
                     ExactStage(First, s, j), ExactStage(First, s, j - 1), ExactStage(First, s, j - 2));
  }

  lemma FirstWeights(s: int, j: int)
    requires s >= 1 && j >= 2
    ensures Weights(W1(First, s), Mu(First, j), 1.0, MuTilde(First, s, j), Gamma(First, s, j))
  {
  }

  lemma StepExactSecond(s: int, j: int)
    requires s >= 2 && j >= 2
    ensures StageValue(Second, Mu(Second, j), Nu(Second, j), MuTilde(Second, s, j), Gamma(Second, s, j), 1.0,
                       ExactStage(Second, s, j - 1), ExactStage(Second, s, j - 2), 0.0, 1.0, 1.0) == ExactStage(Second, s, j)
  {
    SecondStepHolds(s, j);
    SecondWeights(s, j);
    StepHoldsUpdate(Second, Mu(Second, j), Nu(Second, j), W1(Second, s), B(j - 1),
                    MuTilde(Second, s, j), Gamma(Second, s, j),
                    ExactStage(Second, s, j), ExactStage(Second, s, j - 1), ExactStage(Second, s, j - 2));
  }

  lemma SecondStepHolds(s: int, j: int)
    requires s >= 2 && j >= 2
    ensures StepHolds(Mu(Second, j), Nu(Second, j), W1(Second, s), B(j - 1),
                      ExactStage(Second, s, j), ExactStage(Second, s, j - 1), ExactStage(Second, s, j - 2))
  {
    SecondStepInputs(s, j);
    StepCoefficients(W1(Second, s), j as real, (j - 1) as real, (j - 2) as real, B(j), B(j - 1), B(j - 2),
                     Mu(Second, j), Nu(Second, j),
                     ExactStage(Second, s, j), ExactStage(Second, s, j - 1), ExactStage(Second, s, j - 2));
  }

  /** The exact stage value of the last stage is the full step. */
  lemma LastStageIsFullStep(order: Order, s: int)
    requires s >= MinStages(order)
    ensures ExactStage(order, s, s) == 1.0
  {
    var w := W1(order, s);
    var S := s as real;
    match order {
      case First =>
        assert (S * S + S) * w == 2.0;
        assert w * Tri(S) == (S * S + S) * w / 2.0;
      case Second =>
        assert (S * S + S - 2.0) * w == 4.0;
        FullSecondStep(S, w, B(s), Tri(S));
    }
  }

  /** w1*b_s*s(s+1)/2 = 1 when w1*(s^2+s-2) = 4 and b_s = (s^2+s-2)/(2s(s+1)). */
  lemma FullSecondStep(S: real, w: real, b: real, tri: real)
    requires S >= 2.0 && (S * S + S - 2.0) * w == 4.0
    requires b == (S * S + S - 2.0) / (2.0 * S * (S + 1.0))
    requires tri == S * (S + 1.0) / 2.0
    ensures w * b * tri == 1.0
  {
    var d := 2.0 * S * (S + 1.0);
    MulPos(2.0 * S, S + 1.0);
    assert b * d == S * S + S - 2.0;
    assert tri == d / 4.0;
    assert w * b * tri == w * (b * d) / 4.0;
  }

  /** The value y0 + ExactStage(j) * dt_hyp * du that stage j takes on a constant
      derivative du from y0. */
  function ExactValue(order: Order, s: int, dtHyp: real, y0: real, du: real, j: int): real
    requires s >= MinStages(order)
  {
    y0 + ExactStage(order, s, j) * (dtHyp * du)
  }

  /** One stage update, with both derivatives du, maps the exact values of stages j-1 and
      j-2 to that of stage j. */
  lemma ExactValueStep(order: Order, s: int, dtHyp: real, y0: real, du: real, j: int)
    requires s >= MinStages(order) && j >= 2
    ensures StageValue(order, Mu(order, j), Nu(order, j), MuTilde(order, s, j), Gamma(order, s, j), dtHyp,
                       ExactValue(order, s, dtHyp, y0, du, j - 1), ExactValue(order, s, dtHyp, y0, du, j - 2), y0, du, du)
            == ExactValue(order, s, dtHyp, y0, du, j)
  {
    var e0, e1, e2 := ExactStage(order, s, j), ExactStage(order, s, j - 1), ExactStage(order, s, j - 2);
    var v0, v1, v2 := ExactValue(order, s, dtHyp, y0, du, j), ExactValue(order, s, dtHyp, y0, du, j - 1),
                      ExactValue(order, s, dtHyp, y0, du, j - 2);
    var mu, nu, muTilde, gamma := Mu(order, j), Nu(order, j), MuTilde(order, s, j), Gamma(order, s, j);
    assert StageValue(order, mu, nu, muTilde, gamma, 1.0, e1, e2, 0.0, 1.0, 1.0) == e0 by {
      StepExact(order, s, j);
    }
    assert order == First ==> mu + nu == 1.0 by {
      if order == First {
        FirstWeightsSum(j);
      }
    }
    assert v0 == y0 + e0 * (dtHyp * du) && v1 == y0 + e1 * (dtHyp * du) && v2 == y0 + e2 * (dtHyp * du);
    AffineStep(order, mu, nu, muTilde, gamma, dtHyp, y0, du, e0, e1, e2, v0, v1, v2);
  }

  /** The first-stage update takes y0 to the exact value of stage 1, and y0 is that of
      stage 0. */
  lemma ExactValueStart(order: Order, s: int, dtHyp: real, y0: real, du: real)
    requires s >= MinStages(order)
    ensures ExactValue(order, s, dtHyp, y0, du, 0) == y0
    ensures FirstStageValue(MuTilde1(order, s), dtHyp, y0, du) == ExactValue(order, s, dtHyp, y0, du, 1)
  {
    var m := MuTilde1(order, s);
    assert ExactStage(order, s, 0) == 0.0;
    assert ExactStage(order, s, 1) == m;
    assert FirstStageValue(m, dtHyp, y0, du) == y0 + m * dtHyp * du;
    assert m * dtHyp * du == m * (dtHyp * du);
  }

  /** Consistency: when every stage has the derivative du of the first stage, stage j of
      the recursion is y0 + ExactStage(j) * dt_hyp * du. */
  lemma {:induction false} ConstantStages(order: Order, s: int, dtHyp: real, y0: real, du: real, dus: seq<real>)
    requires s >= MinStages(order)
    requires forall m | 0 <= m < |dus| :: dus[m] == du
    ensures Recursion(order, s, dtHyp, y0, du, dus)
            == (ExactValue(order, s, dtHyp, y0, du, |dus|), ExactValue(order, s, dtHyp, y0, du, |dus| + 1))
    decreases |dus|
  {
    if |dus| == 0 {
      ExactValueStart(order, s, dtHyp, y0, du);
    } else {
      var n := |dus|;
      var rest := dus[..n - 1];
      ConstantStages(order, s, dtHyp, y0, du, rest);
      assert |rest| == n - 1 && (n + 1) - 1 == n && (n + 1) - 2 == n - 1;
      ExactValueStep(order, s, dtHyp, y0, du, n + 1);
    }
  }

  /** A cycle integrates a constant right-hand side exactly: with every stage at the
      derivative du of the first one, the stages are those of ConstantStages and the last
      stage is y0 + dt_hyp * du, the exact value after the full step. */
  lemma ConstantRightHandSide(order: Order, s: int, dtHyp: real, y0: real, du: real, dus: seq<real>)
    requires s >= MinStages(order)
    requires forall m | 0 <= m < |dus| :: dus[m] == du
    ensures Recursion(order, s, dtHyp, y0, du, dus)
            == (ExactValue(order, s, dtHyp, y0, du, |dus|), ExactValue(order, s, dtHyp, y0, du, |dus| + 1))
    ensures |dus| + 1 == s ==> Recursion(order, s, dtHyp, y0, du, dus).1 == y0 + dtHyp * du
  {
    ConstantStages(order, s, dtHyp, y0, du, dus);
    if |dus| + 1 == s {
      FullStepValue(order, s, dtHyp, y0, du);
    }
  }

  /** The exact value of the last stage is that after the full step. */
  lemma FullStepValue(order: Order, s: int, dtHyp: real, y0: real, du: real)
    requires s >= MinStages(order)
    ensures ExactValue(order, s, dtHyp, y0, du, s) == y0 + dtHyp * du
  {
    LastStageIsFullStep(order, s);
    var e := ExactStage(order, s, s);
    assert e * (dtHyp * du) == dtHyp * du;
  }

  /** The time after stage j is the time its state represents: the offset of stage j is
      its exact stage value for every stage of order 1 and from stage 2 on for order 2.
      At stage 1 of order 2 the offset is 0, while the first-stage state has advanced by
      mu~_1 = w1/3. */
  lemma StageOffsetIsExactStage(order: Order, s: int, j: int)
    requires s >= MinStages(order) && j >= 1
    ensures order == First || j >= 2 ==> StageOffset(order, s, j) == ExactStage(order, s, j)
    ensures order == Second && j == 1 ==> StageOffset(order, s, j) == 0.0 < ExactStage(order, s, j)
  {
    var w := W1(order, s);
    var J := j as real;
    match order {
      case First =>
        assert 0.5 * (J * J + J) == Tri(J);
      case Second =>
        if j >= 2 {
          SecondOffset(w, J, B(j), Tri(J));
        }
    }
  }

  /** 0.25*(J^2+J-2)*w = w*b*J(J+1)/2 for b = (J^2+J-2)/(2J(J+1)). */
  lemma SecondOffset(w: real, J: real, b: real, tri: real)
    requires J >= 2.0
    requires b == (J * J + J - 2.0) / (2.0 * J * (J + 1.0))
    requires tri == J * (J + 1.0) / 2.0
    ensures 0.25 * (J * J + J - 2.0) * w == w * b * tri
  {
    var d := 2.0 * J * (J + 1.0);
    MulPos(2.0 * J, J + 1.0);
    assert b * d == J * J + J - 2.0;
    assert tri == d / 4.0;
    assert w * b * tri == w * (b * d) / 4.0;
  }
}
