/**
 * The finite-difference machinery shared by the Black-Scholes-Merton pricers, taken
 * as given: the grid and the payoff on it, the Crank-Nicolson rollback of a price
 * array between two times in a number of steps (optionally applying a step
 * condition after each step), the value and the first and second derivatives read
 * at the centre of the grid, and the analytic European Greeks.  Only the way the
 * pricers combine these is modelled.
 */
module FdNumerics {

  /** The four Greeks a pricer reports. */
  datatype Greeks = Greeks(value: real, delta: real, gamma: real, theta: real)

  /** A step condition applied after every rollback step: none, or the American
      exercise condition built from the intrinsic values on the grid. */
  datatype StepCondition = NoCondition | AmericanCondition(initialPrices: seq<real>)

  datatype Kernel = Kernel(
    grid: seq<real>,
    initialCondition: seq<real>,
    rollback: (seq<real>, real, real, nat, StepCondition) -> seq<real>,
    valueAtCenter: seq<real> -> real,
    firstDerivativeAtCenter: (seq<real>, seq<real>) -> real,
    secondDerivativeAtCenter: (seq<real>, seq<real>) -> real,
    analyticEuropean: Greeks)

  /** Rolls `prices` back from time `from` to time `to` in `steps` steps. */
  function Rollback(k: Kernel, prices: seq<real>, from: real, to: real, steps: nat, condition: StepCondition): seq<real> {
    k.rollback(prices, from, to, steps, condition)
  }

  /** The rollback keeps the size of the array it works on. */
  ghost predicate SizePreserving(k: Kernel) {
    forall prices: seq<real>, from: real, to: real, steps: nat, condition: StepCondition ::
      |Rollback(k, prices, from, to, steps, condition)| == |prices|
  }

  /** The time step of the American pricer's theta: a hundredth of a rollback step. */
  function SmallThetaStep(residualTime: real, timeSteps: nat): (dt: real)
    requires residualTime > 0.0 && timeSteps > 0
    ensures dt > 0.0 && dt * 100.0 * (timeSteps as real) == residualTime
  {
    residualTime / (100 * timeSteps) as real
  }

  /** The time step of the European pricer's theta: one full rollback step. */
  function FullThetaStep(residualTime: real, timeSteps: nat): (dt: real)
    requires residualTime > 0.0 && timeSteps > 0
    ensures dt > 0.0 && dt * (timeSteps as real) == residualTime
  {
    residualTime / timeSteps as real
  }

  /** The American theta step is a hundredth of the European one. */
  lemma SmallStepIsHundredth(residualTime: real, timeSteps: nat)
    requires residualTime > 0.0 && timeSteps > 0
    ensures SmallThetaStep(residualTime, timeSteps) * 100.0 == FullThetaStep(residualTime, timeSteps)
  {
    var small, full := SmallThetaStep(residualTime, timeSteps), FullThetaStep(residualTime, timeSteps);
    assert (small * 100.0) * (timeSteps as real) == full * (timeSteps as real);
  }

  /** The prices after rolling the initial array back from the residual time to 0. */
  function RolledBack(k: Kernel, start: seq<real>, residualTime: real, timeSteps: nat, condition: StepCondition): seq<real> {
    Rollback(k, start, residualTime, 0.0, timeSteps, condition)
  }

  /** The prices after the extra single step from 0 to -dt used for theta. */
  function ThetaRolledBack(k: Kernel, start: seq<real>, residualTime: real, timeSteps: nat, dt: real,
                           condition: StepCondition): seq<real> {
    Rollback(k, RolledBack(k, start, residualTime, timeSteps, condition), 0.0, -dt, 1, condition)
  }

  /** Greeks read off a rollback: value, delta and gamma at the centre of the rolled-back
      array, theta as the backward difference over one extra step of length dt. */
  function NumericGreeks(k: Kernel, start: seq<real>, residualTime: real, timeSteps: nat, dt: real,
                         condition: StepCondition): (g: Greeks)
    requires dt > 0.0
    ensures g.theta * dt == g.value - k.valueAtCenter(ThetaRolledBack(k, start, residualTime, timeSteps, dt, condition))
  {
    var prices := RolledBack(k, start, residualTime, timeSteps, condition);
    var value := k.valueAtCenter(prices);
    Greeks(value,
           k.firstDerivativeAtCenter(prices, k.grid),
           k.secondDerivativeAtCenter(prices, k.grid),
           (value - k.valueAtCenter(ThetaRolledBack(k, start, residualTime, timeSteps, dt, condition))) / dt)
  }

  /** Every numeric Greek depends on the start array only through the array rolled back
      to 0: in particular theta's extra step starts from that rolled-back array and not
      from the start array. */
  lemma NumericGreeksFromRolledBack(k: Kernel, start1: seq<real>, start2: seq<real>, residualTime: real,
                                    timeSteps: nat, dt: real, condition: StepCondition)
    requires dt > 0.0
    requires RolledBack(k, start1, residualTime, timeSteps, condition) == RolledBack(k, start2, residualTime, timeSteps, condition)
    ensures NumericGreeks(k, start1, residualTime, timeSteps, dt, condition)
            == NumericGreeks(k, start2, residualTime, timeSteps, dt, condition)
  {
    assert ThetaRolledBack(k, start1, residualTime, timeSteps, dt, condition)
        == ThetaRolledBack(k, start2, residualTime, timeSteps, dt, condition);
  }

  /** Control-variate correction: numeric American minus numeric European plus analytic
      European, Greek by Greek. */
  function ControlVariate(numericAmerican: Greeks, numericEuropean: Greeks, analyticEuropean: Greeks): (g: Greeks)
    ensures g.value - analyticEuropean.value == numericAmerican.value - numericEuropean.value
    ensures g.delta - analyticEuropean.delta == numericAmerican.delta - numericEuropean.delta
    ensures g.gamma - analyticEuropean.gamma == numericAmerican.gamma - numericEuropean.gamma
    ensures g.theta - analyticEuropean.theta == numericAmerican.theta - numericEuropean.theta
    ensures g == analyticEuropean <==> numericAmerican == numericEuropean
  {
    Greeks(numericAmerican.value - numericEuropean.value + analyticEuropean.value,
           numericAmerican.delta - numericEuropean.delta + analyticEuropean.delta,
           numericAmerican.gamma - numericEuropean.gamma + analyticEuropean.gamma,
           numericAmerican.theta - numericEuropean.theta + analyticEuropean.theta)
  }

  /** What BSMAmericanOption::value computes: the numeric Greeks with the exercise
      condition (built from the initial prices) corrected by those without it, on the
      same grid and with the same small theta step. */
  function AmericanGreeks(k: Kernel, residualTime: real, timeSteps: nat): Greeks
    requires residualTime > 0.0 && timeSteps > 0
  {
    var dt := SmallThetaStep(residualTime, timeSteps);
    ControlVariate(
      NumericGreeks(k, k.initialCondition, residualTime, timeSteps, dt, AmericanCondition(k.initialCondition)),
      NumericGreeks(k, k.initialCondition, residualTime, timeSteps, dt, NoCondition),
      k.analyticEuropean)
  }

  /** What FiniteDifferenceEuropean::calculate computes: the numeric Greeks without a
      condition, theta over one full step. */
  function EuropeanGreeks(k: Kernel, residualTime: real, timeSteps: nat): Greeks
    requires residualTime > 0.0 && timeSteps > 0
  {
    NumericGreeks(k, k.initialCondition, residualTime, timeSteps, FullThetaStep(residualTime, timeSteps), NoCondition)
  }

  /** When the exercise condition never changes what the rollback produces (exercise is
      never optimal on the grid), the American pricer returns the analytic European
      Greeks. */
  lemma ConditionIrrelevantGivesAnalytic(k: Kernel, residualTime: real, timeSteps: nat)
    requires residualTime > 0.0 && timeSteps > 0
    requires forall prices: seq<real>, from: real, to: real, steps: nat ::
               Rollback(k, prices, from, to, steps, AmericanCondition(k.initialCondition))
               == Rollback(k, prices, from, to, steps, NoCondition)
    ensures AmericanGreeks(k, residualTime, timeSteps) == k.analyticEuropean
  {
    var dt := SmallThetaStep(residualTime, timeSteps);
    var american := AmericanCondition(k.initialCondition);
    assert RolledBack(k, k.initialCondition, residualTime, timeSteps, american)
        == RolledBack(k, k.initialCondition, residualTime, timeSteps, NoCondition);
    assert ThetaRolledBack(k, k.initialCondition, residualTime, timeSteps, dt, american)
        == ThetaRolledBack(k, k.initialCondition, residualTime, timeSteps, dt, NoCondition);
  }

  /** model.rollback(prices, from, to, steps, condition): the array is overwritten with
      its rolled-back values. */
  method RollbackInPlace(k: Kernel, prices: array<real>, from: real, to: real, steps: nat, condition: StepCondition)
    requires SizePreserving(k)
    modifies prices
    ensures prices[..] == Rollback(k, old(prices[..]), from, to, steps, condition)
  {
    var rolled := Rollback(k, prices[..], from, to, steps, condition);
    forall i | 0 <= i < prices.Length {
      prices[i] := rolled[i];
    }
  }

  /** The sequence both pricers run on a price array: roll it back from the residual
      time to 0, read value, delta and gamma at the centre, roll it one more step from 0
      to -dt and take theta as the backward difference of the centre values. */
  method RollbackAndRead(k: Kernel, prices: array<real>, residualTime: real, timeSteps: nat, dt: real,
                         condition: StepCondition) returns (g: Greeks)
    requires SizePreserving(k) && dt > 0.0
    modifies prices
    ensures g == NumericGreeks(k, old(prices[..]), residualTime, timeSteps, dt, condition)
    ensures prices[..] == ThetaRolledBack(k, old(prices[..]), residualTime, timeSteps, dt, condition)
  {
    RollbackInPlace(k, prices, residualTime, 0.0, timeSteps, condition);
    var value := k.valueAtCenter(prices[..]);
    var delta := k.firstDerivativeAtCenter(prices[..], k.grid);
    var gamma := k.secondDerivativeAtCenter(prices[..], k.grid);
    RollbackInPlace(k, prices, 0.0, -dt, 1, condition);
    var theta := (value - k.valueAtCenter(prices[..])) / dt;
    g := Greeks(value, delta, gamma, theta);
  }

  /** Array copy-assignment between arrays of the same size. */
  method CopyInto(source: array<real>, target: array<real>)
    requires source.Length == target.Length && source != target
    modifies target
    ensures target[..] == source[..]
  {
    forall i | 0 <= i < target.Length {
      target[i] := source[i];
    }
  }

  /** Fills the array with the given values (the initial condition on the grid). */
  method Fill(target: array<real>, values: seq<real>)
    requires target.Length == |values|
    modifies target
    ensures target[..] == values
  {
    forall i | 0 <= i < target.Length {
      target[i] := values[i];
    }
  }
}
