/**
 * The finite-difference European option pricer: the initial condition on the grid is
 * copied and rolled back to today; value, delta and gamma are read at the centre of
 * the grid and theta from one extra full time step.
 */
module EuropeanPricer {
  import opened FdNumerics

  class FiniteDifferenceEuropean {
    const kernel: Kernel
    const residualTime: real
    const timeSteps: nat
    const gridPoints: nat
    const euroPrices: array<real>
    const initialPrices: array<real>
    var grid: seq<real>
    var value: real
    var delta: real
    var gamma: real
    var theta: real
    var hasBeenCalculated: bool

    ghost predicate Valid()
      reads this
    {
      && SizePreserving(kernel)
      && residualTime > 0.0 && timeSteps > 0
      && |kernel.initialCondition| == gridPoints
      && euroPrices.Length == gridPoints && initialPrices.Length == gridPoints
      && euroPrices != initialPrices
    }

    /** The constructor sizes the working array to the number of grid points. */
    constructor (kernel: Kernel, residualTime: real, timeSteps: nat, gridPoints: nat)
      requires SizePreserving(kernel) && residualTime > 0.0 && timeSteps > 0
      requires |kernel.initialCondition| == gridPoints
      ensures Valid() && !hasBeenCalculated
      ensures this.kernel == kernel && this.residualTime == residualTime
      ensures this.timeSteps == timeSteps && this.gridPoints == gridPoints
      ensures euroPrices.Length == gridPoints && fresh(euroPrices) && fresh(initialPrices)
    {
      this.kernel := kernel;
      this.residualTime := residualTime;
      this.timeSteps := timeSteps;
      this.gridPoints := gridPoints;
      euroPrices := new real[gridPoints];
      initialPrices := new real[gridPoints];
      grid := [];
      value, delta, gamma, theta := 0.0, 0.0, 0.0, 0.0;
      hasBeenCalculated := false;
    }

    /** FiniteDifferenceEuropean::calculate: the initial prices are copied into the
        working array, which alone is rolled back; the initial prices stay as they were
        set up. */
    method Calculate()
      requires Valid()
      modifies this, euroPrices, initialPrices
      ensures Valid() && hasBeenCalculated
      ensures grid == kernel.grid
      ensures initialPrices[..] == kernel.initialCondition
      ensures Greeks(value, delta, gamma, theta) == EuropeanGreeks(kernel, residualTime, timeSteps)
      ensures euroPrices[..] == ThetaRolledBack(kernel, kernel.initialCondition, residualTime, timeSteps,
                                                FullThetaStep(residualTime, timeSteps), NoCondition)
    {
      grid := kernel.grid;
      Fill(initialPrices, kernel.initialCondition);

      CopyInto(initialPrices, euroPrices);
      var dt := FullThetaStep(residualTime, timeSteps);
      var numeric := RollbackAndRead(kernel, euroPrices, residualTime, timeSteps, dt, NoCondition);
      value, delta, gamma, theta := numeric.value, numeric.delta, numeric.gamma, numeric.theta;
      hasBeenCalculated := true;
    }
  }
}
