/**
 * The finite-difference American option pricer with a control variate: the American
 * Greeks computed numerically on a grid are corrected by the difference between the
 * analytic and the numeric European Greeks on the same grid.  The result is computed
 * once and cached.
 */
module AmericanPricer {
  import opened FdNumerics

  class BsmAmericanOption {
    const kernel: Kernel
    const residualTime: real
    const timeSteps: nat
    /** The price array, holding the initial condition until the American rollback
        overwrites it. */
    const thePrices: array<real>
    var theGrid: seq<real>
    var hasBeenCalculated: bool
    var theValue: real
    var theDelta: real
    var theGamma: real
    var theTheta: real

    ghost predicate Valid()
      reads this
    {
      && SizePreserving(kernel)
      && residualTime > 0.0 && timeSteps > 0
      && thePrices.Length == |kernel.initialCondition|
    }

    constructor (kernel: Kernel, residualTime: real, timeSteps: nat)
      requires SizePreserving(kernel) && residualTime > 0.0 && timeSteps > 0
      ensures Valid() && !hasBeenCalculated
      ensures this.kernel == kernel && this.residualTime == residualTime && this.timeSteps == timeSteps
      ensures fresh(thePrices)
    {
      this.kernel := kernel;
      this.residualTime := residualTime;
      this.timeSteps := timeSteps;
      thePrices := new real[|kernel.initialCondition|];
      theGrid := [];
      hasBeenCalculated := false;
      theValue, theDelta, theGamma, theTheta := 0.0, 0.0, 0.0, 0.0;
    }

    /** BSMAmericanOption::value: on the first call, rolls a copy of the initial prices
        back without a condition (numeric European Greeks), then the prices themselves
        with the American condition (numeric American Greeks), and stores the corrected
        Greeks; every call returns the stored value. */
    method Value() returns (v: real)
      requires Valid()
      modifies this, thePrices
      ensures Valid() && hasBeenCalculated && v == theValue
      ensures old(hasBeenCalculated) ==> unchanged(this) && unchanged(thePrices)
      ensures !old(hasBeenCalculated) ==>
                var dt := SmallThetaStep(residualTime, timeSteps);
                && Greeks(theValue, theDelta, theGamma, theTheta) == AmericanGreeks(kernel, residualTime, timeSteps)
                && theGrid == kernel.grid
                && thePrices[..] == ThetaRolledBack(kernel, kernel.initialCondition, residualTime, timeSteps, dt,
                                                    AmericanCondition(kernel.initialCondition))
    {
      if !hasBeenCalculated {
        theGrid := kernel.grid;
        Fill(thePrices, kernel.initialCondition);
        var smallDt := SmallThetaStep(residualTime, timeSteps);
        var analyticEuro := kernel.analyticEuropean;
        // the European Greeks, numerically, on a copy of the prices
        var theEuroPrices := new real[thePrices.Length];
        CopyInto(thePrices, theEuroPrices);
        var numericEuro := RollbackAndRead(kernel, theEuroPrices, residualTime, timeSteps, smallDt, NoCondition);
        // the American Greeks, numerically, on the prices themselves
        var americanCondition := AmericanCondition(thePrices[..]);
        var numericAmerican := RollbackAndRead(kernel, thePrices, residualTime, timeSteps, smallDt, americanCondition);
        theValue := numericAmerican.value - numericEuro.value + analyticEuro.value;
        theDelta := numericAmerican.delta - numericEuro.delta + analyticEuro.delta;
        theGamma := numericAmerican.gamma - numericEuro.gamma + analyticEuro.gamma;
        theTheta := numericAmerican.theta - numericEuro.theta + analyticEuro.theta;
        hasBeenCalculated := true;
      }
      v := theValue;
    }
  }
}
