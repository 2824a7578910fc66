# QuantLib core, modelled in Dafny

This project models five pieces of an early QuantLib in Dafny and proves properties
of the model. All arithmetic is over `real`; the original uses `double`.

- **Multivariate accumulator** (`accumulator.dfy`, module `Accumulator`). This class
  accumulates weighted vector samples. It keeps:
  - a sample count;
  - a weight sum;
  - a weighted sum vector;
  - a weighted quadratic-sum matrix.

  It reports their weighted sample covariance. The class carries a ghost history of
  accepted samples. Its invariant ties every field to the totals over that history.
- **Swaption volatility cube construction** (`volcube.dfy`, module `VolCube`). The
  constructor fills the option dates, option times and swap lengths by index. It
  validates their order, the strike spreads and the shape of the vol-spread quote
  matrix. Registration then walks that matrix through the flattened row index
  `j * nSwapTenors + k`.
- **Longstaff-Schwartz node-data collection** (`lsdatacollector.dfy`, module
  `LongstaffSchwartz`). It builds the exercise mask from the rebate times and the
  rebate's exercise flags. It lays out `exercises + 1` rows of `numberOfPaths` nodes.
  On each path it:
  - walks the cursor `nextExercise`;
  - records exercise nodes;
  - routes product cash flows to the latest exercise node;
  - rescales the numeraire-portfolio principal;
  - null-fills the nodes the path never reached.
- **Finite-difference numerics** (`fdnumerics.dfy`, module `FdNumerics`). These are
  the grid, the payoff, the rollback, the centre value and derivatives, and the
  analytic European Greeks. They are all taken as given functions. The module also
  defines how the pricers combine them: numeric Greeks, theta by backward difference,
  the control variate, and the two theta steps.
- **American pricer with control variate** (`american_pricer.dfy`, module
  `AmericanPricer`) and **finite-difference European pricer** (`european_pricer.dfy`,
  module `EuropeanPricer`). Both are classes whose price arrays are rolled back in
  place and whose Greeks are stored in fields.

`results.dfy` (module `Results`) holds the `Result`, `Outcome` and `Option` wrappers.
The model uses them for the error paths that the original signals with `QL_REQUIRE`.

## Model

| member | source | states |
|---|---|---|
| Accumulator.MultivariateAccumulator.constructor | Sources/Math/multivariateaccumulator.cpp:77-80 | the default accumulator has size 0, no samples, zero count and weight, and empty sum and matrix |
| Accumulator.MultivariateAccumulator.Sized | Sources/Math/multivariateaccumulator.cpp:82-85 | an accumulator of size n starts with a zero vector of length n and an n x n zero matrix |
| Accumulator.MultivariateAccumulator.Reset | Sources/Math/multivariateaccumulator.cpp:87-92 | count 0, weight 0, sum a zero vector of length size, quadratic sum a size x size zero matrix; size unchanged; the invariant holds again with an empty history |
| Accumulator.MultivariateAccumulator.Add | Sources/Math/multivariateaccumulator.cpp:95-118 | a size-0 accumulator first adopts the input length and resets; otherwise a length mismatch fails and changes nothing; a negative weight then fails (after any adoption); on success the count grows by 1, the weight by `weight`, `sum[i]` by `weight*value[i]` and `quad[i][j]` by `weight*value[i]*value[j]`; the fields stay the totals of the sample history and the matrix stays symmetric |
| Accumulator.MultivariateAccumulator.Accept | Sources/Math/multivariateaccumulator.cpp:112-117 | an accepted sample (right length, non-negative weight) raises the count by 1, the weight sum by `weight`, `sum[i]` by `weight*value[i]` and `quad[i][j]` by `weight*value[i]*value[j]`, keeps the size, and appends the sample to the history so the invariant still holds |
| Accumulator.MultivariateAccumulator.AddVector | Sources/Math/multivariateaccumulator.cpp:139-145 | adding a `std::vector` has exactly the effect of adding the array with the same elements |
| Accumulator.MultivariateAccumulator.SymmetricWhenValid | Sources/Math/multivariateaccumulator.cpp:114-117 | the quadratic-sum matrix of a consistent accumulator is symmetric |
| Accumulator.MultivariateAccumulator.Covariance | Sources/Math/multivariateaccumulator.cpp:120-129 | fails exactly when the weight sum is not positive or the count is at most 1, with the first failing check as the error; otherwise a square symmetric matrix |
| Accumulator.CovarianceIsWeightedSampleCovariance | Sources/Math/multivariateaccumulator.cpp:126-128 | each entry of the reported covariance is the weighted centred cross-moment of the accepted samples about their weighted mean, times n/(n-1), divided by the weight |
| Accumulator.CovarianceDiagonalNonNegative | Sources/Math/multivariateaccumulator.cpp:126-128 | every variance the accumulator reports is non-negative |
| Accumulator.AcceptedSampleTotals | Sources/Math/multivariateaccumulator.cpp:112-117 | the field updates of one accepted sample turn the totals of a history into the totals of the history with that sample appended |
| Accumulator.QuadAtSymmetric | Sources/Math/multivariateaccumulator.cpp:117 | the weighted quadratic sum of any history is symmetric in its two indices |
| Accumulator.CentredExpansion | Sources/Math/multivariateaccumulator.cpp:127-128 | the centred cross-moment about any point expands to the raw moments used by the formula |
| Accumulator.CentredSquareNonNegative | Sources/Math/multivariateaccumulator.cpp:127-128 | a weighted sum of squares with non-negative weights is non-negative |
| VolCube.StrictlyIncreasingOrdered | ql/Volatilities/swaptionvolcube.cpp:70-79 | checking each element against its predecessor makes the sequence ordered for every pair of indices |
| VolCube.PositiveIncreasingAllPositive | ql/Volatilities/swaptionvolcube.cpp:67-79 | a positive first element plus the neighbour checks make every element positive |
| VolCube.InOrderEverywhere | ql/Volatilities/swaptionvolcube.cpp:67-79 | a sequence is positive and strictly increasing iff every index passes the check the constructor makes there (first element positive, every later one above its predecessor) |
| VolCube.ViolationRefutesShape | ql/Volatilities/swaptionvolcube.cpp:67-117 | any error the constructor reports contradicts the validated shape |
| VolCube.FillOptionTimes | ql/Volatilities/swaptionvolcube.cpp:62-79 | fills dates, serial numbers and times by index; reports the first index whose time is not positive (index 0) or not above its predecessor; otherwise the vectors are the option dates, times and serial numbers of the tenors and the times are positive and strictly increasing |
| VolCube.FillSwapLengths | ql/Volatilities/swaptionvolcube.cpp:87-98 | swap lengths are year fractions from the first option date; reports the first failing index, or else they are positive and strictly increasing |
| VolCube.FirstNonIncreasingStrike | ql/Volatilities/swaptionvolcube.cpp:101-104 | no index reported iff the strike spreads are strictly increasing; a reported index is the first not above its predecessor |
| VolCube.FirstColumnMismatch | ql/Volatilities/swaptionvolcube.cpp:108-112 | no row reported iff every row has nStrikes columns; a reported row is the first that does not |
| VolCube.Create | ql/Volatilities/swaptionvolcube.cpp:27-121 | succeeds iff option times and swap lengths are positive and strictly increasing, there are more than one strike spread and they are strictly increasing, and the vol-spread matrix is non-empty with nOptionTenors*nSwapTenors rows of nStrikes columns; a failure names the first check (in the constructor's order) that fails; a built cube has one date, time and serial number per option tenor, one length per swap tenor, and local strikes and smile of nStrikes entries; a built cube has registered with every (row, strike) cell of the quote matrix, column by column, and a failed one with none |
| VolCube.SwaptionVolatilityCube.OptionTenors | ql/Volatilities/swaptionvolcube.cpp:146-149 | the stored option tenors, one per option tenor of the cube |
| VolCube.SwaptionVolatilityCube.OptionDates | ql/Volatilities/swaptionvolcube.cpp:151-154 | the stored option dates, one per option tenor |
| VolCube.SwaptionVolatilityCube.OptionTimes | ql/Volatilities/swaptionvolcube.cpp:156-159 | the stored option times, one per option tenor, positive and strictly increasing |
| VolCube.SwaptionVolatilityCube.SwapTenors | ql/Volatilities/swaptionvolcube.cpp:161-164 | the stored swap tenors, one per swap tenor of the cube |
| VolCube.SwaptionVolatilityCube.SwapLengths | ql/Volatilities/swaptionvolcube.cpp:166-169 | the stored swap lengths, one per swap tenor, positive and strictly increasing |
| VolCube.FlatIndexInRange | ql/Volatilities/swaptionvolcube.cpp:128 | for j < nOptionTenors and k < nSwapTenors the row `j*nSwapTenors+k` is below nOptionTenors*nSwapTenors |
| VolCube.FlatIndexInverse | ql/Volatilities/swaptionvolcube.cpp:128 | the option and swap tenor indices are recovered from the row by division and remainder |
| VolCube.FlatIndexBijection | ql/Volatilities/swaptionvolcube.cpp:125-128 | `(j,k) -> j*nSwapTenors+k` maps the tenor pairs one-to-one onto the rows, with division and remainder as its inverse |
| VolCube.AllCellsExactlyOnce | ql/Volatilities/swaptionvolcube.cpp:125-128 | the column-by-column walk has rows*columns entries, contains exactly the cells of the block and repeats none |
| VolCube.RegisterWithVolatilitySpread | ql/Volatilities/swaptionvolcube.cpp:123-129 | on a validated cube, every index used is in range, each (row, strike) cell of the quote matrix is visited exactly once, and the quotes registered with are those cells |
| LongstaffSchwartz.CountTrueMonotone | ql/marketmodels/lsdatacollector.cpp:111-117 | the number of rebate steps seen never decreases along the evolution |
| LongstaffSchwartz.ExerciseMask | ql/marketmodels/lsdatacollector.cpp:109-117 | the mask has one entry per evolution step, and no prefix of it has more exercise steps than rebate steps |
| LongstaffSchwartz.SubMaskCount | ql/marketmodels/lsdatacollector.cpp:113-116 | a mask set only where the rebate mask is set counts no more steps in any prefix |
| LongstaffSchwartz.RebateIndexInRange | ql/marketmodels/lsdatacollector.cpp:114 | at a rebate step the index into the rebate's exercise flags is in range |
| LongstaffSchwartz.BuildExerciseMask | ql/marketmodels/lsdatacollector.cpp:109-117 | `isExerciseTime[i]` is false at non-rebate steps and is the rebate's n-th exercise flag at the n-th rebate step; `exercises` is the number of rebate steps |
| LongstaffSchwartz.Advance | ql/marketmodels/lsdatacollector.cpp:148-195 | one step keeps the column size and a positive principal, and moves the cursor by one exactly at an exercise step |
| LongstaffSchwartz.AdvanceFacts | ql/marketmodels/lsdatacollector.cpp:148-195 | one step changes only the node under the advanced cursor: at an exercise step it is overwritten (values divided by the principal, zero cash flows, valid), and at a product step the step's cash flows divided by the principal are added; the principal is rescaled unless the product is done |
| LongstaffSchwartz.Run | ql/marketmodels/lsdatacollector.cpp:130-197 | after k steps the cursor equals the number of exercise steps among them, the column keeps its size and the principal stays positive |
| LongstaffSchwartz.RunPrincipal | ql/marketmodels/lsdatacollector.cpp:130-195 | the principal starts at 1 and, while the product is not done, is the product of the discount ratios of the steps taken |
| LongstaffSchwartz.PrincipalAtStop | ql/marketmodels/lsdatacollector.cpp:190-195 | the step on which the product is done does not rescale the principal |
| LongstaffSchwartz.LedgerBeyondCursor | ql/marketmodels/lsdatacollector.cpp:180-187 | no cash flow is routed to a node beyond the cursor |
| LongstaffSchwartz.RunUntouched | ql/marketmodels/lsdatacollector.cpp:148-187 | the nodes beyond the cursor are not written while the path runs |
| LongstaffSchwartz.RunFirstNode | ql/marketmodels/lsdatacollector.cpp:134-187 | node 0 holds exactly the discounted cash flows of the product steps before the first exercise |
| LongstaffSchwartz.RunExercisedNodes | ql/marketmodels/lsdatacollector.cpp:168-187 | every node written at an exercise is valid and holds exactly the discounted cash flows of the product steps since that exercise and before the next |
| LongstaffSchwartz.RunExerciseNodes | ql/marketmodels/lsdatacollector.cpp:148-173 | the node of the n-th exercise holds that step's rebate and control values divided by the principal and its basis values, and is not overwritten later on the path |
| LongstaffSchwartz.FinalColumnContents | ql/marketmodels/lsdatacollector.cpp:124-205 | after a path: node r >= 1 is valid iff the path passed at least r exercise steps; valid nodes hold their exercise records and routed cash flows; the others are nulled (zero exercise value, control value and cash flows); node 0 holds the cash flows before the first exercise |
| LongstaffSchwartz.Resized | ql/marketmodels/lsdatacollector.cpp:119-121 | the data has the requested number of rows, each of the requested length |
| LongstaffSchwartz.ResizeCollectedData | ql/marketmodels/lsdatacollector.cpp:119-121 | the layout loop yields exercises + 1 rows of numberOfPaths nodes, keeping existing nodes |
| LongstaffSchwartz.AddToNodeTwice | ql/marketmodels/lsdatacollector.cpp:180-187 | adding two amounts to a node's cash flows one after the other adds their sum |
| LongstaffSchwartz.AddCashFlows | ql/marketmodels/lsdatacollector.cpp:180-187 | the cash-flow loop adds each amount divided by the principal to node (row, path) and to no other node |
| LongstaffSchwartz.StepPath | ql/marketmodels/lsdatacollector.cpp:136-195 | one pass of the do-while body performs exactly one `Advance` on the path's column and sets `done` exactly when it is a product step and the product reports done |
| LongstaffSchwartz.SimulatePath | ql/marketmodels/lsdatacollector.cpp:130-197 | the do-while loop leaves the path's column, cursor and principal (returned) as `Run` after all steps of the path, touching no other column |
| LongstaffSchwartz.NullFillPath | ql/marketmodels/lsdatacollector.cpp:199-205 | rows nextExercise+1 .. exercises of the path get zero exercise value, control value and cash flows and are marked invalid; nothing else changes |
| LongstaffSchwartz.CollectPath | ql/marketmodels/lsdatacollector.cpp:125-205 | one iteration of the path loop replaces the path's column by its final column and leaves the others |
| LongstaffSchwartz.OtherColumns | ql/marketmodels/lsdatacollector.cpp:124-206 | writing one path's column leaves every other path's column unchanged |
| LongstaffSchwartz.CollectNodeData | ql/marketmodels/lsdatacollector.cpp:36-207 | fails iff the product does not have exactly one sub-product; otherwise the data has exercises + 1 rows of numberOfPaths nodes and each path's column is that path's final column |
| FdNumerics.SmallThetaStep | Sources/Pricers/bsmamericanoption.cpp:43 | the American theta step is positive and 100 * steps of it make up the residual time |
| FdNumerics.FullThetaStep | Sources/Pricers/finitedifferenceeuropean.cpp:101 | the European theta step is positive and `steps` of it make up the residual time |
| FdNumerics.SmallStepIsHundredth | Sources/Pricers/bsmamericanoption.cpp:43 | the American theta step is a hundredth of the European one for the same residual time and step count |
| FdNumerics.NumericGreeksFromRolledBack | Sources/Pricers/bsmamericanoption.cpp:55-60 | start arrays that roll back to the same array give the same value, delta, gamma and theta: theta's extra step from 0 to -dt starts from the rolled-back array, not from the start array |
| FdNumerics.ControlVariate | Sources/Pricers/bsmamericanoption.cpp:70-73 | the corrected Greeks equal the analytic European Greeks if and only if the numeric American Greeks equal the numeric European ones; each corrected Greek is off the analytic one by exactly the numeric early-exercise difference |
| FdNumerics.ConditionIrrelevantGivesAnalytic | Sources/Pricers/bsmamericanoption.cpp:54-73 | if the exercise condition never changes the rollback, the American pricer returns exactly the analytic European Greeks |
| FdNumerics.RollbackAndRead | Sources/Pricers/finitedifferenceeuropean.cpp:95-104 | rolling an array back from the residual time to 0 and then one step to -dt, reading value, delta and gamma in between, yields exactly `NumericGreeks` of its old contents and leaves the array rolled back twice; the American pricer runs the same sequence at Sources/Pricers/bsmamericanoption.cpp:55-60 and 63-68 |
| FdNumerics.RollbackInPlace | Sources/Pricers/bsmamericanoption.cpp:55 | the array is overwritten with its rolled-back values |
| FdNumerics.CopyInto | Sources/Pricers/finitedifferenceeuropean.cpp:93 | array assignment: the target holds the source's values |
| FdNumerics.Fill | Sources/Pricers/bsmamericanoption.cpp:40 | the array holds the initial condition on the grid |
| AmericanPricer.BsmAmericanOption.constructor | Sources/Pricers/bsmamericanoption.cpp:37-40 | sets up the state that `value()` assumes on its first call: the flag is false and `thePrices` is sized to the initial condition (the constructor itself is not part of the source file modelled) |
| AmericanPricer.BsmAmericanOption.Value | Sources/Pricers/bsmamericanoption.cpp:36-77 | the first call stores value, delta, gamma and theta equal to `AmericanGreeks`: the European rollback runs on a copy without the condition, and the American rollback runs in place from the untouched initial condition with the condition on both rollbacks, theta over `T/(100*steps)`; the price array ends rolled back with the condition; later calls change nothing and return the cached value; the flag ends true |
| EuropeanPricer.FiniteDifferenceEuropean.constructor | Sources/Pricers/finitedifferenceeuropean.cpp:74-81 | the working array is sized to the number of grid points |
| EuropeanPricer.FiniteDifferenceEuropean.Calculate | Sources/Pricers/finitedifferenceeuropean.cpp:84-107 | the working array is a rolled-back copy of the initial prices, which keep the initial condition; value, delta and gamma are read from it at the centre; theta is the backward difference over one extra full step `T/steps`; the flag ends true |

## Left out

- The numerical kernels are not modelled: the Crank-Nicolson rollback, the tridiagonal operator, the grid and its limits, the payoff, the centre value and derivatives, and the analytic `BSMEuropeanOption`. They are arbitrary functions carried in `FdNumerics.Kernel`, except that the rollback must keep the array size. Nothing is claimed about convergence or accuracy.
- Floating-point rounding, infinities and NaN are not modelled. All arithmetic is exact over `real`. For this reason the pricers require a positive residual time and at least one time step. A zero residual time or zero steps would divide by zero in the original. A negative residual time is outside what an option's residual time means, so the model excludes it too.
- FdNumerics.SmallThetaStep: `100*theTimeSteps` is an `int` product in the original and can overflow for huge step counts. The model computes it exactly.
- AmericanPricer.BsmAmericanOption.Value: the grid, the initial condition and the analytic Greeks come from the kernel. The setup calls (`setGridLimits`, `initializeGrid`, `initializeInitialCondition`, `initializeOperator`) are represented only by what they produce.
- Date and calendar services in the cube are parameters (`VolCube.DateServices`):
  - `optionDateFromOptionTenor`;
  - `timeFromReference`;
  - date plus period;
  - `dayCounter().yearFraction`.
- The rest of the cube is not modelled: the linear interpolation over option times, `atmStrike`, and the observer registrations with `atmVol` and the swap index base. `RegisterWithVolatilitySpread` returns the cells and quotes it would register with, and `Create` ends by calling it, as the original constructor does.
- VolCube.Create: requires non-empty option and swap tenors. The original indexes element 0 of both without a check.
- The market-model collaborators of `collectNodeData` are a per-step `StepOutcome` trace per path. These are the evolver, the product, the rebate, the control, the data provider, the discounters' numeraire bonds, the curve state's discount ratio and `isInSubset`. The rebate and control values and the cash-flow amounts in the trace are already multiplied by their numeraire bonds. The control-time and basis-time masks only decide when collaborators step, so they are not modelled.
- LongstaffSchwartz.BuildExerciseMask: requires at least as many rebate exercise flags as rebate steps (`CountTrue(isRebateTime) <= |v|`). The original indexes `v[exercises]` without a check and relies on the collaborators being compatible.
- LongstaffSchwartz.CollectNodeData: requires the same bound on the rebate's exercise flags, for the same reason.
- LongstaffSchwartz.CollectNodeData: requires each path to end with the product done at a product step, within the evolution times, with positive discount ratios. The original does not check this. A path that never finishes would index past the numeraires.
- LongstaffSchwartz.CollectNodeData: `collectedData` is passed by reference in the original. The model takes it as a value and returns the updated data. New nodes from `resize` are copies of a given `blank` node, where the original uses default-constructed ones.
- EuropeanPricer.FiniteDifferenceEuropean.constructor: takes the number of grid points as an argument that must equal the initial condition's length. In the original, `gridPoints_` is set by the `BSMNumericalOption` base class, which is not part of this model; the model assumes it is the size of the grid the initial condition lives on.
- The `size_ == 0` quirk of the accumulator is modelled as written: a sample of length 0 leaves the dimension open.
- `meanVector` and the other accessors declared in the accumulator's header are not part of this model.
- Accumulator.MultivariateAccumulator.Sized: takes a `nat`. The original's `int` size could be negative.
