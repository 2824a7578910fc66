/**
 * Construction of a swaption volatility cube: the option tenors, swap tenors and
 * strike spreads that span the cube are validated (positive, strictly increasing
 * times and lengths, at least two increasing strike spreads) and the matrix of
 * volatility-spread quotes is checked to have one row per (option tenor, swap
 * tenor) pair, row j * nSwapTenors + k, and one column per strike spread.
 *
 * Date arithmetic (option dates from tenors, times from the reference date, day
 * counting) is supplied by the caller as `DateServices`; dates are serial numbers
 * and the quotes are represented by their values.
 */
module VolCube {
  import opened Results

  /** A date as its serial number. */
  type Date = int

  datatype TimeUnit = Days | Weeks | Months | Years
  datatype Period = Period(length: int, units: TimeUnit)

  /** The calendar and day-count services the cube takes from its base class. */
  datatype DateServices = DateServices(
    optionDateFromOptionTenor: Period -> Date,
    timeFromReference: Date -> real,
    advance: (Date, Period) -> Date,
    yearFraction: (Date, Date) -> real)

  datatype CubeError =
    | FirstOptionTimeNotPositive
    | NonIncreasingOptionTimes(index: nat)
    | FirstSwapLengthNotPositive
    | NonIncreasingSwapLengths(index: nat)
    | TooFewStrikes
    | NonIncreasingStrikeSpreads(index: nat)
    | EmptyVolSpreads
    | ColumnMismatch(row: nat)
    | RowMismatch

  // ---------------------------------------------------------------------------
  // Orderings
  // ---------------------------------------------------------------------------

  /** Every element is strictly greater than its predecessor. */
  predicate StrictlyIncreasing(s: seq<real>) {
    forall i | 1 <= i < |s| :: s[i - 1] < s[i]
  }

  predicate PositiveIncreasing(s: seq<real>) {
    |s| > 0 && 0.0 < s[0] && StrictlyIncreasing(s)
  }

  /** Increasing neighbours make the whole sequence strictly ordered. */
  lemma {:induction false} StrictlyIncreasingOrdered(s: seq<real>, i: nat, j: nat)
    requires StrictlyIncreasing(s) && i < j < |s|
    ensures s[i] < s[j]
    decreases j - i
  {
    if i + 1 < j {
      StrictlyIncreasingOrdered(s, i + 1, j);
    }
  }

  /** A positive, strictly increasing sequence is positive everywhere. */
  lemma PositiveIncreasingAllPositive(s: seq<real>)
    requires PositiveIncreasing(s)
    ensures forall i | 0 <= i < |s| :: 0.0 < s[i]
  {
    forall i | 0 < i < |s|
      ensures 0.0 < s[i]
    {
      StrictlyIncreasingOrdered(s, 0, i);
    }
  }

  // ---------------------------------------------------------------------------
  // What the constructor computes from its inputs
  // ---------------------------------------------------------------------------

  function OptionDatesOf(ds: DateServices, optionTenors: seq<Period>): (r: seq<Date>)
    ensures |r| == |optionTenors|
  {
    seq(|optionTenors|, i requires 0 <= i < |optionTenors| => ds.optionDateFromOptionTenor(optionTenors[i]))
  }

  function OptionTimesOf(ds: DateServices, dates: seq<Date>): (r: seq<real>)
    ensures |r| == |dates|
  {
    seq(|dates|, i requires 0 <= i < |dates| => ds.timeFromReference(dates[i]))
  }

  function SerialNumbers(dates: seq<Date>): (r: seq<real>)
    ensures |r| == |dates|
  {
    seq(|dates|, i requires 0 <= i < |dates| => dates[i] as real)
  }

  /** Swap lengths are year fractions from the first option date. */
  function SwapLengthsOf(ds: DateServices, start: Date, swapTenors: seq<Period>): (r: seq<real>)
    ensures |r| == |swapTenors|
  {
    seq(|swapTenors|, i requires 0 <= i < |swapTenors| => ds.yearFraction(start, ds.advance(start, swapTenors[i])))
  }

  // ---------------------------------------------------------------------------
  // The checks, in the order the constructor makes them
  // ---------------------------------------------------------------------------

  /** The check made at position k of a sequence that must be positive and strictly
      increasing: the first element is positive, every later one exceeds its predecessor. */
  predicate InOrderAt(s: seq<real>, k: nat)
    requires k < |s|
  {
    if k == 0 then 0.0 < s[0] else s[k - 1] < s[k]
  }

  /** Position i is the first at which that check fails. */
  predicate FirstFailureAt(s: seq<real>, i: nat) {
    i < |s| && !InOrderAt(s, i) && forall k | 0 <= k < i :: InOrderAt(s, k)
  }

  lemma InOrderEverywhere(s: seq<real>)
    requires |s| > 0
    ensures PositiveIncreasing(s) <==> forall k | 0 <= k < |s| :: InOrderAt(s, k)
  {
    if PositiveIncreasing(s) {
      forall k | 0 <= k < |s|
        ensures InOrderAt(s, k)
      {
        if k > 0 {
          assert s[k - 1] < s[k];
        }
      }
    }
    if forall k | 0 <= k < |s| :: InOrderAt(s, k) {
      assert InOrderAt(s, 0);
      forall k | 1 <= k < |s|
        ensures s[k - 1] < s[k]
      {
        assert InOrderAt(s, k);
      }
    }
  }

  /** Strike spread i (i >= 1) is the first that does not exceed its predecessor. */
  predicate FirstStrikeFailureAt(s: seq<real>, i: nat) {
    1 <= i < |s| && !(s[i - 1] < s[i]) && forall k | 1 <= k < i :: s[k - 1] < s[k]
  }

  /** Row `row` is the first whose number of columns differs from nStrikes. */
  predicate FirstColumnMismatchAt(volSpreads: seq<seq<real>>, nStrikes: nat, row: nat) {
    row < |volSpreads| && |volSpreads[row]| != nStrikes
    && forall r | 0 <= r < row :: |volSpreads[r]| == nStrikes
  }

  ghost predicate OptionTimesOk(ds: DateServices, optionTenors: seq<Period>) {
    PositiveIncreasing(OptionTimesOf(ds, OptionDatesOf(ds, optionTenors)))
  }

  ghost predicate SwapLengthsOk(ds: DateServices, optionTenors: seq<Period>, swapTenors: seq<Period>)
    requires |optionTenors| > 0
  {
    PositiveIncreasing(SwapLengthsOf(ds, OptionDatesOf(ds, optionTenors)[0], swapTenors))
  }

  predicate StrikesOk(strikeSpreads: seq<real>) {
    |strikeSpreads| > 1 && StrictlyIncreasing(strikeSpreads)
  }

  predicate ColumnsOk(volSpreads: seq<seq<real>>, nStrikes: nat) {
    forall row | 0 <= row < |volSpreads| :: |volSpreads[row]| == nStrikes
  }

  /** Every check of the constructor passes. */
  ghost predicate ShapeOk(ds: DateServices, optionTenors: seq<Period>, swapTenors: seq<Period>,
                          strikeSpreads: seq<real>, volSpreads: seq<seq<real>>)
    requires |optionTenors| > 0
  {
    && OptionTimesOk(ds, optionTenors)
    && SwapLengthsOk(ds, optionTenors, swapTenors)
    && StrikesOk(strikeSpreads)
    && |volSpreads| > 0
    && ColumnsOk(volSpreads, |strikeSpreads|)
    && |optionTenors| * |swapTenors| == |volSpreads|
  }

  /** `e` reports the first check that does not pass: every earlier check passed. */
  ghost predicate FirstViolation(e: CubeError, ds: DateServices, optionTenors: seq<Period>,
                                 swapTenors: seq<Period>, strikeSpreads: seq<real>,
                                 volSpreads: seq<seq<real>>)
    requires |optionTenors| > 0
  {
    var times := OptionTimesOf(ds, OptionDatesOf(ds, optionTenors));
    var lengths := SwapLengthsOf(ds, OptionDatesOf(ds, optionTenors)[0], swapTenors);
    match e
    case FirstOptionTimeNotPositive =>
      FirstFailureAt(times, 0)
    case NonIncreasingOptionTimes(i) =>
      i >= 1 && FirstFailureAt(times, i)
    case FirstSwapLengthNotPositive =>
      OptionTimesOk(ds, optionTenors) && FirstFailureAt(lengths, 0)
    case NonIncreasingSwapLengths(i) =>
      OptionTimesOk(ds, optionTenors) && i >= 1 && FirstFailureAt(lengths, i)
    case TooFewStrikes =>
      OptionTimesOk(ds, optionTenors) && SwapLengthsOk(ds, optionTenors, swapTenors) && |strikeSpreads| <= 1
    case NonIncreasingStrikeSpreads(i) =>
      && OptionTimesOk(ds, optionTenors) && SwapLengthsOk(ds, optionTenors, swapTenors)
      && FirstStrikeFailureAt(strikeSpreads, i)
    case EmptyVolSpreads =>
      && OptionTimesOk(ds, optionTenors) && SwapLengthsOk(ds, optionTenors, swapTenors)
      && StrikesOk(strikeSpreads) && |volSpreads| == 0
    case ColumnMismatch(row) =>
      && OptionTimesOk(ds, optionTenors) && SwapLengthsOk(ds, optionTenors, swapTenors)
      && StrikesOk(strikeSpreads) && FirstColumnMismatchAt(volSpreads, |strikeSpreads|, row)
    case RowMismatch =>
      && OptionTimesOk(ds, optionTenors) && SwapLengthsOk(ds, optionTenors, swapTenors)
      && StrikesOk(strikeSpreads) && |volSpreads| > 0 && ColumnsOk(volSpreads, |strikeSpreads|)
      && |optionTenors| * |swapTenors| != |volSpreads|
  }

  /** Each reported error is a genuine reason to refuse the inputs. */
  lemma ViolationRefutesShape(e: CubeError, ds: DateServices, optionTenors: seq<Period>,
                              swapTenors: seq<Period>, strikeSpreads: seq<real>,
                              volSpreads: seq<seq<real>>)
    requires |optionTenors| > 0
    requires FirstViolation(e, ds, optionTenors, swapTenors, strikeSpreads, volSpreads)
    ensures !ShapeOk(ds, optionTenors, swapTenors, strikeSpreads, volSpreads)
  {
    var times := OptionTimesOf(ds, OptionDatesOf(ds, optionTenors));
    var lengths := SwapLengthsOf(ds, OptionDatesOf(ds, optionTenors)[0], swapTenors);
    match e
    case FirstOptionTimeNotPositive =>
      InOrderEverywhere(times);
    case NonIncreasingOptionTimes(i) =>
      InOrderEverywhere(times);
    case FirstSwapLengthNotPositive =>
      InOrderEverywhere(lengths);
    case NonIncreasingSwapLengths(i) =>
      InOrderEverywhere(lengths);
    case _ =>
  }

  // ---------------------------------------------------------------------------
  // The cube
  // ---------------------------------------------------------------------------

  datatype SwaptionVolatilityCube = SwaptionVolatilityCube(
    optionTenors: seq<Period>,
    optionDates: seq<Date>,
    optionTimes: seq<real>,
    optionDatesAsReal: seq<real>,
    swapTenors: seq<Period>,
    swapLengths: seq<real>,
    nOptionTenors: nat,
    nSwapTenors: nat,
    nStrikes: nat,
    strikeSpreads: seq<real>,
    localStrikes: seq<real>,
    localSmile: seq<real>,
    volSpreads: seq<seq<real>>,
    vegaWeightedSmileFit: bool)
  {
    /** The shape a constructed cube has. */
    ghost predicate Valid() {
      && nOptionTenors == |optionTenors| == |optionDates| == |optionTimes| == |optionDatesAsReal|
      && nSwapTenors == |swapTenors| == |swapLengths|
      && nStrikes == |strikeSpreads| == |localStrikes| == |localSmile|
      && PositiveIncreasing(optionTimes)
      && PositiveIncreasing(swapLengths)
      && StrikesOk(strikeSpreads)
      && |volSpreads| == nOptionTenors * nSwapTenors
      && ColumnsOk(volSpreads, nStrikes)
    }

    function OptionTenors(): (r: seq<Period>)
      requires Valid()
      ensures |r| == nOptionTenors > 0
    {
      optionTenors
    }

    function OptionDates(): (r: seq<Date>)
      requires Valid()
      ensures |r| == nOptionTenors > 0
    {
      optionDates
    }

    function OptionTimes(): (r: seq<real>)
      requires Valid()
      ensures |r| == nOptionTenors && PositiveIncreasing(r)
    {
      optionTimes
    }

    function SwapTenors(): (r: seq<Period>)
      requires Valid()
      ensures |r| == nSwapTenors > 0
    {
      swapTenors
    }

    function SwapLengths(): (r: seq<real>)
      requires Valid()
      ensures |r| == nSwapTenors && PositiveIncreasing(r)
    {
      swapLengths
    }
  }

  /** The first loop of the constructor: option dates, their serial numbers and their
      times, filled by index and checked as they are filled. */
  method FillOptionTimes(ds: DateServices, optionTenors: seq<Period>)
    returns (optionDates: seq<Date>, optionTimes: seq<real>, optionDatesAsReal: seq<real>, failedAt: Option<nat>)
    requires |optionTenors| > 0
    ensures failedAt.Some? ==> FirstFailureAt(OptionTimesOf(ds, OptionDatesOf(ds, optionTenors)), failedAt.value)
    ensures failedAt.None? ==>
              && OptionTimesOk(ds, optionTenors)
              && optionDates == OptionDatesOf(ds, optionTenors)
              && optionTimes == OptionTimesOf(ds, optionDates)
              && optionDatesAsReal == SerialNumbers(optionDates)
  {
    ghost var dates := OptionDatesOf(ds, optionTenors);
    ghost var times := OptionTimesOf(ds, dates);
    var n := |optionTenors|;
    optionDates := seq(n, _ => 0);
    optionTimes := seq(n, _ => 0.0);
    optionDatesAsReal := seq(n, _ => 0.0);
    optionDates := optionDates[0 := ds.optionDateFromOptionTenor(optionTenors[0])];
    optionDatesAsReal := optionDatesAsReal[0 := optionDates[0] as real];
    optionTimes := optionTimes[0 := ds.timeFromReference(optionDates[0])];
    if !(0.0 < optionTimes[0]) {
      return optionDates, optionTimes, optionDatesAsReal, Some(0);
    }
    var i := 1;
    while i < n
      invariant 1 <= i <= n
      invariant |optionDates| == |optionTimes| == |optionDatesAsReal| == n
      invariant forall k | 0 <= k < i :: optionDates[k] == dates[k]
      invariant forall k | 0 <= k < i :: optionTimes[k] == times[k]
      invariant forall k | 0 <= k < i :: optionDatesAsReal[k] == dates[k] as real
      invariant forall k | 0 <= k < i :: InOrderAt(times, k)
    {
      optionDates := optionDates[i := ds.optionDateFromOptionTenor(optionTenors[i])];
      optionDatesAsReal := optionDatesAsReal[i := optionDates[i] as real];
      optionTimes := optionTimes[i := ds.timeFromReference(optionDates[i])];
      if !(optionTimes[i - 1] < optionTimes[i]) {
        return optionDates, optionTimes, optionDatesAsReal, Some(i);
      }
      i := i + 1;
    }
    assert optionDates == dates;
    assert optionTimes == times;
    assert optionDatesAsReal == SerialNumbers(dates);
    InOrderEverywhere(times);
    failedAt := None;
  }

  /** The second loop: swap lengths as year fractions from the first option date. */
  method FillSwapLengths(ds: DateServices, startDate: Date, swapTenors: seq<Period>)
    returns (swapLengths: seq<real>, failedAt: Option<nat>)
    requires |swapTenors| > 0
    ensures failedAt.Some? ==> FirstFailureAt(SwapLengthsOf(ds, startDate, swapTenors), failedAt.value)
    ensures failedAt.None? ==>
              swapLengths == SwapLengthsOf(ds, startDate, swapTenors) && PositiveIncreasing(swapLengths)
  {
    ghost var lengths := SwapLengthsOf(ds, startDate, swapTenors);
    var n := |swapTenors|;
    swapLengths := seq(n, _ => 0.0);
    swapLengths := swapLengths[0 := ds.yearFraction(startDate, ds.advance(startDate, swapTenors[0]))];
    if !(0.0 < swapLengths[0]) {
      return swapLengths, Some(0);
    }
    var i := 1;
    while i < n
      invariant 1 <= i <= n == |swapLengths|
      invariant forall k | 0 <= k < i :: swapLengths[k] == lengths[k]
      invariant forall k | 0 <= k < i :: InOrderAt(lengths, k)
    {
      swapLengths := swapLengths[i := ds.yearFraction(startDate, ds.advance(startDate, swapTenors[i]))];
      if !(swapLengths[i - 1] < swapLengths[i]) {
        return swapLengths, Some(i);
      }
      i := i + 1;
    }
    assert swapLengths == lengths;
    InOrderEverywhere(lengths);
    failedAt := None;
  }

  /** The strike-spread loop: the first spread not above its predecessor, if any. */
  method FirstNonIncreasingStrike(strikeSpreads: seq<real>) returns (failedAt: Option<nat>)
    ensures failedAt.None? <==> StrictlyIncreasing(strikeSpreads)
    ensures failedAt.Some? ==> FirstStrikeFailureAt(strikeSpreads, failedAt.value)
  {
    var i := 1;
    while i < |strikeSpreads|
      invariant 1 <= i <= |strikeSpreads| || (|strikeSpreads| == 0 && i == 1)
      invariant forall k | 1 <= k < i && k < |strikeSpreads| :: strikeSpreads[k - 1] < strikeSpreads[k]
    {
      if !(strikeSpreads[i - 1] < strikeSpreads[i]) {
        return Some(i);
      }
      i := i + 1;
    }
    failedAt := None;
  }

  /** The row-size loop: the first row of the quote matrix without nStrikes columns, if any. */
  method FirstColumnMismatch(volSpreads: seq<seq<real>>, nStrikes: nat) returns (failedAt: Option<nat>)
    ensures failedAt.None? <==> ColumnsOk(volSpreads, nStrikes)
    ensures failedAt.Some? ==> FirstColumnMismatchAt(volSpreads, nStrikes, failedAt.value)
  {
    var i := 0;
    while i < |volSpreads|
      invariant 0 <= i <= |volSpreads|
      invariant forall row | 0 <= row < i :: |volSpreads[row]| == nStrikes
    {
      if nStrikes != |volSpreads[i]| {
        return Some(i);
      }
      i := i + 1;
    }
    failedAt := None;
  }

  /** The constructor: fills the date, time and length vectors, checking as it goes,
      then checks the strike spreads and the shape of the quote matrix, and finally
      registers with every quote of the matrix.  `registrations` lists the cells
      registered with, in order (none when a check fails). */
  method Create(ds: DateServices, optionTenors: seq<Period>, swapTenors: seq<Period>,
                strikeSpreads: seq<real>, volSpreads: seq<seq<real>>, vegaWeightedSmileFit: bool)
    returns (r: Result<SwaptionVolatilityCube, CubeError>, registrations: seq<(nat, nat)>)
    requires |optionTenors| > 0 && |swapTenors| > 0
    ensures r.Success? <==> ShapeOk(ds, optionTenors, swapTenors, strikeSpreads, volSpreads)
    ensures r.Failure? ==> FirstViolation(r.error, ds, optionTenors, swapTenors, strikeSpreads, volSpreads)
    ensures r.Success? ==>
              var c := r.value;
              var dates := OptionDatesOf(ds, optionTenors);
              && c.Valid()
              && c.optionTenors == optionTenors && c.swapTenors == swapTenors
              && c.strikeSpreads == strikeSpreads && c.volSpreads == volSpreads
              && c.optionDates == dates
              && c.optionTimes == OptionTimesOf(ds, dates)
              && c.optionDatesAsReal == SerialNumbers(dates)
              && c.swapLengths == SwapLengthsOf(ds, dates[0], swapTenors)
              && c.vegaWeightedSmileFit == vegaWeightedSmileFit
    ensures r.Failure? ==> registrations == []
    ensures r.Success? ==> registrations == AllCells(|strikeSpreads|, |volSpreads|)
  {
    registrations := [];
    var optionDates, optionTimes, optionDatesAsReal, badOption := FillOptionTimes(ds, optionTenors);
    if badOption.Some? {
      r := Failure(if badOption.value == 0 then FirstOptionTimeNotPositive else NonIncreasingOptionTimes(badOption.value));
      ViolationRefutesShape(r.error, ds, optionTenors, swapTenors, strikeSpreads, volSpreads);
      return;
    }
    var swapLengths, badSwap := FillSwapLengths(ds, optionDates[0], swapTenors);
    if badSwap.Some? {
      r := Failure(if badSwap.value == 0 then FirstSwapLengthNotPositive else NonIncreasingSwapLengths(badSwap.value));
      ViolationRefutesShape(r.error, ds, optionTenors, swapTenors, strikeSpreads, volSpreads);
      return;
    }
    var nStrikes := |strikeSpreads|;
    if !(nStrikes > 1) {
      r := Failure(TooFewStrikes);
      ViolationRefutesShape(r.error, ds, optionTenors, swapTenors, strikeSpreads, volSpreads);
      return;
    }
    var badStrike := FirstNonIncreasingStrike(strikeSpreads);
    if badStrike.Some? {
      r := Failure(NonIncreasingStrikeSpreads(badStrike.value));
      ViolationRefutesShape(r.error, ds, optionTenors, swapTenors, strikeSpreads, volSpreads);
      return;
    }
    if |volSpreads| == 0 {
      r := Failure(EmptyVolSpreads);
      ViolationRefutesShape(r.error, ds, optionTenors, swapTenors, strikeSpreads, volSpreads);
      return;
    }
    var badRow := FirstColumnMismatch(volSpreads, nStrikes);
    if badRow.Some? {
      r := Failure(ColumnMismatch(badRow.value));
      ViolationRefutesShape(r.error, ds, optionTenors, swapTenors, strikeSpreads, volSpreads);
      return;
    }
    var nOptionTenors, nSwapTenors := |optionTenors|, |swapTenors|;
    if nOptionTenors * nSwapTenors != |volSpreads| {
      r := Failure(RowMismatch);
      ViolationRefutesShape(r.error, ds, optionTenors, swapTenors, strikeSpreads, volSpreads);
      return;
    }
    var localStrikes := seq(nStrikes, _ => 0.0);
    var localSmile := seq(nStrikes, _ => 0.0);
    r := Success(SwaptionVolatilityCube(
      optionTenors, optionDates, optionTimes, optionDatesAsReal,
      swapTenors, swapLengths, nOptionTenors, nSwapTenors, nStrikes,
      strikeSpreads, localStrikes, localSmile, volSpreads, vegaWeightedSmileFit));
    var quotes;
    registrations, quotes := RegisterWithVolatilitySpread(r.value);
  }

  // ---------------------------------------------------------------------------
  // Registration with every quote of the matrix
  // ---------------------------------------------------------------------------

  /** The row of the quote matrix for option tenor j and swap tenor k. */
  function FlatIndex(j: nat, k: nat, nSwapTenors: nat): nat {
    j * nSwapTenors + k
  }

  /** The option tenor and the swap tenor of row `row`: the inverse of FlatIndex. */
  function OptionIndexOf(row: nat, nSwapTenors: nat): nat
    requires nSwapTenors > 0
  {
    row / nSwapTenors
  }

  function SwapIndexOf(row: nat, nSwapTenors: nat): nat
    requires nSwapTenors > 0
  {
    row % nSwapTenors
  }

  lemma FlatIndexInRange(j: nat, k: nat, m: nat, n: nat)
    requires j < m && k < n
    ensures FlatIndex(j, k, n) < m * n
  {
    assert j * n + n == (j + 1) * n;
    assert (j + 1) * n <= m * n;
  }

  lemma MultipleBelow(a: nat, b: nat, n: nat)
    requires a < b
    ensures a * n + n <= b * n
  {
    assert a * n + n == (a + 1) * n;
    MultipleAtMost(a + 1, b, n);
  }

  lemma MultipleAtMost(a: nat, b: nat, n: nat)
    requires a <= b
    ensures a * n <= b * n
  {
  }

  lemma FlatIndexInverse(j: nat, k: nat, n: nat)
    requires k < n
    ensures OptionIndexOf(FlatIndex(j, k, n), n) == j && SwapIndexOf(FlatIndex(j, k, n), n) == k
  {
    var row := FlatIndex(j, k, n);
    var q, s := row / n, row % n;
    assert row == q * n + s && 0 <= s < n;
    if q < j {
      MultipleBelow(q, j, n);
      assert false;
    } else if j < q {
      MultipleBelow(j, q, n);
      assert false;
    }
  }

  /** (j, k) |-> j * n + k is a bijection from [0, m) x [0, n) onto [0, m * n), with
      (OptionIndexOf, SwapIndexOf) as its inverse: each row of the quote matrix belongs
      to exactly one (option tenor, swap tenor) pair. */
  lemma FlatIndexBijection(m: nat, n: nat)
    requires n > 0
    ensures forall j: nat, k: nat | j < m && k < n ::
              FlatIndex(j, k, n) < m * n
              && OptionIndexOf(FlatIndex(j, k, n), n) == j && SwapIndexOf(FlatIndex(j, k, n), n) == k
    ensures forall row: nat | row < m * n ::
              OptionIndexOf(row, n) < m && SwapIndexOf(row, n) < n
              && FlatIndex(OptionIndexOf(row, n), SwapIndexOf(row, n), n) == row
  {
    forall j: nat, k: nat | j < m && k < n
      ensures FlatIndex(j, k, n) < m * n
      ensures OptionIndexOf(FlatIndex(j, k, n), n) == j && SwapIndexOf(FlatIndex(j, k, n), n) == k
    {
      FlatIndexInRange(j, k, m, n);
      FlatIndexInverse(j, k, n);
    }
    forall row: nat | row < m * n
      ensures OptionIndexOf(row, n) < m && SwapIndexOf(row, n) < n
      ensures FlatIndex(OptionIndexOf(row, n), SwapIndexOf(row, n), n) == row
    {
      var j := row / n;
      if m <= j {
        MultipleAtMost(m, j, n);
        assert false;
      }
    }
  }

  /** The cells of column `col`, rows 0 to rows - 1 in order. */
  function ColumnCells(col: nat, rows: nat): (r: seq<(nat, nat)>)
    ensures |r| == rows && forall t | 0 <= t < rows :: r[t] == (t, col)
  {
    seq(rows, t requires 0 <= t < rows => (t, col))
  }

  /** The cells of the first `cols` columns, column by column. */
  function AllCells(cols: nat, rows: nat): seq<(nat, nat)> {
    if cols == 0 then [] else AllCells(cols - 1, rows) + ColumnCells(cols - 1, rows)
  }

  /** Walking the cells column by column visits every cell of the rows x cols block
      exactly once. */
  lemma {:induction false} AllCellsExactlyOnce(cols: nat, rows: nat)
    ensures |AllCells(cols, rows)| == cols * rows
    ensures forall row: nat, col: nat :: (row, col) in AllCells(cols, rows) <==> row < rows && col < cols
    ensures forall t1, t2 | 0 <= t1 < t2 < |AllCells(cols, rows)| :: AllCells(cols, rows)[t1] != AllCells(cols, rows)[t2]
  {
    if cols > 0 {
      AllCellsExactlyOnce(cols - 1, rows);
      var prev, last := AllCells(cols - 1, rows), ColumnCells(cols - 1, rows);
      var all := prev + last;
      assert |all| == (cols - 1) * rows + rows == cols * rows;
      forall row: nat, col: nat
        ensures (row, col) in all <==> row < rows && col < cols
      {
        if (row, col) in last {
          var t :| 0 <= t < |last| && last[t] == (row, col);
        }
        if row < rows && col == cols - 1 {
          assert last[row] == (row, col);
        }
      }
      forall t1, t2 | 0 <= t1 < t2 < |all|
        ensures all[t1] != all[t2]
      {
        if t2 >= |prev| && t1 < |prev| {
          assert all[t1] in prev;
          assert all[t2].1 == cols - 1;
        }
      }
    }
  }

  /** `registerWithVolatilitySpread()`: for each strike i, option tenor j and swap
      tenor k, registers with the quote in row j * nSwapTenors + k, column i.  Returns
      the cells visited and the quotes registered with, in order. */
  method RegisterWithVolatilitySpread(cube: SwaptionVolatilityCube)
    returns (visited: seq<(nat, nat)>, quotes: seq<real>)
    requires cube.Valid()
    ensures visited == AllCells(cube.nStrikes, |cube.volSpreads|)
    ensures |visited| == |quotes| == cube.nStrikes * |cube.volSpreads|
    ensures forall t | 0 <= t < |visited| ::
              visited[t].0 < |cube.volSpreads| && visited[t].1 < |cube.volSpreads[visited[t].0]|
              && quotes[t] == cube.volSpreads[visited[t].0][visited[t].1]
    ensures forall t1, t2 | 0 <= t1 < t2 < |visited| :: visited[t1] != visited[t2]
    ensures forall row: nat, col: nat | row < |cube.volSpreads| && col < cube.nStrikes :: (row, col) in visited
  {
    var nStrikes, nOptionTenors, nSwapTenors := cube.nStrikes, cube.nOptionTenors, cube.nSwapTenors;
    ghost var rows := |cube.volSpreads|;
    visited, quotes := [], [];
    for i := 0 to nStrikes
      invariant visited == AllCells(i, rows)
      invariant |quotes| == |visited|
      invariant forall t | 0 <= t < |visited| ::
                  visited[t].0 < rows && visited[t].1 < |cube.volSpreads[visited[t].0]|
                  && quotes[t] == cube.volSpreads[visited[t].0][visited[t].1]
    {
      ghost var done := visited;
      for j := 0 to nOptionTenors
        invariant visited == done + ColumnCells(i, FlatIndex(j, 0, nSwapTenors))
        invariant |quotes| == |visited|
        invariant forall t | 0 <= t < |visited| ::
                    visited[t].0 < rows && visited[t].1 < |cube.volSpreads[visited[t].0]|
                    && quotes[t] == cube.volSpreads[visited[t].0][visited[t].1]
      {
        for k := 0 to nSwapTenors
          invariant visited == done + ColumnCells(i, FlatIndex(j, k, nSwapTenors))
          invariant |quotes| == |visited|
          invariant forall t | 0 <= t < |visited| ::
                      visited[t].0 < rows && visited[t].1 < |cube.volSpreads[visited[t].0]|
                      && quotes[t] == cube.volSpreads[visited[t].0][visited[t].1]
        {
          var row := FlatIndex(j, k, nSwapTenors);
          FlatIndexInRange(j, k, nOptionTenors, nSwapTenors);
          quotes := quotes + [cube.volSpreads[row][i]];
          visited := visited + [(row, i)];
          assert ColumnCells(i, row) + [(row, i)] == ColumnCells(i, row + 1);
        }
        assert FlatIndex(j, nSwapTenors, nSwapTenors) == FlatIndex(j + 1, 0, nSwapTenors);
      }
      assert FlatIndex(nOptionTenors, 0, nSwapTenors) == rows;
    }
    AllCellsExactlyOnce(nStrikes, rows);
  }
}
