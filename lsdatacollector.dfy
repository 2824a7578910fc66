/**
 * Collection of node data for Longstaff-Schwartz regression: every path of a market
 * model simulation is stepped until the product is done; at each exercise time the
 * rebate (exercise) value, the basis-system values and the control value are
 * recorded in the node of the next exercise, and the product's cash flows are
 * accumulated in the node of the most recent exercise (node 0 before the first one).
 * All amounts are expressed in units of the numeraire portfolio, whose principal
 * starts at 1 and is rescaled by a discount ratio after every step but the last.
 *
 * collectedData has one row per rebate time plus one, and one column per path:
 * collectedData[r][p] is node r of path p.
 *
 * The evolver, the product, the rebate, the control, the data provider and the
 * discounters are external collaborators; what they produce on a path is given as a
 * trace of `StepOutcome`s, one per evolution step taken.
 */
module LongstaffSchwartz {
  import opened Results

  datatype NodeData = NodeData(
    exerciseValue: real,
    values: seq<real>,
    controlValue: real,
    cumulatedCashFlows: real,
    isValid: bool)

  /** What the collaborators produce at one evolution step of one path.  The rebate and
      control values and the cash-flow amounts are already multiplied by their
      discounters' numeraire bonds; `discountRatio` is the curve state's ratio between
      this step's numeraire and the next one. */
  datatype StepOutcome = StepOutcome(
    rebateValue: real,
    basisValues: seq<real>,
    controlValue: real,
    productDone: bool,
    cashFlows: seq<real>,
    discountRatio: real)

  datatype CollectorError = NotSingleProduct

  // ---------------------------------------------------------------------------
  // Counting and the exercise mask
  // ---------------------------------------------------------------------------

  function CountTrue(b: seq<bool>): (n: nat)
    ensures n <= |b|
  {
    if |b| == 0 then 0 else CountTrue(b[..|b| - 1]) + (if b[|b| - 1] then 1 else 0)
  }

  lemma CountTrueStep(b: seq<bool>, k: nat)
    requires k < |b|
    ensures CountTrue(b[..k + 1]) == CountTrue(b[..k]) + (if b[k] then 1 else 0)
  {
    assert b[..k + 1][..k] == b[..k];
  }

  lemma {:induction false} CountTrueMonotone(b: seq<bool>, j: nat, k: nat)
    requires j <= k <= |b|
    ensures CountTrue(b[..j]) <= CountTrue(b[..k])
    decreases k - j
  {
    if j < k {
      CountTrueStep(b, k - 1);
      CountTrueMonotone(b, j, k - 1);
    }
  }

  /** isExerciseTime: false at a step that is not a rebate time; at the n-th rebate time
      the rebate's n-th exercise flag. */
  function ExerciseMask(isRebateTime: seq<bool>, v: seq<bool>): (mask: seq<bool>)
    requires CountTrue(isRebateTime) <= |v|
    ensures |mask| == |isRebateTime|
    ensures forall k | 0 <= k <= |mask| :: CountTrue(mask[..k]) <= CountTrue(isRebateTime[..k]) <= CountTrue(isRebateTime)
  {
    var mask := seq(|isRebateTime|, i requires 0 <= i < |isRebateTime| =>
      isRebateTime[i] && (RebateIndexInRange(isRebateTime, v, i); v[CountTrue(isRebateTime[..i])]));
    SubMaskCount(mask, isRebateTime);
    mask
  }

  /** A mask that is set only where another is set has no more set entries in any prefix. */
  lemma SubMaskCount(mask: seq<bool>, b: seq<bool>)
    requires |mask| == |b| && forall i | 0 <= i < |b| :: mask[i] ==> b[i]
    ensures forall k | 0 <= k <= |mask| :: CountTrue(mask[..k]) <= CountTrue(b[..k]) <= CountTrue(b)
  {
    forall k | 0 <= k <= |mask|
      ensures CountTrue(mask[..k]) <= CountTrue(b[..k]) <= CountTrue(b)
    {
      SubMaskPrefix(mask, b, k);
      CountTrueMonotone(b, k, |b|);
      assert b[..|b|] == b;
    }
  }

  lemma {:induction false} SubMaskPrefix(mask: seq<bool>, b: seq<bool>, k: nat)
    requires |mask| == |b| && k <= |b| && forall i | 0 <= i < |b| :: mask[i] ==> b[i]
    ensures CountTrue(mask[..k]) <= CountTrue(b[..k])
  {
    if k > 0 {
      SubMaskPrefix(mask, b, k - 1);
      CountTrueStep(mask, k - 1);
      CountTrueStep(b, k - 1);
    }
  }

  lemma RebateIndexInRange(isRebateTime: seq<bool>, v: seq<bool>, i: nat)
    requires CountTrue(isRebateTime) <= |v| && i < |isRebateTime| && isRebateTime[i]
    ensures CountTrue(isRebateTime[..i]) < |v|
  {
    CountTrueStep(isRebateTime, i);
    CountTrueMonotone(isRebateTime, i + 1, |isRebateTime|);
    assert isRebateTime[..|isRebateTime|] == isRebateTime;
  }

  /** The loop building isExerciseTime; `exercises` counts the rebate times. */
  method BuildExerciseMask(isRebateTime: seq<bool>, v: seq<bool>) returns (isExerciseTime: seq<bool>, exercises: nat)
    requires CountTrue(isRebateTime) <= |v|
    ensures exercises == CountTrue(isRebateTime)
    ensures |isExerciseTime| == |isRebateTime|
    ensures forall i | 0 <= i < |isRebateTime| && !isRebateTime[i] :: !isExerciseTime[i]
    ensures forall i | 0 <= i < |isRebateTime| && isRebateTime[i] ::
              CountTrue(isRebateTime[..i]) < |v| && isExerciseTime[i] == v[CountTrue(isRebateTime[..i])]
    ensures isExerciseTime == ExerciseMask(isRebateTime, v)
  {
    isExerciseTime := seq(|isRebateTime|, _ => false);
    exercises := 0;
    for i := 0 to |isRebateTime|
      invariant |isExerciseTime| == |isRebateTime|
      invariant exercises == CountTrue(isRebateTime[..i])
      invariant forall k | 0 <= k < i :: isExerciseTime[k] == ExerciseMask(isRebateTime, v)[k]
      invariant forall k | i <= k < |isRebateTime| :: !isExerciseTime[k]
    {
      CountTrueStep(isRebateTime, i);
      if isRebateTime[i] {
        RebateIndexInRange(isRebateTime, v, i);
        isExerciseTime := isExerciseTime[i := v[exercises]];
        exercises := exercises + 1;
      }
    }
    assert isRebateTime[..|isRebateTime|] == isRebateTime;
    forall i | 0 <= i < |isRebateTime| && isRebateTime[i]
      ensures CountTrue(isRebateTime[..i]) < |v|
    {
      RebateIndexInRange(isRebateTime, v, i);
    }
  }

  // ---------------------------------------------------------------------------
  // One path, step by step
  // ---------------------------------------------------------------------------

  /** The state of the path loop: the exercise cursor, the principal of the numeraire
      portfolio and the column of nodes of this path. */
  datatype Walk = Walk(nextExercise: nat, principal: real, column: seq<NodeData>)

  predicate PositiveRatios(trace: seq<StepOutcome>) {
    forall s | 0 <= s < |trace| :: trace[s].discountRatio > 0.0
  }

  /** The product reports that it is done at step s. */
  predicate StopsAt(trace: seq<StepOutcome>, isProductTime: seq<bool>, s: nat)
    requires s < |trace| && s < |isProductTime|
  {
    isProductTime[s] && trace[s].productDone
  }

  predicate NoStopBefore(trace: seq<StepOutcome>, isProductTime: seq<bool>, n: nat)
    requires n <= |trace| <= |isProductTime|
  {
    forall s | 0 <= s < n :: !StopsAt(trace, isProductTime, s)
  }

  /** `trace` is the record of one path: the product is done at its last step and not
      before, it takes no more steps than there are evolution times, and every discount
      ratio is positive. */
  predicate WellFormedPath(trace: seq<StepOutcome>, isProductTime: seq<bool>) {
    && 0 < |trace| <= |isProductTime|
    && StopsAt(trace, isProductTime, |trace| - 1)
    && NoStopBefore(trace, isProductTime, |trace| - 1)
    && PositiveRatios(trace)
  }

  /** Sum of the amounts, each divided by the principal. */
  function DiscountedSum(flows: seq<real>, principal: real): real
    requires principal != 0.0
  {
    if |flows| == 0 then 0.0 else DiscountedSum(flows[..|flows| - 1], principal) + flows[|flows| - 1] / principal
  }

  /** The node written at an exercise step (every field is overwritten). */
  function ExerciseNode(node: NodeData, step: StepOutcome, principal: real): NodeData
    requires principal > 0.0
  {
    node.(exerciseValue := step.rebateValue / principal,
          values := step.basisValues,
          controlValue := step.controlValue / principal,
          cumulatedCashFlows := 0.0,
          isValid := true)
  }

  function WithCashFlows(node: NodeData, flows: seq<real>, principal: real): NodeData
    requires principal > 0.0
  {
    node.(cumulatedCashFlows := node.cumulatedCashFlows + DiscountedSum(flows, principal))
  }

  function ExerciseUpdate(w: Walk, step: StepOutcome): Walk
    requires w.principal > 0.0 && w.nextExercise + 1 < |w.column|
  {
    Walk(w.nextExercise + 1, w.principal,
         w.column[w.nextExercise + 1 := ExerciseNode(w.column[w.nextExercise + 1], step, w.principal)])
  }

  function CashFlowUpdate(w: Walk, step: StepOutcome): Walk
    requires w.principal > 0.0 && w.nextExercise < |w.column|
  {
    w.(column := w.column[w.nextExercise := WithCashFlows(w.column[w.nextExercise], step.cashFlows, w.principal)])
  }

  /** One pass of the do-while body: record the exercise node, route the product's cash
      flows to the cursor's node, rescale the principal unless the product is done. */
  function Advance(w: Walk, step: StepOutcome, isExercise: bool, isProduct: bool): (r: Walk)
    requires w.principal > 0.0 && step.discountRatio > 0.0
    requires w.nextExercise + (if isExercise then 1 else 0) < |w.column|
    ensures |r.column| == |w.column| && r.principal > 0.0
    ensures r.nextExercise == w.nextExercise + (if isExercise then 1 else 0)
  {
    var afterExercise := if isExercise then ExerciseUpdate(w, step) else w;
    var afterFlows := if isProduct then CashFlowUpdate(afterExercise, step) else afterExercise;
    if isProduct && step.productDone then afterFlows
    else afterFlows.(principal := afterFlows.principal * step.discountRatio)
  }

  /** One step changes only the node under the (advanced) cursor: a new exercise node
      when it is an exercise step, plus the step's cash flows when it is a product step. */
  lemma AdvanceFacts(w: Walk, step: StepOutcome, isExercise: bool, isProduct: bool)
    requires w.principal > 0.0 && step.discountRatio > 0.0
    requires w.nextExercise + (if isExercise then 1 else 0) < |w.column|
    ensures var a := Advance(w, step, isExercise, isProduct);
            var cursor := a.nextExercise;
            var node := if isExercise then ExerciseNode(w.column[cursor], step, w.principal) else w.column[cursor];
            && a.principal == (if isProduct && step.productDone then w.principal else w.principal * step.discountRatio)
            && (forall r | 0 <= r < |w.column| && r != cursor :: a.column[r] == w.column[r])
            && a.column[cursor] == (if isProduct then WithCashFlows(node, step.cashFlows, w.principal) else node)
  {
  }

  /** The principal after one step: rescaled by the step's discount ratio unless the
      product is done at that step. */
  lemma AdvancePrincipal(w: Walk, step: StepOutcome, isExercise: bool, isProduct: bool)
    requires w.principal > 0.0 && step.discountRatio > 0.0
    requires w.nextExercise + (if isExercise then 1 else 0) < |w.column|
    ensures Advance(w, step, isExercise, isProduct).principal
            == if isProduct && step.productDone then w.principal else w.principal * step.discountRatio
  {
  }

  ghost predicate RunOk(trace: seq<StepOutcome>, mask: seq<bool>, isProductTime: seq<bool>,
                        column0: seq<NodeData>, k: nat) {
    && k <= |trace| <= |mask| && |mask| == |isProductTime|
    && PositiveRatios(trace)
    && CountTrue(mask[..k]) < |column0|
  }

  /** The path state after the first k steps, from column0 with the cursor at 0 and the
      principal at 1. */
  function Run(trace: seq<StepOutcome>, mask: seq<bool>, isProductTime: seq<bool>, k: nat,
               column0: seq<NodeData>): (w: Walk)
    requires RunOk(trace, mask, isProductTime, column0, k)
    ensures w.nextExercise == CountTrue(mask[..k]) && |w.column| == |column0| && w.principal > 0.0
    decreases k
  {
    if k == 0 then Walk(0, 1.0, column0)
    else
      CountTrueStep(mask, k - 1);
      Advance(Run(trace, mask, isProductTime, k - 1, column0), trace[k - 1], mask[k - 1], isProductTime[k - 1])
  }

  lemma RunOkPrefix(trace: seq<StepOutcome>, mask: seq<bool>, isProductTime: seq<bool>,
                    column0: seq<NodeData>, j: nat, k: nat)
    requires RunOk(trace, mask, isProductTime, column0, k) && j <= k
    ensures RunOk(trace, mask, isProductTime, column0, j)
  {
    CountTrueMonotone(mask, j, k);
  }

  /** Product of the first k discount ratios. */
  function RatioProduct(trace: seq<StepOutcome>, k: nat): (p: real)
    requires k <= |trace| && PositiveRatios(trace)
    ensures p > 0.0
  {
    if k == 0 then 1.0 else RatioProduct(trace, k - 1) * trace[k - 1].discountRatio
  }

  /** While the product is not done the principal is the product of the discount ratios
      of the steps taken. */
  lemma {:induction false} RunPrincipal(trace: seq<StepOutcome>, mask: seq<bool>, isProductTime: seq<bool>,
                                        column0: seq<NodeData>, k: nat)
    requires RunOk(trace, mask, isProductTime, column0, k) && k < |trace|
    requires NoStopBefore(trace, isProductTime, k)
    ensures Run(trace, mask, isProductTime, k, column0).principal == RatioProduct(trace, k)
  {
    if k > 0 {
      RunOkPrefix(trace, mask, isProductTime, column0, k - 1, k);
      RunPrincipal(trace, mask, isProductTime, column0, k - 1);
      CountTrueStep(mask, k - 1);
      assert !StopsAt(trace, isProductTime, k - 1);
      var prev := Run(trace, mask, isProductTime, k - 1, column0);
      assert Run(trace, mask, isProductTime, k, column0) == Advance(prev, trace[k - 1], mask[k - 1], isProductTime[k - 1]);
      AdvancePrincipal(prev, trace[k - 1], mask[k - 1], isProductTime[k - 1]);
    }
  }

  /** The principal is not rescaled on the step where the product is done: after it,
      the principal is the product of the discount ratios of the steps before it. */
  lemma PrincipalAtStop(trace: seq<StepOutcome>, mask: seq<bool>, isProductTime: seq<bool>,
                        column0: seq<NodeData>, k: nat)
    requires RunOk(trace, mask, isProductTime, column0, k) && 0 < k
    requires StopsAt(trace, isProductTime, k - 1) && NoStopBefore(trace, isProductTime, k - 1)
    ensures Run(trace, mask, isProductTime, k, column0).principal == RatioProduct(trace, k - 1)
  {
    RunOkPrefix(trace, mask, isProductTime, column0, k - 1, k);
    RunPrincipal(trace, mask, isProductTime, column0, k - 1);
    CountTrueStep(mask, k - 1);
    var prev := Run(trace, mask, isProductTime, k - 1, column0);
    assert Run(trace, mask, isProductTime, k, column0) == Advance(prev, trace[k - 1], mask[k - 1], isProductTime[k - 1]);
    AdvancePrincipal(prev, trace[k - 1], mask[k - 1], isProductTime[k - 1]);
  }

  // ---------------------------------------------------------------------------
  // Where each cash flow goes
  // ---------------------------------------------------------------------------

  /** The discounted product cash flows of the first k steps that belong to node r: those
      of a product step s after which exactly r exercises have happened. */
  function Ledger(trace: seq<StepOutcome>, mask: seq<bool>, isProductTime: seq<bool>, r: nat, k: nat): real
    requires k <= |trace| <= |mask| && |mask| == |isProductTime| && PositiveRatios(trace)
  {
    if k == 0 then 0.0
    else
      Ledger(trace, mask, isProductTime, r, k - 1)
      + (if isProductTime[k - 1] && CountTrue(mask[..k]) == r
         then DiscountedSum(trace[k - 1].cashFlows, RatioProduct(trace, k - 1))
         else 0.0)
  }

  /** No cash flow has been routed to a node beyond the cursor. */
  lemma {:induction false} LedgerBeyondCursor(trace: seq<StepOutcome>, mask: seq<bool>, isProductTime: seq<bool>,
                                              r: nat, k: nat)
    requires k <= |trace| <= |mask| && |mask| == |isProductTime| && PositiveRatios(trace)
    requires r > CountTrue(mask[..k])
    ensures Ledger(trace, mask, isProductTime, r, k) == 0.0
  {
    if k > 0 {
      CountTrueStep(mask, k - 1);
      LedgerBeyondCursor(trace, mask, isProductTime, r, k - 1);
    }
  }

  /** The nodes beyond the cursor are untouched. */
  lemma {:induction false} RunUntouched(trace: seq<StepOutcome>, mask: seq<bool>, isProductTime: seq<bool>,
                                        column0: seq<NodeData>, k: nat)
    requires RunOk(trace, mask, isProductTime, column0, k)
    ensures var w := Run(trace, mask, isProductTime, k, column0);
            forall r | w.nextExercise < r < |column0| :: w.column[r] == column0[r]
  {
    if k > 0 {
      RunOkPrefix(trace, mask, isProductTime, column0, k - 1, k);
      RunUntouched(trace, mask, isProductTime, column0, k - 1);
      CountTrueStep(mask, k - 1);
      AdvanceFacts(Run(trace, mask, isProductTime, k - 1, column0), trace[k - 1], mask[k - 1], isProductTime[k - 1]);
    }
  }

  /** Node 0 differs from its initial value only by the cash flows routed to it. */
  lemma {:induction false} RunFirstNode(trace: seq<StepOutcome>, mask: seq<bool>, isProductTime: seq<bool>,
                                        column0: seq<NodeData>, k: nat)
    requires RunOk(trace, mask, isProductTime, column0, k)
    requires k == 0 || (k - 1 < |trace| && NoStopBefore(trace, isProductTime, k - 1))
    ensures Run(trace, mask, isProductTime, k, column0).column[0]
            == column0[0].(cumulatedCashFlows := column0[0].cumulatedCashFlows + Ledger(trace, mask, isProductTime, 0, k))
  {
    if k > 0 {
      RunOkPrefix(trace, mask, isProductTime, column0, k - 1, k);
      RunFirstNode(trace, mask, isProductTime, column0, k - 1);
      RunPrincipal(trace, mask, isProductTime, column0, k - 1);
      CountTrueStep(mask, k - 1);
      AdvanceFacts(Run(trace, mask, isProductTime, k - 1, column0), trace[k - 1], mask[k - 1], isProductTime[k - 1]);
    }
  }

  /** Nodes 1 .. cursor are valid and hold exactly the cash flows routed to them since
      their exercise. */
  lemma {:induction false} RunExercisedNodes(trace: seq<StepOutcome>, mask: seq<bool>, isProductTime: seq<bool>,
                                             column0: seq<NodeData>, k: nat)
    requires RunOk(trace, mask, isProductTime, column0, k)
    requires k == 0 || (k - 1 < |trace| && NoStopBefore(trace, isProductTime, k - 1))
    ensures var w := Run(trace, mask, isProductTime, k, column0);
            forall r | 1 <= r <= w.nextExercise ::
              w.column[r].isValid && w.column[r].cumulatedCashFlows == Ledger(trace, mask, isProductTime, r, k)
  {
    if k > 0 {
      RunOkPrefix(trace, mask, isProductTime, column0, k - 1, k);
      RunExercisedNodes(trace, mask, isProductTime, column0, k - 1);
      RunPrincipal(trace, mask, isProductTime, column0, k - 1);
      CountTrueStep(mask, k - 1);
      var prev := Run(trace, mask, isProductTime, k - 1, column0);
      AdvanceFacts(prev, trace[k - 1], mask[k - 1], isProductTime[k - 1]);
      var cursor := Run(trace, mask, isProductTime, k, column0).nextExercise;
      if mask[k - 1] {
        LedgerBeyondCursor(trace, mask, isProductTime, cursor, k - 1);
      }
    }
  }

  /** The exercise value and control value recorded at an exercise step are the
      collaborators' values divided by the principal of that step, with the basis values
      alongside; they are recorded in node (number of exercises so far, this one
      included) and are never overwritten later on the path. */
  ghost predicate ExerciseRecorded(node: NodeData, step: StepOutcome, principal: real)
    requires principal > 0.0
  {
    && node.exerciseValue == step.rebateValue / principal
    && node.controlValue == step.controlValue / principal
    && node.values == step.basisValues
    && node.isValid
  }

  lemma {:induction false} RunExerciseNodes(trace: seq<StepOutcome>, mask: seq<bool>, isProductTime: seq<bool>,
                                            column0: seq<NodeData>, k: nat)
    requires RunOk(trace, mask, isProductTime, column0, k)
    requires k == 0 || (k - 1 < |trace| && NoStopBefore(trace, isProductTime, k - 1))
    ensures var w := Run(trace, mask, isProductTime, k, column0);
            forall s | 0 <= s < k && mask[s] ::
              var r := CountTrue(mask[..s + 1]);
              1 <= r <= w.nextExercise && ExerciseRecorded(w.column[r], trace[s], RatioProduct(trace, s))
  {
    if k > 0 {
      RunOkPrefix(trace, mask, isProductTime, column0, k - 1, k);
      RunExerciseNodes(trace, mask, isProductTime, column0, k - 1);
      RunPrincipal(trace, mask, isProductTime, column0, k - 1);
      CountTrueStep(mask, k - 1);
      var prev := Run(trace, mask, isProductTime, k - 1, column0);
      var next := Run(trace, mask, isProductTime, k, column0);
      assert next == Advance(prev, trace[k - 1], mask[k - 1], isProductTime[k - 1]);
      AdvanceFacts(prev, trace[k - 1], mask[k - 1], isProductTime[k - 1]);
      forall s | 0 <= s < k && mask[s]
        ensures var r := CountTrue(mask[..s + 1]);
                1 <= r <= next.nextExercise && ExerciseRecorded(next.column[r], trace[s], RatioProduct(trace, s))
      {
        if s < k - 1 {
          CountTrueMonotone(mask, s + 1, k - 1);
          var r := CountTrue(mask[..s + 1]);
          RecordSurvivesStep(prev.column[r], next.column[r], trace[s], RatioProduct(trace, s),
                             trace[k - 1].cashFlows, prev.principal);
        }
      }
    }
  }

  /** A later step leaves an exercise record intact: it either does not touch the node
      or only adds cash flows to it. */
  lemma RecordSurvivesStep(before: NodeData, after: NodeData, step: StepOutcome, principal: real,
                           flows: seq<real>, flowPrincipal: real)
    requires principal > 0.0 && flowPrincipal > 0.0
    requires after == before || after == WithCashFlows(before, flows, flowPrincipal)
    requires ExerciseRecorded(before, step, principal)
    ensures ExerciseRecorded(after, step, principal)
  {
  }

  // ---------------------------------------------------------------------------
  // Null fill and the final column of a path
  // ---------------------------------------------------------------------------

  function Nulled(node: NodeData): NodeData {
    node.(exerciseValue := 0.0, controlValue := 0.0, cumulatedCashFlows := 0.0, isValid := false)
  }

  /** The nodes past the cursor, up to row `upTo`, nulled. */
  function NullFill(column: seq<NodeData>, nextExercise: nat, upTo: nat): (c: seq<NodeData>)
    ensures |c| == |column|
  {
    seq(|column|, r requires 0 <= r < |column| => if nextExercise < r <= upTo then Nulled(column[r]) else column[r])
  }

  /** Column p of the data as the path loop starts: node 0's cumulated cash flows
      cleared. */
  function InitialColumn(column: seq<NodeData>): seq<NodeData>
    requires |column| > 0
  {
    column[0 := column[0].(cumulatedCashFlows := 0.0)]
  }

  /** The nodes of a path once its loop and its null fill are over. */
  function FinalColumn(trace: seq<StepOutcome>, mask: seq<bool>, isProductTime: seq<bool>,
                       column0: seq<NodeData>): (c: seq<NodeData>)
    requires WellFormedPath(trace, isProductTime) && |mask| == |isProductTime|
    requires CountTrue(mask[..|trace|]) < |column0|
    ensures |c| == |column0|
  {
    var w := Run(trace, mask, isProductTime, |trace|, column0);
    NullFill(w.column, w.nextExercise, |column0| - 1)
  }

  /** What a path leaves in its column: node r (r >= 1) is valid exactly when the path
      passed at least r exercise steps; a valid node holds the values recorded at its
      exercise and the cash flows routed to it afterwards; an invalid one has zero
      exercise value, control value and cash flows; node 0 holds the cash flows before
      the first exercise. */
  lemma FinalColumnContents(trace: seq<StepOutcome>, mask: seq<bool>, isProductTime: seq<bool>,
                            column0: seq<NodeData>)
    requires WellFormedPath(trace, isProductTime) && |mask| == |isProductTime|
    requires CountTrue(mask[..|trace|]) < |column0|
    ensures var c := FinalColumn(trace, mask, isProductTime, column0);
            var visits := CountTrue(mask[..|trace|]);
            && c[0] == column0[0].(cumulatedCashFlows := column0[0].cumulatedCashFlows
                                                         + Ledger(trace, mask, isProductTime, 0, |trace|))
            && (forall r | 1 <= r < |c| :: c[r].isValid <==> r <= visits)
            && (forall r | 1 <= r <= visits :: c[r].cumulatedCashFlows == Ledger(trace, mask, isProductTime, r, |trace|))
            && (forall r | visits < r < |c| :: c[r] == Nulled(column0[r]))
            && (forall s | 0 <= s < |trace| && mask[s] ::
                  var r := CountTrue(mask[..s + 1]);
                  1 <= r <= visits && ExerciseRecorded(c[r], trace[s], RatioProduct(trace, s)))
  {
    var k := |trace|;
    RunUntouched(trace, mask, isProductTime, column0, k);
    RunFirstNode(trace, mask, isProductTime, column0, k);
    RunExercisedNodes(trace, mask, isProductTime, column0, k);
    RunExerciseNodes(trace, mask, isProductTime, column0, k);
  }

  // ---------------------------------------------------------------------------
  // The data as a matrix of rows (nodes) by columns (paths)
  // ---------------------------------------------------------------------------

  predicate HasColumn(data: seq<seq<NodeData>>, p: nat) {
    forall r | 0 <= r < |data| :: p < |data[r]|
  }

  function Column(data: seq<seq<NodeData>>, p: nat): (c: seq<NodeData>)
    requires HasColumn(data, p)
    ensures |c| == |data| && forall r | 0 <= r < |data| :: c[r] == data[r][p]
  {
    seq(|data|, r requires 0 <= r < |data| => data[r][p])
  }

  function SetColumn(data: seq<seq<NodeData>>, p: nat, column: seq<NodeData>): (d: seq<seq<NodeData>>)
    requires HasColumn(data, p) && |column| == |data|
    ensures |d| == |data| && HasColumn(d, p)
    ensures forall r | 0 <= r < |data| :: |d[r]| == |data[r]| && d[r][p] == column[r]
    ensures forall r, q | 0 <= r < |data| && 0 <= q < |data[r]| && q != p :: d[r][q] == data[r][q]
  {
    seq(|data|, r requires 0 <= r < |data| => data[r][p := column[r]])
  }

  /** Writing one node of a column is writing that column. */
  lemma WriteNode(data: seq<seq<NodeData>>, p: nat, column: seq<NodeData>, r: nat, node: NodeData)
    requires HasColumn(data, p) && |column| == |data| && r < |data|
    ensures var d := SetColumn(data, p, column);
            d[r := d[r][p := node]] == SetColumn(data, p, column[r := node])
  {
    var d := SetColumn(data, p, column);
    var lhs, rhs := d[r := d[r][p := node]], SetColumn(data, p, column[r := node]);
    forall r' | 0 <= r' < |data|
      ensures lhs[r'] == rhs[r']
    {
      if r' == r {
        assert lhs[r'] == data[r][p := node];
      }
    }
  }

  lemma SetOwnColumn(data: seq<seq<NodeData>>, p: nat)
    requires HasColumn(data, p)
    ensures SetColumn(data, p, Column(data, p)) == data
  {
    var d := SetColumn(data, p, Column(data, p));
    forall r | 0 <= r < |data|
      ensures d[r] == data[r]
    {
    }
  }

  lemma SetColumnTwice(data: seq<seq<NodeData>>, p: nat, c1: seq<NodeData>, c2: seq<NodeData>)
    requires HasColumn(data, p) && |c1| == |data| == |c2|
    ensures SetColumn(SetColumn(data, p, c1), p, c2) == SetColumn(data, p, c2)
    ensures Column(SetColumn(data, p, c1), p) == c1
  {
    var lhs, rhs := SetColumn(SetColumn(data, p, c1), p, c2), SetColumn(data, p, c2);
    forall r | 0 <= r < |data|
      ensures lhs[r] == rhs[r]
    {
    }
  }

  /** std::vector::resize on the rows and on each row: existing nodes are kept, new ones
      are copies of `blank`. */
  function Resized(data: seq<seq<NodeData>>, rows: nat, columns: nat, blank: NodeData): (d: seq<seq<NodeData>>)
    ensures |d| == rows && forall r | 0 <= r < rows :: |d[r]| == columns
  {
    seq(rows, r requires 0 <= r < rows =>
      seq(columns, q requires 0 <= q < columns =>
        if r < |data| && q < |data[r]| then data[r][q] else blank))
  }

  // ---------------------------------------------------------------------------
  // The loops of collectNodeData
  // ---------------------------------------------------------------------------

  /** The layout loop: exercises + 1 rows of numberOfPaths nodes. */
  method ResizeCollectedData(collectedData: seq<seq<NodeData>>, rows: nat, numberOfPaths: nat, blank: NodeData)
    returns (data: seq<seq<NodeData>>)
    ensures data == Resized(collectedData, rows, numberOfPaths, blank)
  {
    data := seq(rows, r requires 0 <= r < rows => if r < |collectedData| then collectedData[r] else []);
    for r := 0 to rows
      invariant |data| == rows
      invariant forall r' | 0 <= r' < r :: data[r'] == Resized(collectedData, rows, numberOfPaths, blank)[r']
      invariant forall r' | r <= r' < rows :: data[r'] == if r' < |collectedData| then collectedData[r'] else []
    {
      var row := data[r];
      var resizedRow := seq(numberOfPaths, q requires 0 <= q < numberOfPaths => if q < |row| then row[q] else blank);
      data := data[r := resizedRow];
    }
  }

  /** Node (row, p) with `amount` added to its cumulated cash flows. */
  function AddToNode(data: seq<seq<NodeData>>, row: nat, p: nat, amount: real): seq<seq<NodeData>>
    requires row < |data| && p < |data[row]|
  {
    data[row := data[row][p := data[row][p].(cumulatedCashFlows := data[row][p].cumulatedCashFlows + amount)]]
  }

  lemma AddToNodeTwice(data: seq<seq<NodeData>>, row: nat, p: nat, x: real, y: real)
    requires row < |data| && p < |data[row]|
    ensures AddToNode(AddToNode(data, row, p, x), row, p, y) == AddToNode(data, row, p, x + y)
  {
    var once: seq<seq<NodeData>> := AddToNode(data, row, p, x);
    assert once[row][p := once[row][p].(cumulatedCashFlows := once[row][p].cumulatedCashFlows + y)]
        == data[row][p := data[row][p].(cumulatedCashFlows := data[row][p].cumulatedCashFlows + (x + y))];
  }

  /** The cash-flow loop of a product step: each amount, divided by the principal, is
      added to node `row` of path p. */
  method AddCashFlows(data: seq<seq<NodeData>>, row: nat, p: nat, flows: seq<real>, principal: real)
    returns (result: seq<seq<NodeData>>)
    requires row < |data| && HasColumn(data, p) && principal > 0.0
    ensures result == data[row := data[row][p := WithCashFlows(data[row][p], flows, principal)]]
  {
    result := data;
    assert AddToNode(data, row, p, 0.0) == data by {
      assert data[row][p].(cumulatedCashFlows := data[row][p].cumulatedCashFlows + 0.0) == data[row][p];
      assert data[row][p := data[row][p]] == data[row];
    }
    for j := 0 to |flows|
      invariant result == AddToNode(data, row, p, DiscountedSum(flows[..j], principal))
    {
      assert flows[..j + 1][..j] == flows[..j];
      AddToNodeTwice(data, row, p, DiscountedSum(flows[..j], principal), flows[j] / principal);
      result := result[row := result[row][p := result[row][p].(cumulatedCashFlows :=
                  result[row][p].cumulatedCashFlows + flows[j] / principal)]];
    }
    assert flows[..|flows|] == flows;
  }

  /** One pass of the do-while body on column p of the data. */
  method StepPath(ghost data0: seq<seq<NodeData>>, p: nat, ghost w: Walk, step: StepOutcome,
                  isExercise: bool, isProduct: bool, data: seq<seq<NodeData>>, nextExercise: nat,
                  principal: real, done: bool)
    returns (data': seq<seq<NodeData>>, nextExercise': nat, principal': real, done': bool)
    requires HasColumn(data0, p) && |w.column| == |data0| && !done
    requires w.principal > 0.0 && step.discountRatio > 0.0
    requires w.nextExercise + (if isExercise then 1 else 0) < |w.column|
    requires data == SetColumn(data0, p, w.column) && nextExercise == w.nextExercise && principal == w.principal
    ensures var next := Advance(w, step, isExercise, isProduct);
            data' == SetColumn(data0, p, next.column) && nextExercise' == next.nextExercise && principal' == next.principal
    ensures done' == (isProduct && step.productDone)
  {
    AdvanceFacts(w, step, isExercise, isProduct);
    data', nextExercise', principal', done' := data, nextExercise, principal, done;
    ghost var afterExercise := w;
    if isExercise {
      afterExercise := ExerciseUpdate(w, step);
      WriteNode(data0, p, w.column, nextExercise' + 1, ExerciseNode(w.column[nextExercise' + 1], step, principal'));
      data' := data'[nextExercise' + 1 := data'[nextExercise' + 1][p := data'[nextExercise' + 1][p].(
                 exerciseValue := step.rebateValue / principal',
                 values := step.basisValues,
                 controlValue := step.controlValue / principal',
                 cumulatedCashFlows := 0.0,
                 isValid := true)]];
      nextExercise' := nextExercise' + 1;
    }
    if isProduct {
      done' := step.productDone;
      WriteNode(data0, p, afterExercise.column, nextExercise',
                WithCashFlows(afterExercise.column[nextExercise'], step.cashFlows, principal'));
      data' := AddCashFlows(data', nextExercise', p, step.cashFlows, principal');
    }
    if !done' {
      principal' := principal' * step.discountRatio;
    }
  }

  /** The do-while loop of one path: steps until the product is done. */
  method SimulatePath(data0: seq<seq<NodeData>>, p: nat, trace: seq<StepOutcome>,
                      isExerciseTime: seq<bool>, isProductTime: seq<bool>)
    returns (data: seq<seq<NodeData>>, nextExercise: nat, principal: real)
    requires |data0| > 0 && HasColumn(data0, p)
    requires WellFormedPath(trace, isProductTime) && |isExerciseTime| == |isProductTime|
    requires CountTrue(isExerciseTime[..|trace|]) < |data0|
    ensures var w := Run(trace, isExerciseTime, isProductTime, |trace|, InitialColumn(Column(data0, p)));
            data == SetColumn(data0, p, w.column) && nextExercise == w.nextExercise && principal == w.principal
  {
    ghost var column0 := InitialColumn(Column(data0, p));
    data := data0[0 := data0[0][p := data0[0][p].(cumulatedCashFlows := 0.0)]];
    SetOwnColumn(data0, p);
    WriteNode(data0, p, Column(data0, p), 0, data0[0][p].(cumulatedCashFlows := 0.0));
    principal := 1.0;
    var done := false;
    nextExercise := 0;
    var currentStep := 0;
    while !done
      invariant currentStep <= |trace|
      invariant done <==> currentStep == |trace|
      invariant RunOk(trace, isExerciseTime, isProductTime, column0, currentStep)
      invariant var w := Run(trace, isExerciseTime, isProductTime, currentStep, column0);
                data == SetColumn(data0, p, w.column) && nextExercise == w.nextExercise && principal == w.principal
      decreases |trace| - currentStep
    {
      RunOkPrefix(trace, isExerciseTime, isProductTime, column0, currentStep + 1, |trace|);
      CountTrueStep(isExerciseTime, currentStep);
      assert currentStep + 1 < |trace| ==> !StopsAt(trace, isProductTime, currentStep);
      ghost var w := Run(trace, isExerciseTime, isProductTime, currentStep, column0);
      data, nextExercise, principal, done :=
        StepPath(data0, p, w, trace[currentStep], isExerciseTime[currentStep], isProductTime[currentStep],
                 data, nextExercise, principal, done);
      assert Run(trace, isExerciseTime, isProductTime, currentStep + 1, column0)
          == Advance(w, trace[currentStep], isExerciseTime[currentStep], isProductTime[currentStep]);
      currentStep := currentStep + 1;
    }
  }

  /** The null-fill loop of one path: rows nextExercise + 1 .. exercises of column p. */
  method NullFillPath(data: seq<seq<NodeData>>, p: nat, nextExercise: nat, exercises: nat)
    returns (result: seq<seq<NodeData>>)
    requires |data| == exercises + 1 && HasColumn(data, p) && nextExercise <= exercises
    ensures result == SetColumn(data, p, NullFill(Column(data, p), nextExercise, exercises))
  {
    ghost var column := Column(data, p);
    result := data;
    SetOwnColumn(data, p);
    assert NullFill(column, nextExercise, nextExercise) == column;
    for j := nextExercise to exercises
      invariant result == SetColumn(data, p, NullFill(column, nextExercise, j))
    {
      WriteNode(data, p, NullFill(column, nextExercise, j), j + 1, Nulled(column[j + 1]));
      assert NullFill(column, nextExercise, j)[j + 1 := Nulled(column[j + 1])] == NullFill(column, nextExercise, j + 1);
      result := result[j + 1 := result[j + 1][p := result[j + 1][p].(
                  exerciseValue := 0.0, controlValue := 0.0, cumulatedCashFlows := 0.0, isValid := false)]];
    }
  }

  /** The body of the path loop: simulate the path, then null-fill its column. */
  method CollectPath(data: seq<seq<NodeData>>, i: nat, trace: seq<StepOutcome>,
                     isExerciseTime: seq<bool>, isProductTime: seq<bool>, exercises: nat)
    returns (result: seq<seq<NodeData>>)
    requires |data| == exercises + 1 && HasColumn(data, i)
    requires WellFormedPath(trace, isProductTime) && |isExerciseTime| == |isProductTime|
    requires CountTrue(isExerciseTime[..|trace|]) <= exercises
    ensures result == SetColumn(data, i, FinalColumn(trace, isExerciseTime, isProductTime, InitialColumn(Column(data, i))))
  {
    var afterPath, nextExercise, principal := SimulatePath(data, i, trace, isExerciseTime, isProductTime);
    ghost var w := Run(trace, isExerciseTime, isProductTime, |trace|, InitialColumn(Column(data, i)));
    SetColumnTwice(data, i, w.column, NullFill(w.column, nextExercise, exercises));
    result := NullFillPath(afterPath, i, nextExercise, exercises);
  }

  /** Replacing column i leaves every other column as it was. */
  lemma OtherColumns(data: seq<seq<NodeData>>, i: nat, column: seq<NodeData>, q: nat)
    requires HasColumn(data, i) && HasColumn(data, q) && |column| == |data| && q != i
    ensures Column(SetColumn(data, i, column), q) == Column(data, q)
  {
  }

  /** collectNodeData: one row per rebate time plus one, one column per path; column p
      is the final column of path p, started from the resized data. */
  method CollectNodeData(numberOfProducts: nat, isProductTime: seq<bool>, isRebateTime: seq<bool>,
                         v: seq<bool>, numberOfPaths: nat, paths: seq<seq<StepOutcome>>,
                         collectedData: seq<seq<NodeData>>, blank: NodeData)
    returns (r: Result<seq<seq<NodeData>>, CollectorError>)
    requires |isRebateTime| == |isProductTime|
    requires CountTrue(isRebateTime) <= |v|
    requires |paths| == numberOfPaths
    requires forall p | 0 <= p < |paths| :: WellFormedPath(paths[p], isProductTime)
    ensures r.Failure? <==> numberOfProducts != 1
    ensures r.Success? ==>
              var exercises := CountTrue(isRebateTime);
              var mask := ExerciseMask(isRebateTime, v);
              var start := Resized(collectedData, exercises + 1, numberOfPaths, blank);
              && |r.value| == exercises + 1
              && (forall row | 0 <= row <= exercises :: |r.value[row]| == numberOfPaths)
              && forall p | 0 <= p < numberOfPaths ::
                   Column(r.value, p) == FinalColumn(paths[p], mask, isProductTime, InitialColumn(Column(start, p)))
  {
    if numberOfProducts != 1 {
      return Failure(NotSingleProduct);
    }
    var isExerciseTime, exercises := BuildExerciseMask(isRebateTime, v);
    var data := ResizeCollectedData(collectedData, exercises + 1, numberOfPaths, blank);
    ghost var start := data;
    for i := 0 to numberOfPaths
      invariant |data| == exercises + 1 && forall row | 0 <= row <= exercises :: |data[row]| == numberOfPaths
      invariant forall p | 0 <= p < i ::
                  Column(data, p) == FinalColumn(paths[p], isExerciseTime, isProductTime, InitialColumn(Column(start, p)))
      invariant forall p | i <= p < numberOfPaths :: Column(data, p) == Column(start, p)
    {
      ghost var before := data;
      ghost var final := FinalColumn(paths[i], isExerciseTime, isProductTime, InitialColumn(Column(data, i)));
      data := CollectPath(data, i, paths[i], isExerciseTime, isProductTime, exercises);
      forall q | 0 <= q < numberOfPaths && q != i
        ensures Column(data, q) == Column(before, q)
      {
        OtherColumns(before, i, final, q);
      }
      SetColumnTwice(before, i, final, final);
    }
    r := Success(data);
  }
}
