/** The progress list of src/components/SearchAnimation.tsx: the status of
    each step, computed from the current step's position in the list. */
module SearchAnimation {

  /** `xs.indexOf(x)`: the first position of `x`, or -1. */
  function FirstIndex<T(==)>(xs: seq<T>, x: T): (r: int)
    ensures -1 <= r < |xs|
    ensures r >= 0 ==> xs[r] == x && forall j :: 0 <= j < r ==> xs[j] != x
    ensures r == -1 <==> x !in xs
    decreases |xs|
  {
    if xs == [] then -1
    else if xs[0] == x then 0
    else
      var k := FirstIndex(xs[1..], x);
      assert forall j :: 1 <= j < |xs| ==> xs[j] == xs[1..][j - 1];
      if k == -1 then -1 else k + 1
  }

  datatype Status = InProgress | Completed | Pending

  /** `stepStatus` for the step at `index`. */
  function StepStatus(steps: seq<string>, currentStep: string, index: nat): Status
    requires index < |steps|
  {
    if currentStep == steps[index] then InProgress
    else if FirstIndex(steps, currentStep) > index then Completed
    else Pending
  }

  /** A step is in progress exactly when it is the current step; completed
      exactly when it is not, and the current step first occurs later in
      the list; and pending otherwise. */
  lemma StatusClassification(steps: seq<string>, currentStep: string, index: nat)
    requires index < |steps|
    ensures StepStatus(steps, currentStep, index) == InProgress <==> steps[index] == currentStep
    ensures StepStatus(steps, currentStep, index) == Completed
      <==> steps[index] != currentStep
           && (exists j :: index < j < |steps| && steps[j] == currentStep
                 && forall m :: 0 <= m < j ==> steps[m] != currentStep)
  {
    var k := FirstIndex(steps, currentStep);
    if steps[index] != currentStep && k > index {
      assert index < k < |steps| && steps[k] == currentStep;
    }
  }

  /** A current step that is not in the list leaves every step pending. */
  lemma UnknownStepAllPending(steps: seq<string>, currentStep: string)
    requires currentStep !in steps
    ensures forall i :: 0 <= i < |steps| ==> StepStatus(steps, currentStep, i) == Pending
  {
  }

  predicate Distinct(steps: seq<string>) {
    forall i, j :: 0 <= i < j < |steps| ==> steps[i] != steps[j]
  }

  /** With distinct steps and the current one at `k`: the steps before `k`
      are completed, step `k` is the only one in progress, and the steps
      after it are pending. */
  lemma DistinctStepsProgress(steps: seq<string>, k: nat)
    requires Distinct(steps) && k < |steps|
    ensures forall i :: 0 <= i < k ==> StepStatus(steps, steps[k], i) == Completed
    ensures StepStatus(steps, steps[k], k) == InProgress
    ensures forall i :: k < i < |steps| ==> StepStatus(steps, steps[k], i) == Pending
  {
    assert FirstIndex(steps, steps[k]) == k;
  }

  /** What the step's badge shows: a check mark once completed, otherwise
      its number counted from one. */
  datatype Badge = CheckMark | Number(n: nat)

  function BadgeOf(status: Status, index: nat): (b: Badge)
    ensures b == CheckMark <==> status == Completed
    ensures b.Number? ==> b.n == index + 1 && b.n >= 1
  {
    if status == Completed then CheckMark else Number(index + 1)
  }
}
