// The step registry of a saga: pushed to and sorted on every registration.
module SagaSteps {
  import opened Sorting
  import opened Options

  // What `registerStep` is given.  Orders are JavaScript numbers.
  datatype Registration = Registration(methodName: string, compensate: string, order: Option<real>)

  // An absent compensation and an empty one are the same to the orchestrator.
  datatype SagaStep = SagaStep(name: string, compensate: string, order: real)

  function Order(): SagaStep -> real {
    (s: SagaStep) => s.order
  }

  function StepFor(reg: Registration, position: nat): SagaStep {
    SagaStep(reg.methodName, reg.compensate, match reg.order case Some(o) => o case None => position as real)
  }

  // One `push` and one `sort` per registration.
  function Incremental(regs: seq<Registration>): (steps: seq<SagaStep>)
    ensures |steps| == |regs|
  {
    if regs == [] then []
    else
      var before := Incremental(regs[..|regs| - 1]);
      StableSort(Order(), before + [StepFor(regs[|regs| - 1], |before|)])
  }

  // The steps in registration order, numbered as they came.
  ghost function Unsorted(regs: seq<Registration>): seq<SagaStep> {
    seq(|regs|, i requires 0 <= i < |regs| => StepFor(regs[i], i))
  }

  // Sorting on every registration is one stable sort of all registrations.
  lemma {:induction false} IncrementalIsBatch(regs: seq<Registration>)
    ensures Incremental(regs) == StableSort(Order(), Unsorted(regs))
  {
    if regs != [] {
      var before, last := regs[..|regs| - 1], StepFor(regs[|regs| - 1], |regs| - 1);
      IncrementalIsBatch(before);
      assert Unsorted(regs) == Unsorted(before) + [last];
      SortAfterPush(Order(), Unsorted(before), last);
    }
  }

  // Hence the registry is sorted, holds every registration once, and keeps ties in order.
  lemma {:induction false} RegistryIsStablySorted(regs: seq<Registration>)
    ensures IsStableSort(Order(), Unsorted(regs), Incremental(regs))
    ensures multiset(Incremental(regs)) == multiset(Unsorted(regs))
  {
    IncrementalIsBatch(regs);
    StableSortIsStable(Order(), Unsorted(regs));
    StableSortElements(Order(), Unsorted(regs));
  }

  // Steps registered without an order keep their registration order, whatever orders the
  // others were given.
  lemma {:induction false} DefaultOrderKept(regs: seq<Registration>, isDefault: SagaStep -> bool)
    requires forall i :: 0 <= i < |regs| && isDefault(StepFor(regs[i], i)) ==> regs[i].order.None?
    ensures Select(isDefault, Incremental(regs)) == Select(isDefault, Unsorted(regs))
  {
    IncrementalIsBatch(regs);
    SortKeepsSelection(Order(), isDefault, Unsorted(regs));
  }

  lemma {:induction false} AllDefaultKeepsOrder(regs: seq<Registration>)
    requires forall i :: 0 <= i < |regs| ==> regs[i].order.None?
    ensures Incremental(regs) == Unsorted(regs)
  {
    DefaultOrderKept(regs, s => true);
    SelectAll(Incremental(regs));
    SelectAll(Unsorted(regs));
  }

  lemma {:induction false} SelectAll<T>(xs: seq<T>)
    ensures Select(x => true, xs) == xs
  {
    if xs != [] {
      SelectAll(xs[..|xs| - 1]);
      assert xs == xs[..|xs| - 1] + [xs[|xs| - 1]];
    }
  }

  // --- The registry in terms of the registrations ---

  // Step n was registered as number at[n]; every registration is there once; steps run by order,
  // which is the one given or else the number of the registration, and otherwise as registered.
  ghost predicate RunsInOrder(regs: seq<Registration>, steps: seq<SagaStep>, at: seq<nat>) {
    && |steps| == |at| == |regs|
    && (forall i :: 0 <= i < |regs| ==> i in at)
    && (forall n :: 0 <= n < |at| ==>
          && at[n] < |regs|
          && steps[n].name == regs[at[n]].methodName && steps[n].compensate == regs[at[n]].compensate
          && steps[n].order == match regs[at[n]].order { case Some(o) => o case None => at[n] as real })
    && (forall m, n :: 0 <= m < n < |at| ==> at[m] != at[n])
    && (forall m, n :: 0 <= m < n < |at| ==>
          steps[m].order < steps[n].order || (steps[m].order == steps[n].order && at[m] < at[n]))
  }

  // Main result: what a saga runs, whatever orders its steps were registered with.
  lemma {:induction false} RegistryRunsInOrder(regs: seq<Registration>) returns (at: seq<nat>)
    ensures RunsInOrder(regs, Incremental(regs), at)
  {
    IncrementalIsBatch(regs);
    var xs := Unsorted(regs);
    at := StableSortPlaces(Order(), xs);
    var steps := Incremental(regs);
    forall m, n | 0 <= m < n < |at|
      ensures at[m] != at[n]
      ensures steps[m].order < steps[n].order || (steps[m].order == steps[n].order && at[m] < at[n])
    {
      assert Before(Order(), xs, at[m], at[n]);
    }
  }
}
