// The orchestrator as the program writes it, its awaits taken one after another: registrations
// push and sort in place, `start` fills a context, `compensate` rewrites its records.
module SagaOrchestrator {
  import opened SagaSteps
  import opened Sorting
  import opened SagaRun
  import opened SagaRollback
  import opened Options

  class RegisteredSaga {
    const name: string
    var steps: seq<SagaStep>
    ghost var registrations: seq<Registration>

    constructor (name: string)
      ensures this.name == name && steps == [] && registrations == []
    {
      this.name := name;
      steps, registrations := [], [];
    }
  }

  class SagaContext {
    const name: string
    var status: Status
    var steps: seq<Record>
    ghost var log: seq<Exchange>

    constructor (name: string)
      ensures this.name == name && status == STARTED && steps == [] && log == []
    {
      this.name := name;
      status, steps, log := STARTED, [], [];
    }
  }

  class SagaOrchestrator {
    var sagas: map<string, RegisteredSaga>

    ghost predicate Valid()
      reads this, sagas.Values
    {
      && (forall n :: n in sagas ==> sagas[n].steps == Incremental(sagas[n].registrations))
      && (forall m, n :: m in sagas && n in sagas && m != n ==> sagas[m] != sagas[n])
    }

    constructor ()
      ensures Valid() && sagas == map[]
    {
      sagas := map[];
    }

    method RegisterSaga(name: string)
      requires Valid()
      modifies this
      ensures Valid()
      ensures name in old(sagas) ==> sagas == old(sagas)
      ensures name !in old(sagas) ==>
                && name in sagas && fresh(sagas[name]) && sagas == old(sagas)[name := sagas[name]]
                && sagas[name].registrations == []
    {
      if name !in sagas {
        var saga := new RegisteredSaga(name);
        sagas := sagas[name := saga];
      }
    }

    // `ok` is false where the program throws for an unknown saga.
    method RegisterStep(sagaName: string, reg: Registration) returns (ok: bool)
      requires Valid()
      modifies sagas.Values
      ensures Valid() && ok == (sagaName in sagas)
      ensures forall n :: n in sagas && n != sagaName ==>
                sagas[n].steps == old(sagas[n].steps) && sagas[n].registrations == old(sagas[n].registrations)
      ensures ok ==> sagas[sagaName].registrations == old(sagas[sagaName].registrations) + [reg]
      ensures ok ==> exists at :: RunsInOrder(sagas[sagaName].registrations, sagas[sagaName].steps, at)
    {
      if sagaName !in sagas { return false; }
      var saga := sagas[sagaName];
      var order := match reg.order case Some(o) => o case None => |saga.steps| as real;
      ghost var before := saga.registrations;
      saga.steps := saga.steps + [SagaStep(reg.methodName, reg.compensate, order)];
      saga.steps := StableSort(Order(), saga.steps);
      saga.registrations := saga.registrations + [reg];
      assert saga.registrations[..|saga.registrations| - 1] == before;
      ghost var at := RegistryRunsInOrder(saga.registrations);
      return true;
    }

    // Runs a saga in a world: `context` is None where the program throws for an unknown saga.
    method Start<W>(sagaName: string, w0: W, act: World<W>) returns (context: Option<SagaContext>, w: W)
      ensures context.Some? == (sagaName in sagas)
      ensures context.None? ==> w == w0
      ensures context.Some? ==>
                && fresh(context.value)
                && var (end, w1) := Drive(Begin(sagas[sagaName].steps), w0, act);
                   && w == w1 && context.value.status == end.status && context.value.steps == end.records
                   && context.value.log == end.log
    {
      if sagaName !in sagas { return None, w0; }
      var steps := sagas[sagaName].steps;
      var ctx := new SagaContext(sagaName);
      var executedSteps: seq<SagaStep> := [];
      w := w0;
      ghost var run := Begin(steps);
      ghost var end := Drive(run, w0, act);
      var i := 0;
      while i < |steps|
        invariant 0 <= i <= |steps| && executedSteps == steps[..i]
        invariant ctx.status == STARTED && ctx.steps == run.records && ctx.log == run.log && run.steps == steps
        invariant if i < |steps| then run.phase == Executing(i) && run.status == STARTED else run.phase == Finished && run.status == COMPLETED
        invariant EndsAs(run, w, act, end)
      {
        executedSteps := executedSteps + [steps[i]];
        ExecuteStep(run, i, w, act, end);
        var (reply, w') := act(w, Do(i, steps[i].name));
        w := w';
        ctx.log := ctx.log + [Exchange(Do(i, steps[i].name), reply)];
        if reply.Returns? {
          ctx.steps := ctx.steps + [Record(steps[i].name, StepCompleted)];
        } else {
          w := FailAt(ctx, executedSteps, run, i, w, act);
          return Some(ctx), w;
        }
        run := Resume(run, reply);
        i := i + 1;
      }
      if ctx.status == STARTED {
        ctx.status := COMPLETED;
      }
      context := Some(ctx);
    }

    // Step i has thrown.
    method FailAt<W>(
      context: SagaContext, executedSteps: seq<SagaStep>, ghost run: Run, i: nat, w0: W, act: World<W>)
      returns (w: W)
      requires i < |run.steps| && executedSteps == run.steps[..i + 1]
      requires context.steps == run.records && context.log == Stopped(run, i).log
      requires var c := Compensate(Stopped(run, i), i); c.phase.Finished? || Awaiting(c)
      modifies context
      ensures var (end, w1) := Drive(Compensate(Stopped(run, i), i), w0, act);
              && w == w1 && context.status == end.status && context.steps == end.records && context.log == end.log
    {
      context.status := FAILED;
      context.steps := context.steps + [Record(executedSteps[i].name, StepFailed)];
      assert executedSteps[..|executedSteps| - 1] == run.steps[..i];
      w := CompensateSteps(context, Reverse(executedSteps[..|executedSteps| - 1]), Stopped(run, i), w0, act);
    }

    // `stopped` is the run as it stands when compensation begins.
    method CompensateSteps<W>(
      context: SagaContext, stepsToCompensate: seq<SagaStep>, ghost stopped: Run, w0: W, act: World<W>)
      returns (w: W)
      requires stopped.failedAt <= |stopped.steps|
      requires stepsToCompensate == Reverse(stopped.steps[..stopped.failedAt])
      requires context.steps == stopped.records && context.log == stopped.log
      requires var c := Compensate(stopped, stopped.failedAt); c.phase.Finished? || Awaiting(c)
      modifies context
      ensures var (end, w1) := Drive(Compensate(stopped, stopped.failedAt), w0, act);
              && w == w1 && context.status == end.status && context.steps == end.records && context.log == end.log
    {
      context.status := COMPENSATING;
      w := w0;
      ghost var run := stopped;
      var f := |stepsToCompensate|;
      ghost var end := Drive(Compensate(stopped, f), w0, act);
      ghost var j := f;
      var m := 0;
      while m < f
        invariant 0 <= m <= f == stopped.failedAt && j == f - m
        invariant run.steps == stopped.steps && context.steps == run.records && context.log == run.log
        invariant var c := Compensate(run, j); c.phase.Finished? || Awaiting(c)
        invariant end == Drive(Compensate(run, j), w, act)
      {
        var step := stepsToCompensate[m];
        assert step == run.steps[f - m - 1];
        if step.compensate != "" {
          var i := f - m - 1;
          ghost var reply := act(w, Undo(i, step.compensate)).0;
          UndoStep(run, i, w, act);
          w := CompensateStep(context, step, run, i, w, act);
          run := Undoing(run, i, reply);
        }
        m, j := m + 1, j - 1;
      }
      context.status := ABORTED;
    }

    // The body of that loop: step i declares a compensation.
    method CompensateStep<W>(context: SagaContext, step: SagaStep, ghost run: Run, i: nat, w0: W, act: World<W>)
      returns (w: W)
      requires i < |run.steps| && step == run.steps[i] && Declares(step)
      requires context.steps == run.records && context.log == run.log
      modifies context
      ensures var (reply, w1) := act(w0, Undo(i, step.compensate));
              w == w1 && context.steps == Undoing(run, i, reply).records && context.log == Undoing(run, i, reply).log
    {
      var (reply, w1) := act(w0, Undo(i, step.compensate));
      w := w1;
      context.log := context.log + [Exchange(Undo(i, step.compensate), reply)];
      if reply.Returns? {
        var k := Find(context.steps, step.name);
        if k < |context.steps| {
          context.steps := context.steps[k := context.steps[k].(status := StepCompensated)];
        }
      }
    }
  }

  // The run when step i has thrown and compensation begins.
  ghost function Stopped(run: Run, i: nat): Run
    requires i < |run.steps|
  {
    run.(log := run.log + [Exchange(Do(i, run.steps[i].name), Throws)],
         records := run.records + [Record(run.steps[i].name, StepFailed)], status := COMPENSATING, failedAt := i)
  }

  ghost predicate EndsAs<W>(run: Run, w: W, act: World<W>, end: (Run, W)) {
    (run.phase.Finished? || Awaiting(run)) && Drive(run, w, act) == end
  }

  lemma ExecuteStep<W>(run: Run, i: nat, w: W, act: World<W>, end: (Run, W))
    requires i < |run.steps| && run.phase == Executing(i) && run.status == STARTED && EndsAs(run, w, act, end)
    ensures var (reply, w') := act(w, Do(i, run.steps[i].name));
            var next := Resume(run, reply);
            && EndsAs(next, w', act, end)
            && (reply.Throws? ==> next == Compensate(Stopped(run, i), i))
            && (reply.Returns? ==>
                  && next.steps == run.steps && next.log == run.log + [Exchange(Do(i, run.steps[i].name), reply)]
                  && next.records == run.records + [Record(run.steps[i].name, StepCompleted)]
                  && (if i + 1 < |run.steps| then next.phase == Executing(i + 1) && next.status == STARTED
                      else next.phase == Finished && next.status == COMPLETED))
  {
    DriveStep(run, w, act);
    assert Awaited(run) == Do(i, run.steps[i].name);
  }

  // The run after the compensation of step i was answered.
  ghost function Undoing(run: Run, i: nat, reply: Reply): Run
    requires i < |run.steps|
  {
    Compensate(run, i + 1).(
      log := run.log + [Exchange(Undo(i, run.steps[i].compensate), reply)],
      records := if reply.Returns? then MarkCompensated(run.records, run.steps[i].name) else run.records)
  }

  lemma UndoStep<W>(run: Run, i: nat, w: W, act: World<W>)
    requires i < |run.steps| && Declares(run.steps[i])
    ensures var (reply, w') := act(w, Undo(i, run.steps[i].compensate));
            var next := Undoing(run, i, reply);
            && next.steps == run.steps
            && var c := Compensate(next, i);
               && (c.phase.Finished? || Awaiting(c))
               && Drive(Compensate(run, i + 1), w, act) == Drive(c, w', act)
  {
    var here := Compensate(run, i + 1);
    var (reply, w') := act(w, Awaited(here));
    DriveStep(here, w, act);
    assert Resume(here, reply) == Compensate(Undoing(run, i, reply), i);
  }

  function Reverse<T>(xs: seq<T>): (ys: seq<T>)
    ensures |ys| == |xs| && forall i :: 0 <= i < |xs| ==> ys[i] == xs[|xs| - 1 - i]
  {
    if xs == [] then [] else [xs[|xs| - 1]] + Reverse(xs[..|xs| - 1])
  }

  // `find`: the first record with that name, or the length when there is none.
  method Find(records: seq<Record>, name: string) returns (k: nat)
    ensures k <= |records|
    ensures MarkCompensated(records, name) ==
            if k < |records| then records[k := records[k].(status := StepCompensated)] else records
  {
    k := 0;
    while k < |records| && records[k].stepName != name
      invariant 0 <= k <= |records|
      invariant MarkCompensated(records, name) == records[..k] + MarkCompensated(records[k..], name)
    {
      MarkAt(records, name, k);
      k := k + 1;
    }
    if k < |records| { MarkAt(records, name, k); }
  }

  lemma MarkAt(records: seq<Record>, name: string, k: nat)
    requires k < |records|
    ensures records[..k] + MarkCompensated(records[k..], name) ==
            if records[k].stepName == name then records[k := records[k].(status := StepCompensated)]
            else records[..k + 1] + MarkCompensated(records[k + 1..], name)
  {
    assert records[k..][1..] == records[k + 1..];
    assert records[..k] + [records[k]] == records[..k + 1];
  }
}
