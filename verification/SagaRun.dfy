// One saga run, cut at its awaits: the state machine a run is while other runs interleave.
module SagaRun {
  import opened SagaSteps

  datatype Status = STARTED | COMPLETED | COMPENSATING | FAILED | ABORTED
  datatype RecordStatus = StepCompleted | StepFailed | StepCompensated
  datatype Record = Record(stepName: string, status: RecordStatus)

  // A call of a user method: step i, or the compensation of step i.
  datatype Call = Do(i: nat, callee: string) | Undo(i: nat, callee: string)
  datatype Reply = Returns | Throws
  datatype Exchange = Exchange(call: Call, reply: Reply)

  datatype Phase = Executing(i: nat) | Compensating(j: nat) | Finished

  // `log` is not in the program: the calls answered so far.  `failedAt` is the number of
  // `executedSteps` that are compensated.
  datatype Run = Run(
    steps: seq<SagaStep>, status: Status, records: seq<Record>, phase: Phase, failedAt: nat, log: seq<Exchange>)

  predicate Declares(step: SagaStep) {
    step.compensate != ""
  }

  function Begin(steps: seq<SagaStep>): Run {
    if steps == [] then Run(steps, COMPLETED, [], Finished, 0, [])
    else Run(steps, STARTED, [], Executing(0), 0, [])
  }

  // The call whose answer the run is waiting for.
  function Awaited(run: Run): Call
    requires !run.phase.Finished?
    requires run.phase.Executing? ==> run.phase.i < |run.steps|
    requires run.phase.Compensating? ==> run.phase.j < |run.steps|
  {
    match run.phase
    case Executing(i) => Do(i, run.steps[i].name)
    case Compensating(j) => Undo(j, run.steps[j].compensate)
  }

  // From position j downwards: on to the next declared compensation, or done.
  function Compensate(run: Run, j: nat): Run
    requires j <= |run.steps|
    decreases j
  {
    if j == 0 then run.(status := ABORTED, phase := Finished)
    else if Declares(run.steps[j - 1]) then run.(status := COMPENSATING, phase := Compensating(j - 1))
    else Compensate(run, j - 1)
  }

  // `context.steps.find(s => s.stepName === name)`
  function MarkCompensated(records: seq<Record>, name: string): (marked: seq<Record>)
    ensures |marked| == |records|
  {
    if records == [] then []
    else if records[0].stepName == name then [records[0].(status := StepCompensated)] + records[1..]
    else [records[0]] + MarkCompensated(records[1..], name)
  }

  predicate Awaiting(run: Run) {
    match run.phase
    case Executing(i) => i < |run.steps|
    case Compensating(j) => j < |run.steps|
    case Finished => false
  }

  // The code between one await and the next.
  function Resume(run: Run, reply: Reply): Run
    requires Awaiting(run)
  {
    var run1 := run.(log := run.log + [Exchange(Awaited(run), reply)]);
    match run.phase
    case Executing(i) =>
      if reply.Returns? then
        var run2 := run1.(records := run.records + [Record(run.steps[i].name, StepCompleted)]);
        if i + 1 < |run.steps| then run2.(phase := Executing(i + 1))
        else run2.(status := COMPLETED, phase := Finished)
      else
        Compensate(
          run1.(records := run.records + [Record(run.steps[i].name, StepFailed)], status := COMPENSATING, failedAt := i),
          i)
    case Compensating(j) =>
      if reply.Returns? then
        Compensate(run1.(records := MarkCompensated(run.records, run.steps[j].name)), j)
      else Compensate(run1, j)
  }

  // --- What every reachable state of a run satisfies ---

  ghost predicate FirstOfName(steps: seq<SagaStep>, l: nat)
    requires l < |steps|
  {
    forall m :: 0 <= m < l ==> steps[m].name != steps[l].name
  }

  ghost function Dos(steps: seq<SagaStep>, n: nat): seq<Call>
    requires n <= |steps|
  {
    seq(n, i requires 0 <= i < n => Do(i, steps[i].name))
  }

  // The declared compensations of steps[lo..hi], last first.
  ghost function Undos(steps: seq<SagaStep>, hi: nat, lo: nat): seq<Call>
    requires hi <= |steps|
    decreases hi - lo
  {
    if hi <= lo then []
    else Undos(steps, hi, lo + 1) + if Declares(steps[lo]) then [Undo(lo, steps[lo].compensate)] else []
  }

  ghost function Calls(log: seq<Exchange>): seq<Call> {
    seq(|log|, i requires 0 <= i < |log| => log[i].call)
  }

  ghost predicate Undone(log: seq<Exchange>, l: nat) {
    exists e :: e in log && e.call.Undo? && e.call.i == l && e.reply.Returns?
  }

  // The compensation of step l, or of a later step of its name, was called and returned, and the
  // search by name ends at record l.
  ghost predicate Booked(steps: seq<SagaStep>, log: seq<Exchange>, l: nat)
    requires l < |steps|
  {
    FirstOfName(steps, l) && exists m :: UndoneAs(steps, log, l, m)
  }

  ghost predicate UndoneAs(steps: seq<SagaStep>, log: seq<Exchange>, l: nat, m: nat)
    requires l < |steps|
  {
    l <= m < |steps| && steps[m].name == steps[l].name && Undone(log, m)
  }

  ghost predicate RecordsBooked(steps: seq<SagaStep>, log: seq<Exchange>, records: seq<Record>, f: nat)
    requires f < |steps| && f < |records|
  {
    forall l :: 0 <= l < f ==> records[l].status == if Booked(steps, log, l) then StepCompensated else StepCompleted
  }

  ghost predicate RecordsOf(run: Run, n: nat) {
    && |run.records| == n <= |run.steps|
    && (forall l :: 0 <= l < n ==> run.records[l].stepName == run.steps[l].name)
  }

  ghost predicate Forward(run: Run, i: nat) {
    && RecordsOf(run, i)
    && (forall l :: 0 <= l < i ==> run.records[l].status == StepCompleted)
    && Calls(run.log) == Dos(run.steps, i)
    && (forall l :: 0 <= l < i ==> run.log[l].reply == Returns)
  }

  // Everything from step j up to the failed step f has been dealt with.
  ghost predicate Backward(run: Run, f: nat, j: nat) {
    && j <= f < |run.steps|
    && RecordsOf(run, f + 1)
    && run.records[f].status == StepFailed
    && RecordsBooked(run.steps, run.log, run.records, f)
    && BackwardTrace(run.steps, run.log, f, j)
  }

  ghost predicate BackwardTrace(steps: seq<SagaStep>, log: seq<Exchange>, f: nat, j: nat)
    requires f < |steps|
  {
    && Calls(log) == Dos(steps, f + 1) + Undos(steps, f, j)
    && |log| > f
    && (forall l :: 0 <= l < f ==> log[l].reply == Returns)
    && log[f].reply == Throws
  }

  ghost predicate Inv(run: Run) {
    match run.phase
    case Executing(i) => i < |run.steps| && run.status == STARTED && Forward(run, i)
    case Compensating(j) =>
      run.status == COMPENSATING && j < run.failedAt && Backward(run, run.failedAt, j + 1)
      && Declares(run.steps[j])
    case Finished =>
      || (run.status == COMPLETED && Forward(run, |run.steps|))
      || (run.status == ABORTED && Backward(run, run.failedAt, 0))
  }

  lemma BeginInv(steps: seq<SagaStep>)
    ensures Inv(Begin(steps))
  {}

  lemma {:induction false} MarkFirst(records: seq<Record>, name: string, l: nat)
    requires l < |records|
    ensures var marked := MarkCompensated(records, name);
            marked[l] == if records[l].stepName == name && (forall m :: 0 <= m < l ==> records[m].stepName != name)
                         then records[l].(status := StepCompensated) else records[l]
  {
    if l > 0 && records[0].stepName != name {
      MarkFirst(records[1..], name, l - 1);
      assert forall m :: 0 < m < |records| ==> records[m] == records[1..][m - 1];
      assert forall m :: 0 <= m < |records| - 1 ==> records[1..][m] == records[m + 1];
    }
  }

  lemma {:induction false} UndosRange(steps: seq<SagaStep>, hi: nat, lo: nat, c: Call)
    requires hi <= |steps| && c in Undos(steps, hi, lo)
    ensures c.Undo? && lo <= c.i < hi && Declares(steps[c.i])
    decreases hi - lo
  {
    if lo < hi && c in Undos(steps, hi, lo + 1) { UndosRange(steps, hi, lo + 1, c); }
  }

  // What has been undone lies between the position reached and the failed step, and declares it.
  lemma UndoneRange(steps: seq<SagaStep>, log: seq<Exchange>, f: nat, j: nat, l: nat)
    requires j <= f < |steps| && BackwardTrace(steps, log, f, j) && Undone(log, l)
    ensures j <= l < f && Declares(steps[l])
  {
    var e :| e in log && e.call.Undo? && e.call.i == l && e.reply.Returns?;
    var n :| 0 <= n < |log| && log[n] == e;
    assert Calls(log)[n] == e.call;
    if n > f {
      assert e.call == Undos(steps, f, j)[n - (f + 1)];
      UndosRange(steps, f, j, e.call);
    }
  }

  lemma {:induction false} CompensateInv(run: Run, f: nat, j: nat)
    requires f < |run.steps| && j <= f && run.failedAt == f && Backward(run, f, j)
    ensures Inv(Compensate(run, j)) && Compensate(run, j).steps == run.steps
    decreases j, 1
  {
    if j == 0 {
      BackwardElsewhere(run, run.(status := ABORTED, phase := Finished), f, 0);
    } else {
      CompensateFrom(run, f, j - 1, j);
    }
  }

  lemma {:induction false} CompensateFrom(run: Run, f: nat, i: nat, j: nat)
    requires f < |run.steps| && i + 1 == j <= f && run.failedAt == f && Backward(run, f, j)
    ensures Inv(Compensate(run, j)) && Compensate(run, j).steps == run.steps
    decreases j, 0
  {
    CompensateStep(run, i, j);
    if Declares(run.steps[i]) {
      WaitingInv(run, i, run.(status := COMPENSATING, phase := Compensating(i)));
    } else {
      BackwardSkips(run, f, i, j);
      CompensateInv(run, f, i);
    }
  }

  lemma CompensateStep(run: Run, i: nat, j: nat)
    requires i + 1 == j <= |run.steps|
    ensures Compensate(run, j) ==
            if Declares(run.steps[i]) then run.(status := COMPENSATING, phase := Compensating(i)) else Compensate(run, i)
  {}

  lemma WaitingInv(run: Run, i: nat, waits: Run)
    requires i < run.failedAt && Backward(run, run.failedAt, i + 1) && Declares(run.steps[i])
    requires waits == run.(status := COMPENSATING, phase := Compensating(i))
    ensures Inv(waits)
  {
    BackwardElsewhere(run, waits, waits.failedAt, waits.phase.j + 1);
  }

  lemma BackwardElsewhere(run: Run, run': Run, f: nat, j: nat)
    requires Backward(run, f, j) && run'.steps == run.steps && run'.records == run.records && run'.log == run.log
    ensures Backward(run', f, j)
  {}

  lemma BackwardSkips(run: Run, f: nat, i: nat, j: nat)
    requires Backward(run, f, j) && j == i + 1 && !Declares(run.steps[i])
    ensures Backward(run, f, i)
  {
    UndosSkip(run.steps, f, i, j);
    assert BackwardTrace(run.steps, run.log, f, i);
  }

  lemma UndosSkip(steps: seq<SagaStep>, hi: nat, lo: nat, j: nat)
    requires j == lo + 1 && j <= hi <= |steps| && !Declares(steps[lo])
    ensures Undos(steps, hi, lo) == Undos(steps, hi, j)
  {}

  lemma CallsAppend(log: seq<Exchange>, e: Exchange)
    ensures Calls(log + [e]) == Calls(log) + [e.call]
  {}

  lemma UndoneAppend(log: seq<Exchange>, e: Exchange, l: nat)
    ensures Undone(log + [e], l) <==> Undone(log, l) || (e.call.Undo? && e.call.i == l && e.reply.Returns?)
  {
    if Undone(log, l) {
      var x :| x in log && x.call.Undo? && x.call.i == l && x.reply.Returns?;
      assert x in log + [e];
    }
    if e.call.Undo? && e.call.i == l && e.reply.Returns? { assert e in log + [e]; }
  }

  // --- Steps of the machine keep the invariant ---

  lemma ForwardFails(run: Run)
    requires Inv(run) && run.phase.Executing?
    ensures var i := run.phase.i;
            var r := run.(log := run.log + [Exchange(Awaited(run), Throws)],
                          records := run.records + [Record(run.steps[i].name, StepFailed)],
                          status := COMPENSATING, failedAt := i);
            Backward(r, i, i)
  {
    var i := run.phase.i;
    CallsAppend(run.log, Exchange(Awaited(run), Throws));
    assert |Calls(run.log)| == |run.log|;
    var r := run.(log := run.log + [Exchange(Awaited(run), Throws)],
                  records := run.records + [Record(run.steps[i].name, StepFailed)],
                  status := COMPENSATING, failedAt := i);
    assert BackwardTrace(r.steps, r.log, i, i);
    forall l | 0 <= l < i ensures !Booked(r.steps, r.log, l) {
      if Booked(r.steps, r.log, l) {
        var m :| UndoneAs(r.steps, r.log, l, m);
        UndoneRange(r.steps, r.log, i, i, m);
      }
    }
  }

  lemma ForwardSucceeds(run: Run)
    requires Inv(run) && run.phase.Executing?
    ensures var i := run.phase.i;
            Forward(run.(log := run.log + [Exchange(Awaited(run), Returns)],
                         records := run.records + [Record(run.steps[i].name, StepCompleted)]), i + 1)
  {
    CallsAppend(run.log, Exchange(Awaited(run), Returns));
    assert |Calls(run.log)| == |run.log|;
  }

  ghost function Compensated(run: Run, reply: Reply): Run
    requires run.phase.Compensating? && Awaiting(run)
  {
    run.(log := run.log + [Exchange(Awaited(run), reply)],
         records := if reply.Returns? then MarkCompensated(run.records, run.steps[run.phase.j].name) else run.records)
  }

  lemma BookedStep(steps: seq<SagaStep>, log: seq<Exchange>, j: nat, reply: Reply, l: nat)
    requires j < |steps| && l < |steps|
    ensures Booked(steps, log + [Exchange(Undo(j, steps[j].compensate), reply)], l) <==>
            || Booked(steps, log, l)
            || (FirstOfName(steps, l) && reply.Returns? && l <= j && steps[j].name == steps[l].name)
  {
    var e := Exchange(Undo(j, steps[j].compensate), reply);
    forall m: nat ensures UndoneAs(steps, log + [e], l, m) <==>
      UndoneAs(steps, log, l, m) || (m == j && reply.Returns? && l <= j && steps[j].name == steps[l].name)
    {
      UndoneAppend(log, e, m);
    }
    if reply.Returns? && l <= j && steps[j].name == steps[l].name { assert UndoneAs(steps, log + [e], l, j); }
    if m :| UndoneAs(steps, log, l, m) { assert UndoneAs(steps, log + [e], l, m); }
  }

  lemma RecordStep(run: Run, reply: Reply, l: nat)
    requires run.phase.Compensating? && Awaiting(run) && l < |run.records| <= |run.steps| && run.phase.j < |run.records|
    requires forall m :: 0 <= m < |run.records| ==> run.records[m].stepName == run.steps[m].name
    ensures var r, j := Compensated(run, reply), run.phase.j;
            && r.records[l].stepName == run.steps[l].name
            && r.records[l].status ==
               (if reply.Returns? && run.steps[l].name == run.steps[j].name && FirstOfName(run.steps, l) then StepCompensated
                else run.records[l].status)
            && (run.steps[l].name == run.steps[j].name && FirstOfName(run.steps, l) ==> l <= j)
  {
    MarkFirst(run.records, run.steps[run.phase.j].name, l);
    assert FirstOfName(run.steps, l) <==> forall m :: 0 <= m < l ==> run.records[m].stepName != run.records[l].stepName;
  }

  lemma BackwardStep(run: Run, reply: Reply)
    requires Inv(run) && run.phase.Compensating?
    ensures Backward(Compensated(run, reply), run.failedAt, run.phase.j)
  {
    var j, f, r := run.phase.j, run.failedAt, Compensated(run, reply);
    BackwardTraceStep(run.steps, run.log, f, j, j + 1, reply);
    forall l | 0 <= l <= f
      ensures r.records[l].stepName == run.steps[l].name
      ensures r.records[l].status ==
              if l == f then StepFailed else if Booked(r.steps, r.log, l) then StepCompensated else StepCompleted
    {
      RecordStep(run, reply, l);
      BookedStep(run.steps, run.log, j, reply, l);
    }
  }

  lemma BackwardTraceStep(steps: seq<SagaStep>, log: seq<Exchange>, f: nat, j: nat, m: nat, reply: Reply)
    requires j < f < |steps| && m == j + 1 && BackwardTrace(steps, log, f, m) && Declares(steps[j])
    ensures BackwardTrace(steps, log + [Exchange(Undo(j, steps[j].compensate), reply)], f, j)
  {
    CallsAppend(log, Exchange(Undo(j, steps[j].compensate), reply));
    assert |Calls(log)| == |log|;
  }

  lemma {:induction false} ResumeInv(run: Run, reply: Reply)
    requires Inv(run) && Awaiting(run)
    ensures Inv(Resume(run, reply)) && Resume(run, reply).steps == run.steps
  {
    match run.phase
    case Executing(i) =>
      if reply.Returns? {
        ForwardSucceeds(run);
      } else {
        ForwardFails(run);
        CompensateInv(
          run.(log := run.log + [Exchange(Awaited(run), reply)],
               records := run.records + [Record(run.steps[i].name, StepFailed)], status := COMPENSATING, failedAt := i), i, i);
      }
    case Compensating(j) =>
      BackwardStep(run, reply);
      CompensateInv(Compensated(run, reply), run.failedAt, j);
  }

  // --- Many runs ---

  // A step of the whole system: a run begins, or one of the pending awaits is answered.
  datatype Event = Starts(id: string, saga: string) | Answers(id: string, reply: Reply)

  ghost predicate Enabled(runs: map<string, Run>, registry: map<string, seq<SagaStep>>, ev: Event) {
    match ev
    case Starts(id, saga) => id !in runs && saga in registry
    case Answers(id, _) => id in runs && Awaiting(runs[id])
  }

  ghost function Next(runs: map<string, Run>, registry: map<string, seq<SagaStep>>, ev: Event): map<string, Run>
    requires Enabled(runs, registry, ev)
  {
    match ev
    case Starts(id, saga) => runs[id := Begin(registry[saga])]
    case Answers(id, reply) => runs[id := Resume(runs[id], reply)]
  }

  ghost predicate Leads(runs: seq<map<string, Run>>, registry: map<string, seq<SagaStep>>, evs: seq<Event>) {
    && |runs| == |evs| + 1 && runs[0] == map[]
    && forall i :: 0 <= i < |evs| ==>
         Enabled(runs[i], registry, evs[i]) && runs[i + 1] == Next(runs[i], registry, evs[i])
  }

  // Main result: over any interleaving of any number of runs of a closed registry, every run in
  // every reachable state satisfies the invariant, and is over or awaits an answer.
  lemma {:induction false} EveryRunInEveryState(
    states: seq<map<string, Run>>, registry: map<string, seq<SagaStep>>, evs: seq<Event>, n: nat, id: string)
    requires Leads(states, registry, evs) && n < |states| && id in states[n]
    ensures Inv(states[n][id])
    ensures !states[n][id].phase.Finished? ==> Awaiting(states[n][id])
    decreases n
  {
    if n > 0 {
      var before, ev := states[n - 1], evs[n - 1];
      assert Enabled(before, registry, ev) && states[(n - 1) + 1] == Next(before, registry, ev);
      if ev.id != id {
        EveryRunInEveryState(states, registry, evs, n - 1, id);
      } else if ev.Answers? {
        EveryRunInEveryState(states, registry, evs, n - 1, id);
        ResumeInv(before[id], ev.reply);
      } else {
        BeginInv(registry[ev.saga]);
      }
    }
  }

  // What the invariant says of a run that is over, and of one that is compensating.
  lemma {:induction false} FinishedRun(run: Run)
    requires Inv(run) && run.phase.Finished?
    ensures run.status == COMPLETED || run.status == ABORTED
    ensures run.status == COMPLETED ==> Calls(run.log) == Dos(run.steps, |run.steps|)
    ensures run.status == ABORTED ==>
              && run.failedAt < |run.steps|
              && Calls(run.log) == Dos(run.steps, run.failedAt + 1) + Undos(run.steps, run.failedAt, 0)
    ensures forall i :: 0 <= i < |run.log| && run.log[i].call.Do? ==>
              (run.log[i].reply.Throws? <==> run.status == ABORTED && i == run.failedAt)
  {
    if run.status == ABORTED {
      var f := run.failedAt;
      forall i | f < i < |run.log| ensures run.log[i].call.Undo? {
        assert Calls(run.log)[i] == Undos(run.steps, f, 0)[i - (f + 1)];
        UndosRange(run.steps, f, 0, run.log[i].call);
      }
    } else {
      assert |Calls(run.log)| == |run.log|;
    }
  }

  lemma {:induction false} CompensatingRun(run: Run)
    requires Inv(run) && run.status == COMPENSATING
    ensures run.phase.Compensating?
    ensures var j, f := run.phase.j, run.failedAt;
            && j < f < |run.records| == f + 1 && run.records[f].status == StepFailed
            && RecordsBooked(run.steps, run.log, run.records, f)
            && UndoneOnlyIn(run.steps, run.log, j + 1, f)
  {
    BackwardRun(run, run.failedAt, run.phase.j + 1);
  }

  lemma BackwardRun(run: Run, f: nat, j: nat)
    requires Backward(run, f, j)
    ensures f < |run.records| == f + 1 && run.records[f].status == StepFailed
    ensures RecordsBooked(run.steps, run.log, run.records, f) && UndoneOnlyIn(run.steps, run.log, j, f)
  {
    UndoneRanges(run.steps, run.log, f, j);
  }

  ghost predicate UndoneOnlyIn(steps: seq<SagaStep>, log: seq<Exchange>, lo: nat, hi: nat) {
    forall l: nat :: Undone(log, l) ==> lo <= l < hi && l < |steps| && Declares(steps[l])
  }

  lemma UndoneRanges(steps: seq<SagaStep>, log: seq<Exchange>, f: nat, j: nat)
    requires j <= f < |steps| && BackwardTrace(steps, log, f, j)
    ensures UndoneOnlyIn(steps, log, j, f)
  {
    forall l: nat | Undone(log, l) ensures j <= l < f && Declares(steps[l]) { UndoneRange(steps, log, f, j, l); }
  }

  // --- When the records can be believed ---

  // A record says COMPENSATED exactly when the compensation of its own step returned.
  ghost predicate Truthful(run: Run) {
    forall l :: 0 <= l < |run.records| ==> (run.records[l].status == StepCompensated <==> Undone(run.log, l))
  }

  // No step with a compensation has the name of an earlier step; the last step is never compensated.
  ghost predicate CompensableAreFirst(steps: seq<SagaStep>) {
    forall l :: 0 <= l < |steps| - 1 && Declares(steps[l]) ==> FirstOfName(steps, l)
  }

  lemma {:induction false} TruthfulWhenFirst(run: Run)
    requires Inv(run) && CompensableAreFirst(run.steps)
    ensures Truthful(run)
  {
    if run.phase.Compensating? || run.status == ABORTED {
      var f := run.failedAt;
      var j := if run.phase.Compensating? then run.phase.j + 1 else 0;
      forall l | 0 <= l <= f ensures run.records[l].status == StepCompensated <==> Undone(run.log, l) {
        BookedIsUndone(run, f, j, l);
      }
    } else {
      NothingUndone(run, |run.records|);
    }
  }

  lemma NothingUndone(run: Run, i: nat)
    requires Forward(run, i)
    ensures forall l: nat :: !Undone(run.log, l)
  {
    assert |Calls(run.log)| == |run.log|;
    forall n | 0 <= n < |run.log| ensures run.log[n].call.Do? {
      assert Calls(run.log)[n] == run.log[n].call;
    }
  }

  lemma BookedIsUndone(run: Run, f: nat, j: nat, l: nat)
    requires Backward(run, f, j) && CompensableAreFirst(run.steps) && l <= f
    ensures run.records[l].status == StepCompensated <==> Undone(run.log, l)
  {
    if l < f && Booked(run.steps, run.log, l) {
      var m :| UndoneAs(run.steps, run.log, l, m);
      UndoneRange(run.steps, run.log, f, j, m);
      assert FirstOfName(run.steps, m);
    }
    if Undone(run.log, l) {
      UndoneRange(run.steps, run.log, f, j, l);
      assert UndoneAs(run.steps, run.log, l, l);
    }
  }

  // With distinct names: up to position j every record is still COMPLETED, beyond it those whose
  // compensation returned are COMPENSATED.
  lemma {:induction false} CompensatingWithDistinctNames(run: Run)
    requires Inv(run) && run.status == COMPENSATING
    requires forall l :: 0 <= l < |run.steps| ==> FirstOfName(run.steps, l)
    ensures forall l :: 0 <= l < run.failedAt ==>
              run.records[l].status ==
              if l > run.phase.j && Undone(run.log, l) then StepCompensated else StepCompleted
  {
    TruthfulWhenFirst(run);
    CompensatingRun(run);
  }
}
