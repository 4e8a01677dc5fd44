// A run driven to its end in a world it acts on, and what an aborted run leaves behind.
module SagaRollback {
  import opened SagaSteps
  import opened SagaRun

  // How the world answers a call, and what the call does to it.  Any environment is an instance:
  // W may hold the whole history and whatever other runs do meanwhile.
  type World<!W> = (W, Call) -> (Reply, W)

  ghost function Remaining(run: Run): nat {
    match run.phase
    case Executing(i) => if i <= |run.steps| then 2 * |run.steps| + 1 - i else 0
    case Compensating(j) => j + 1
    case Finished => 0
  }

  lemma {:induction false} CompensateProgress(run: Run, j: nat)
    requires j <= |run.steps|
    ensures var c := Compensate(run, j);
            && c.steps == run.steps && c.log == run.log && c.records == run.records && c.failedAt == run.failedAt
            && (c.phase.Finished? || (Awaiting(c) && c.phase.Compensating? && c.phase.j < j))
    decreases j
  {
    if j > 0 && !Declares(run.steps[j - 1]) { CompensateProgress(run, j - 1); }
  }

  lemma ResumeProgress(run: Run, reply: Reply)
    requires Awaiting(run)
    ensures var next := Resume(run, reply);
            && next.steps == run.steps
            && (next.phase.Finished? || Awaiting(next))
            && Remaining(next) < Remaining(run)
  {
    var run1 := run.(log := run.log + [Exchange(Awaited(run), reply)]);
    match run.phase
    case Executing(i) =>
      if reply.Throws? {
        CompensateProgress(
          run1.(records := run.records + [Record(run.steps[i].name, StepFailed)], status := COMPENSATING, failedAt := i), i);
      }
    case Compensating(j) =>
      CompensateProgress(run1, j);
      CompensateProgress(run1.(records := MarkCompensated(run.records, run.steps[j].name)), j);
  }

  // The run to its end.
  ghost function Drive<W>(run: Run, w: W, act: World<W>): (Run, W)
    requires run.phase.Finished? || Awaiting(run)
    decreases Remaining(run)
  {
    if run.phase.Finished? then (run, w)
    else
      var (reply, w') := act(w, Awaited(run));
      ResumeProgress(run, reply);
      Drive(Resume(run, reply), w', act)
  }

  lemma {:induction false} DriveFinishes<W>(run: Run, w: W, act: World<W>)
    requires Inv(run) && (run.phase.Finished? || Awaiting(run))
    ensures var (end, _) := Drive(run, w, act); Inv(end) && end.phase.Finished? && end.steps == run.steps
    decreases Remaining(run)
  {
    if !run.phase.Finished? {
      var (reply, w') := act(w, Awaited(run));
      ResumeProgress(run, reply);
      ResumeInv(run, reply);
      DriveFinishes(Resume(run, reply), w', act);
    }
  }

  // Main result: the calls of a run, in any world.  The steps in order up to the first that
  // throws, then the declared compensations of the ones before it, last first, past any that
  // throw; and the run ends COMPLETED or ABORTED.
  lemma {:induction false} TraceOfStart<W>(steps: seq<SagaStep>, w: W, act: World<W>)
    ensures var (end, _) := Drive(Begin(steps), w, act);
            && (end.status == COMPLETED ==> Calls(end.log) == Dos(steps, |steps|))
            && (end.status != COMPLETED ==>
                  && end.status == ABORTED && end.failedAt < |steps|
                  && Calls(end.log) == Dos(steps, end.failedAt + 1) + Undos(steps, end.failedAt, 0))
            && (forall i :: 0 <= i < |end.log| && end.log[i].call.Do? ==>
                  (end.log[i].reply.Throws? <==> end.status == ABORTED && i == end.failedAt))
  {
    DriveFinishes(Begin(steps), w, act);
    FinishedRun(Drive(Begin(steps), w, act).0);
  }

  // --- The records at the end, when names repeat ---

  ghost predicate TruthfulIn(steps: seq<SagaStep>, act: World<()>) {
    Truthful(Drive(Begin(steps), (), act).0)
  }

  // Main result: the records tell in every world which steps were compensated exactly when no
  // step that can be compensated has the name of an earlier one.
  lemma {:induction false} RecordsTruthfulIff(steps: seq<SagaStep>)
    ensures CompensableAreFirst(steps) <==> forall act: World<()> :: TruthfulIn(steps, act)
  {
    if CompensableAreFirst(steps) {
      forall act: World<()> ensures TruthfulIn(steps, act) {
        DriveFinishes(Begin(steps), (), act);
        TruthfulWhenFirst(Drive(Begin(steps), (), act).0);
      }
    } else {
      var l: nat :| l < |steps| - 1 && Declares(steps[l]) && !FirstOfName(steps, l);
      LastThrowsMisrecords(steps, l);
      var act: World<()> := LastThrows(|steps|);
      assert !TruthfulIn(steps, act);
    }
  }

  ghost function LastThrows(n: nat): World<()> {
    (w: (), c: Call) => (if c.Do? && c.i == n - 1 then Throws else Returns, ())
  }

  ghost predicate Answered(log: seq<Exchange>, act: World<()>) {
    forall n :: 0 <= n < |log| ==> log[n].reply == act((), log[n].call).0
  }

  lemma {:induction false} DriveAnswers(run: Run, act: World<()>)
    requires run.phase.Finished? || Awaiting(run)
    requires Answered(run.log, act)
    ensures Answered(Drive(run, (), act).0.log, act)
    decreases Remaining(run)
  {
    if !run.phase.Finished? {
      var (reply, w) := act((), Awaited(run));
      assert w == ();
      DriveStep(run, (), act);
      ResumeLog(run, reply);
      assert Answered(Resume(run, reply).log, act);
      ResumeProgress(run, reply);
      DriveAnswers(Resume(run, reply), act);
    }
  }

  lemma ResumeLog(run: Run, reply: Reply)
    requires Awaiting(run)
    ensures Resume(run, reply).log == run.log + [Exchange(Awaited(run), reply)]
  {
    var run1 := run.(log := run.log + [Exchange(Awaited(run), reply)]);
    match run.phase
    case Executing(i) =>
      if reply.Throws? {
        CompensateProgress(
          run1.(records := run.records + [Record(run.steps[i].name, StepFailed)], status := COMPENSATING, failedAt := i), i);
      }
    case Compensating(j) =>
      CompensateProgress(run1, j);
      CompensateProgress(run1.(records := MarkCompensated(run.records, run.steps[j].name)), j);
  }

  lemma {:induction false} UndosHolds(steps: seq<SagaStep>, hi: nat, lo: nat, l: nat)
    requires lo <= l < hi <= |steps| && Declares(steps[l])
    ensures Undo(l, steps[l].compensate) in Undos(steps, hi, lo)
    decreases hi - lo
  {
    if lo < l { UndosHolds(steps, hi, lo + 1, l); }
  }

  lemma LastThrowsMisrecords(steps: seq<SagaStep>, l: nat)
    requires l < |steps| - 1 && Declares(steps[l]) && !FirstOfName(steps, l)
    ensures !TruthfulIn(steps, LastThrows(|steps|))
  {
    var act := LastThrows(|steps|);
    var end := Drive(Begin(steps), (), act).0;
    DriveFinishes(Begin(steps), (), act);
    DriveAnswers(Begin(steps), act);
    FailsAtLast(steps, end);
    UndosHolds(steps, end.failedAt, 0, l);
    AnsweredUndo(end.log, act, l, steps[l].compensate);
    assert !Booked(steps, end.log, l);
    assert end.records[l].status == StepCompleted;
  }

  lemma AnsweredUndo(log: seq<Exchange>, act: World<()>, l: nat, callee: string)
    requires Answered(log, act) && Undo(l, callee) in Calls(log) && act((), Undo(l, callee)).0.Returns?
    ensures Undone(log, l)
  {
    var n :| 0 <= n < |Calls(log)| && Calls(log)[n] == Undo(l, callee);
    assert log[n].call == Undo(l, callee);
  }

  lemma FailsAtLast(steps: seq<SagaStep>, end: Run)
    requires Inv(end) && end.phase.Finished? && end.steps == steps && steps != []
    requires Answered(end.log, LastThrows(|steps|))
    ensures end.status == ABORTED && end.failedAt == |steps| - 1
    ensures Calls(end.log) == Dos(steps, |steps|) + Undos(steps, end.failedAt, 0)
  {
    FinishedRun(end);
    var last := |steps| - 1;
    if end.status == COMPLETED {
      DoAnswered(steps, end.log, last);
      assert false;
    }
    DoAnswered(steps, end.log, end.failedAt);
  }

  lemma DoAnswered(steps: seq<SagaStep>, log: seq<Exchange>, i: nat)
    requires Answered(log, LastThrows(|steps|)) && i < |steps| && Dos(steps, i + 1) <= Calls(log)
    ensures i < |log| && log[i].call == Do(i, steps[i].name)
    ensures log[i].reply.Throws? <==> i == |steps| - 1
  {
    assert Dos(steps, i + 1)[i] == Calls(log)[i] == log[i].call;
  }

  // --- The calls of a run, in terms of its steps ---

  // The compensations of the first f steps that have one, last first.
  ghost predicate Backwards(steps: seq<SagaStep>, f: nat, calls: seq<Call>, at: seq<nat>) {
    && |calls| == |at|
    && (forall n :: 0 <= n < |at| ==>
          at[n] < f && at[n] < |steps| && steps[at[n]].compensate != "" && calls[n] == Undo(at[n], steps[at[n]].compensate))
    && (forall m, n :: 0 <= m < n < |at| ==> at[m] > at[n])
  }

  lemma {:induction false} UndosAt(steps: seq<SagaStep>, hi: nat, lo: nat) returns (at: seq<nat>)
    requires lo <= hi <= |steps|
    ensures Backwards(steps, hi, Undos(steps, hi, lo), at)
    ensures forall i :: i in at ==> lo <= i
    ensures forall i :: lo <= i < hi && steps[i].compensate != "" ==> i in at
    decreases hi - lo
  {
    at := [];
    if lo < hi {
      at := UndosAt(steps, hi, lo + 1);
      if steps[lo].compensate != "" {
        BackwardsMore(steps, hi, Undos(steps, hi, lo + 1), at, lo);
        at := at + [lo];
      }
    }
  }

  lemma {:induction false} BackwardsMore(steps: seq<SagaStep>, f: nat, calls: seq<Call>, at: seq<nat>, lo: nat)
    requires Backwards(steps, f, calls, at) && lo < f <= |steps| && steps[lo].compensate != ""
    requires forall i :: i in at ==> lo < i
    ensures Backwards(steps, f, calls + [Undo(lo, steps[lo].compensate)], at + [lo])
    ensures forall i :: i in at + [lo] <==> i in at || i == lo
  {
    forall n | 0 <= n < |at| ensures at[n] > lo { assert at[n] in at; }
  }

  // What was called: each step up to the one that threw or the last, and then the compensations.
  ghost predicate CalledAsDeclared(steps: seq<SagaStep>, end: Run, at: seq<nat>) {
    var n := if end.status == COMPLETED then |steps| else end.failedAt + 1;
    && n <= |steps| && |end.log| == n + |at|
    && (forall i :: 0 <= i < n ==> end.log[i].call == Do(i, steps[i].name))
    && (forall i :: 0 <= i < n ==> (end.log[i].reply.Throws? <==> end.status != COMPLETED && i == end.failedAt))
    && Backwards(steps, n - if end.status == COMPLETED then 0 else 1, Calls(end.log)[n..], at)
  }

  // Main result: a run that completes has called every step once, in order; one that is aborted
  // has called the steps up to the first that threw, and then the compensation of every earlier
  // step that has one, last first, whatever they answered.
  lemma {:induction false} RunCallsAsDeclared<W>(steps: seq<SagaStep>, w: W, act: World<W>) returns (at: seq<nat>)
    ensures var end := Drive(Begin(steps), w, act).0;
            && (end.status == COMPLETED || end.status == ABORTED) && CalledAsDeclared(steps, end, at)
            && (end.status == COMPLETED ==> at == [])
            && (end.status == ABORTED ==>
                  forall i :: 0 <= i < end.failedAt && steps[i].compensate != "" ==> i in at)
  {
    var end := Drive(Begin(steps), w, act).0;
    DriveFinishes(Begin(steps), w, act);
    FinishedRun(end);
    at := [];
    var n := if end.status == COMPLETED then |steps| else end.failedAt + 1;
    if end.status == ABORTED { at := UndosAt(steps, end.failedAt, 0); }
    assert Calls(end.log)[n..] == if end.status == COMPLETED then [] else Undos(steps, end.failedAt, 0);
    assert |Calls(end.log)| == |end.log|;
    forall i | 0 <= i < n ensures end.log[i].call == Do(i, steps[i].name) {
      assert Calls(end.log)[i] == end.log[i].call && Dos(steps, n)[i] == Do(i, steps[i].name);
    }
  }

  // Every step declares a compensation; compensating right after a step that returned brings the
  // world back and does not throw; a step that throws changes nothing.
  ghost predicate Invertible<W(!new)>(steps: seq<SagaStep>, act: World<W>) {
    && (forall i :: 0 <= i < |steps| ==> steps[i].compensate != "")
    && (forall i, w :: 0 <= i < |steps| ==> InvertibleAt(steps, act, i, w))
  }

  ghost predicate InvertibleAt<W>(steps: seq<SagaStep>, act: World<W>, i: nat, w: W)
    requires i < |steps|
  {
    var (reply, w') := act(w, Do(i, steps[i].name));
    if reply.Returns? then act(w', Undo(i, steps[i].compensate)) == (Returns, w) else w' == w
  }

  // The world after the first n steps.
  ghost function Worlds<W>(steps: seq<SagaStep>, w: W, act: World<W>, n: nat): W
    requires n <= |steps|
  {
    if n == 0 then w else act(Worlds(steps, w, act, n - 1), Do(n - 1, steps[n - 1].name)).1
  }

  ghost predicate Returned<W>(steps: seq<SagaStep>, w: W, act: World<W>, n: nat)
    requires n <= |steps|
  {
    forall i {:trigger Worlds(steps, w, act, i)} ::
      0 <= i < n ==> act(Worlds(steps, w, act, i), Do(i, steps[i].name)).0.Returns?
  }

  lemma DriveStep<W>(run: Run, w: W, act: World<W>)
    requires Awaiting(run)
    ensures var (reply, w') := act(w, Awaited(run));
            var next := Resume(run, reply);
            (next.phase.Finished? || Awaiting(next)) && Drive(run, w, act) == Drive(next, w', act)
  {
    ResumeProgress(run, act(w, Awaited(run)).0);
  }

  lemma {:induction false} BackToStart<W(!new)>(run: Run, j: nat, w0: W, w: W, act: World<W>)
    requires Invertible(run.steps, act) && run.phase == Compensating(j) && j < |run.steps|
    requires Returned(run.steps, w0, act, j + 1) && w == Worlds(run.steps, w0, act, j + 1)
    ensures Drive(run, w, act).0.status == ABORTED && Drive(run, w, act).1 == w0
    decreases j
  {
    var before := Worlds(run.steps, w0, act, j);
    assert act(w, Awaited(run)) == (Returns, before) by {
      assert act(before, Do(j, run.steps[j].name)).0.Returns?;
      assert InvertibleAt(run.steps, act, j, before);
    }
    var next := Resume(run, Returns);
    DriveStep(run, w, act);
    if j > 0 {
      assert next.phase == Compensating(j - 1) by { assert Declares(run.steps[j - 1]); }
      BackToStart(next, j - 1, w0, before, act);
    }
  }

  lemma ThrowNext(run: Run)
    requires run.phase.Executing? && Awaiting(run)
    requires run.phase.i > 0 ==> Declares(run.steps[run.phase.i - 1])
    ensures var next := Resume(run, Throws);
            && next.steps == run.steps
            && if run.phase.i == 0 then next.phase.Finished? && next.status == ABORTED
               else next.phase == Compensating(run.phase.i - 1)
  {}

  lemma ThrowRestores<W(!new)>(run: Run, i: nat, w0: W, w: W, act: World<W>)
    requires Invertible(run.steps, act) && run.phase == Executing(i) && i < |run.steps|
    requires Returned(run.steps, w0, act, i) && w == Worlds(run.steps, w0, act, i)
    requires act(w, Do(i, run.steps[i].name)) == (Throws, w)
    ensures Drive(run, w, act).0.status == ABORTED && Drive(run, w, act).1 == w0
  {
    if i > 0 { assert Declares(run.steps[i - 1]); }
    ThrowNext(run);
    DriveStep(run, w, act);
    if i > 0 { BackToStart(Resume(run, Throws), i - 1, w0, w, act); }
  }

  lemma {:induction false} RollbackFrom<W(!new)>(run: Run, w0: W, act: World<W>)
    requires Invertible(run.steps, act) && run.phase.Executing? && Awaiting(run)
    requires Returned(run.steps, w0, act, run.phase.i)
    ensures var (end, w) := Drive(run, Worlds(run.steps, w0, act, run.phase.i), act);
            || (end.status == ABORTED && w == w0)
            || (end.status == COMPLETED && w == Worlds(run.steps, w0, act, |run.steps|))
    decreases |run.steps| - run.phase.i
  {
    var i := run.phase.i;
    var w := Worlds(run.steps, w0, act, i);
    var (reply, w') := act(w, Awaited(run));
    if reply.Throws? {
      assert InvertibleAt(run.steps, act, i, w);
      ThrowRestores(run, i, w0, w, act);
    } else {
      ResumeProgress(run, Returns);
      var next := Resume(run, Returns);
      assert Drive(run, w, act) == Drive(next, w', act);
      assert w' == Worlds(run.steps, w0, act, i + 1);
      if i + 1 < |run.steps| { RollbackFrom(next, w0, act); }
    }
  }

  // Main result: an aborted run leaves the world as it found it, wherever it failed; names may
  // repeat.
  lemma {:induction false} RollbackRestores<W(!new)>(steps: seq<SagaStep>, w0: W, act: World<W>)
    requires Invertible(steps, act)
    ensures var (end, w) := Drive(Begin(steps), w0, act);
            || (end.status == ABORTED && w == w0)
            || (end.status == COMPLETED && w == Worlds(steps, w0, act, |steps|))
  {
    if steps != [] { RollbackFrom(Begin(steps), w0, act); }
  }
}
