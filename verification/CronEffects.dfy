// What the events of the cron service do, job field by job field.
module CronEffects {
  import opened CronState
  import opened Options

  // A job that is idle may run when it has no limit or has not reached it; a negative limit, which
  // is not falsy, is reached at once.
  ghost predicate MayRun(j: Job) {
    !j.isRunning && (j.options.maxRuns == 0 || j.runCount < j.options.maxRuns)
  }

  ghost predicate Exhausted(j: Job) {
    !j.isRunning && j.options.maxRuns != 0 && j.runCount >= j.options.maxRuns
  }

  // Main result: in every history a tick of an idle job begins exactly one run, or stops the job
  // for good when its limit is reached; a tick of a running job does nothing.
  lemma {:induction false} EveryTick(states: seq<Service>, evs: seq<Event>, n: nat, h: nat)
    requires History(states, evs) && n < |evs| && evs[n] == Tick(h)
    ensures TickOf(states[n], states[n + 1], h)
  {
    EveryStateIsSafe(states, evs, n);
    TickRuns(states[n], h);
  }

  ghost predicate TickOf(s: Service, s': Service, h: nat) {
    && h in s.live && s.live[h] < |s.jobs|
    && var id := s.live[h];
       var j := s.jobs[id];
       && (MayRun(j) ==>
             s' == s.(jobs := s.jobs[id := j.(isRunning := true, runCount := j.runCount + 1)],
                      log := s.log + [Began(id)]))
       && (Exhausted(j) ==> s' == s.(jobs := s.jobs[id := j.(task := None)], live := s.live - {h}))
       && (j.isRunning ==> s' == s)
  }

  lemma TickRuns(s: Service, h: nat)
    requires Safe(s) && Enabled(s, Tick(h))
    ensures TickOf(s, Next(s, Tick(h)), h)
  {
    var id := s.live[h];
    LiveJob(s, h);
    assert s.jobs[id := s.jobs[id]] == s.jobs;
  }

  // --- Registering ---

  // Whether a new job begins a run at once, and whether it is left with a schedule.
  ghost predicate RunsAtOnce(options: CronOptions) {
    options.enabled && options.runOnInit && options.maxRuns >= 0
  }

  ghost predicate IsScheduled(options: CronOptions) {
    options.enabled && (options.runOnInit ==> options.maxRuns >= 0)
  }

  // Job `id` is new in s'; `handles` is the schedule it would get.
  ghost predicate IsNewJob(s: Service, s': Service, name: string, options: CronOptions) {
    var id := |s.jobs|;
    && |s'.jobs| == id + 1 && s'.table == s.table[name := id]
    && s'.jobs[id] == Job(name, options, if IsScheduled(options) then Some(s.handles) else None,
                          RunsAtOnce(options), if RunsAtOnce(options) then 1 else 0, options.enabled)
    && (forall h :: h in s'.live && s'.live[h] == id <==> IsScheduled(options) && h == s.handles)
    && s'.log == if RunsAtOnce(options) then s.log + [Began(id)] else s.log
  }

  // Main result: registering makes one new job, and the old one of its name is stopped; the new one
  // has exactly one live schedule if it is enabled, unless a run at once finds a negative limit; it
  // begins one run if it is to run at once.  With an invalid expression the old job is gone.
  lemma {:induction false} RegisterMakesOne(s: Service, name: string, options: CronOptions)
    requires Safe(s)
    ensures var s' := Next(s, RegisterJob(name, options, true)); IsNewJob(s, s', name, options) && StopsOld(s, s', name)
    ensures var s' := Next(s, RegisterJob(name, options, false));
            && |s'.jobs| == |s.jobs| && s'.table == s.table - {name} && s'.log == s.log && StopsOld(s, s', name)
  {
    DeleteSafe(s, name);
    DeletedState(s, name);
    CreatedState(Delete(s, name), name, options);
    NewAfterDelete(s, Delete(s, name), Next(s, RegisterJob(name, options, true)), name, options);
  }

  lemma NewAfterDelete(s: Service, s1: Service, s': Service, name: string, options: CronOptions)
    requires IsNewJob(s1, s', name, options) && forall i :: 0 <= i < |s1.jobs| ==> s'.jobs[i] == s1.jobs[i]
    requires |s1.jobs| == |s.jobs| && s1.handles == s.handles && s1.log == s.log && s1.table == s.table - {name}
    requires StopsOld(s, s1, name)
    ensures IsNewJob(s, s', name, options) && StopsOld(s, s', name)
  {
    assert (s.table - {name})[name := |s.jobs|] == s.table[name := |s.jobs|];
  }

  lemma CreatedState(s: Service, name: string, options: CronOptions)
    requires Safe(s) && name !in s.table
    ensures var s2 := Add(s, name, options);
            var s' := if options.enabled then StartId(s2, |s.jobs|) else s2;
            IsNewJob(s, s', name, options) && forall i :: 0 <= i < |s.jobs| ==> s'.jobs[i] == s.jobs[i]
  {
    NoScheduleYet(s);
    StartIdAtOnce(Add(s, name, options), |s.jobs|);
  }

  lemma NoScheduleYet(s: Service)
    requires LiveSafe(s)
    ensures s.handles !in s.live && forall h :: h in s.live ==> s.live[h] < |s.jobs|
  {}

  // The job that had the name holds no schedule any more; no other job changed.
  ghost predicate StopsOld(s: Service, s': Service, name: string) {
    |s.jobs| <= |s'.jobs| && forall i :: 0 <= i < |s.jobs| ==>
      s'.jobs[i] == if name in s.table && s.table[name] == i then s.jobs[i].(task := None) else s.jobs[i]
  }

  lemma DeletedState(s: Service, name: string)
    requires Safe(s)
    ensures var s' := Delete(s, name);
            && |s'.jobs| == |s.jobs| && s'.handles == s.handles && s'.log == s.log && s'.table == s.table - {name}
            && StopsOld(s, s', name)
  {
    if name !in s.table { assert s.table - {name} == s.table; }
  }

  // --- Control calls ---

  ghost function WithoutSchedule(s: Service, j: Job): map<nat, nat> {
    if j.task.Some? then s.live - {j.task.value} else s.live
  }

  // Main result: what stopping, enabling, disabling and deleting a known job change.
  lemma {:induction false} ControlCalls(s: Service, name: string)
    requires Safe(s) && name in s.table
    ensures var id := s.table[name];
            && id < |s.jobs|
            && var j := s.jobs[id];
               && Next(s, StopJob(name)) == s.(jobs := s.jobs[id := j.(task := None)], live := WithoutSchedule(s, j))
               && Next(s, EnableJob(name)) == s.(jobs := s.jobs[id := j.(enabled := true)])
               && Next(s, DisableJob(name)) ==
                  s.(jobs := s.jobs[id := j.(enabled := false, task := None)], live := WithoutSchedule(s, j))
               && Next(s, DeleteJob(name)) ==
                  s.(jobs := s.jobs[id := j.(task := None)], live := WithoutSchedule(s, j), table := s.table - {name})
  {}

  // Starting a known job: nothing if it is scheduled or disabled; else a schedule and, with
  // `runOnInit`, what a tick would do.
  lemma {:induction false} StartSchedules(s: Service, name: string)
    requires Safe(s) && name in s.table
    ensures var id, s' := s.table[name], Next(s, StartJob(name));
            && id < |s.jobs|
            && var j := s.jobs[id];
               var runs, ends := j.options.runOnInit && MayRun(j), j.options.runOnInit && Exhausted(j);
               if j.task.Some? || !j.enabled then s' == s
               else
                 && s'.jobs == s.jobs[id := j.(task := if ends then None else Some(s.handles),
                                              isRunning := j.isRunning || runs,
                                              runCount := if runs then j.runCount + 1 else j.runCount)]
                 && s'.live == (if ends then s.live else s.live[s.handles := id])
                 && s'.log == (if runs then s.log + [Began(id)] else s.log)
                 && s'.table == s.table
  {
    var id := s.table[name];
    StartIdAtOnce(s, id);
    NoScheduleYet(s);
    assert s.live - {s.handles} == s.live;
  }
}
