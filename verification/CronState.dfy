// The cron service as a state machine.  An execution is two steps, its beginning and its end;
// in between, timers fire, other jobs run and control calls come in, also from the callback.
module CronState {
  import opened Options

  // `maxRuns` 0 stands for an absent limit, which is as falsy.
  datatype CronOptions = CronOptions(enabled: bool, maxRuns: int, runOnInit: bool)

  // `task` is the handle of the node-cron schedule the job holds.
  datatype Job = Job(
    name: string, options: CronOptions, task: Option<nat>, isRunning: bool, runCount: nat, enabled: bool)

  function NewJob(name: string, options: CronOptions): Job {
    Job(name, options, None, false, 0, options.enabled)
  }

  predicate LimitReached(j: Job) {
    j.options.maxRuns != 0 && j.runCount >= j.options.maxRuns
  }

  // `execute` up to its await.
  function Execute(j: Job): Job {
    if j.isRunning then j
    else if LimitReached(j) then j.(task := None)
    else j.(isRunning := true, runCount := j.runCount + 1)
  }

  // `start`, given the handle a new schedule would get.
  function Start(j: Job, handle: nat): Job {
    if j.task.Some? || !j.enabled then j
    else if j.options.runOnInit then Execute(j.(task := Some(handle)))
    else j.(task := Some(handle))
  }

  predicate Schedules(j: Job) {
    j.task.None? && j.enabled
  }

  function Stop(j: Job): Job {
    j.(task := None)
  }

  function Disable(j: Job): Job {
    Stop(j.(enabled := false))
  }

  // --- The service: all jobs ever made, the map of current ones, the live schedules ---

  datatype Effect = Began(id: nat) | Ended(id: nat)

  // `live` is node-cron's side: which schedule is live, and which job its callback executes.
  // `log` is not in the program: the executions so far.
  datatype Service = Service(
    jobs: seq<Job>, table: map<string, nat>, live: map<nat, nat>, handles: nat, log: seq<Effect>)

  const EMPTY := Service([], map[], map[], 0, [])

  datatype Event =
    | Tick(handle: nat)
    | Completes(id: nat)
    | RegisterJob(name: string, options: CronOptions, valid: bool)
    | DeleteJob(name: string)
    | StartJob(name: string)
    | StopJob(name: string)
    | EnableJob(name: string)
    | DisableJob(name: string)
    | StopAll
    | ClearAll

  // A schedule fires only while it is live; only a running execution ends.
  ghost predicate Enabled(s: Service, ev: Event) {
    match ev
    case Tick(h) => h in s.live && s.live[h] < |s.jobs|
    case Completes(id) => id < |s.jobs| && s.jobs[id].isRunning
    case _ => true
  }

  // Replaces job `id`, drops the schedule it gave up and records an execution it began.
  ghost function Put(s: Service, id: nat, j: Job): Service
    requires id < |s.jobs|
  {
    var before := s.jobs[id];
    s.(jobs := s.jobs[id := j],
       live := if before.task.Some? && j.task.None? then s.live - {before.task.value} else s.live,
       log := if j.runCount > before.runCount then s.log + [Began(id)] else s.log)
  }

  // `task = schedule(...)`, which the start of a job may follow with its first execution.
  ghost function Schedule(s: Service, id: nat): Service
    requires id < |s.jobs|
  {
    s.(jobs := s.jobs[id := s.jobs[id].(task := Some(s.handles))],
       live := s.live[s.handles := id], handles := s.handles + 1)
  }

  ghost function StartId(s: Service, id: nat): Service
    requires id < |s.jobs|
  {
    if !Schedules(s.jobs[id]) then s
    else
      var s1 := Schedule(s, id);
      if s.jobs[id].options.runOnInit then Put(s1, id, Execute(s1.jobs[id])) else s1
  }

  ghost predicate Known(s: Service, name: string) {
    name in s.table && s.table[name] < |s.jobs|
  }

  ghost function Delete(s: Service, name: string): Service {
    if !Known(s, name) then s
    else
      var id := s.table[name];
      Put(s, id, Stop(s.jobs[id])).(table := s.table - {name})
  }

  ghost function Add(s: Service, name: string, options: CronOptions): Service {
    s.(jobs := s.jobs + [NewJob(name, options)], table := s.table[name := |s.jobs|])
  }

  ghost predicate InTable(s: Service, id: nat) {
    id < |s.jobs| && s.jobs[id].name in s.table && s.table[s.jobs[id].name] == id
  }

  // Stops the current jobs of some names.
  ghost function StopNames(s: Service, names: set<string>): Service {
    s.(jobs := seq(|s.jobs|, i requires 0 <= i < |s.jobs| =>
         if InTable(s, i) && s.jobs[i].name in names then Stop(s.jobs[i]) else s.jobs[i]),
       live := map h | h in s.live && !StopsSchedule(s, names, h) :: s.live[h])
  }

  ghost predicate StopsSchedule(s: Service, names: set<string>, h: nat)
    requires h in s.live
  {
    InTable(s, s.live[h]) && s.jobs[s.live[h]].name in names
  }

  // Stops the current job of every name.
  ghost function StopEvery(s: Service): Service {
    StopNames(s, s.table.Keys)
  }

  ghost function Next(s: Service, ev: Event): Service
    requires Enabled(s, ev)
  {
    match ev
    case Tick(h) => Put(s, s.live[h], Execute(s.jobs[s.live[h]]))
    case Completes(id) => Put(s, id, s.jobs[id].(isRunning := false)).(log := s.log + [Ended(id)])
    case RegisterJob(name, options, valid) =>
      var s1 := Delete(s, name);
      // An invalid expression throws once the old job is gone.
      if !valid then s1
      else
        var s2 := Add(s1, name, options);
        if options.enabled then StartId(s2, |s1.jobs|) else s2
    case DeleteJob(name) => Delete(s, name)
    case StartJob(name) => if Known(s, name) then StartId(s, s.table[name]) else s
    case StopJob(name) => if Known(s, name) then Put(s, s.table[name], Stop(s.jobs[s.table[name]])) else s
    case EnableJob(name) =>
      if Known(s, name) then Put(s, s.table[name], s.jobs[s.table[name]].(enabled := true)) else s
    case DisableJob(name) => if Known(s, name) then Put(s, s.table[name], Disable(s.jobs[s.table[name]])) else s
    case StopAll => StopEvery(s)
    case ClearAll => StopEvery(s).(table := map[])
  }

  // --- Safety ---

  ghost function Count(log: seq<Effect>, e: Effect): nat {
    multiset(log)[e]
  }

  ghost predicate JobSafe(j: Job, log: seq<Effect>, id: nat) {
    && Count(log, Began(id)) == j.runCount
    && Count(log, Began(id)) == Count(log, Ended(id)) + (if j.isRunning then 1 else 0)
    && (j.options.maxRuns > 0 ==> j.runCount <= j.options.maxRuns)
    && (j.task.Some? ==> j.enabled)
  }

  ghost predicate TableSafe(s: Service) {
    forall n :: n in s.table ==> s.table[n] < |s.jobs| && s.jobs[s.table[n]].name == n
  }

  // The live schedules are those the jobs hold, and only current jobs hold any.
  ghost predicate LiveSafe(s: Service) {
    && (forall h :: h in s.live ==> h < s.handles && s.live[h] < |s.jobs| && s.jobs[s.live[h]].task == Some(h))
    && (forall id :: 0 <= id < |s.jobs| && s.jobs[id].task.Some? ==>
          && s.jobs[id].task.value in s.live && s.live[s.jobs[id].task.value] == id
          && InTable(s, id))
  }

  // Every execution is one of a job, and counted there.
  ghost predicate JobsSafe(jobs: seq<Job>, log: seq<Effect>) {
    && (forall id :: id >= |jobs| ==> Count(log, Began(id)) == 0 && Count(log, Ended(id)) == 0)
    && (forall id :: 0 <= id < |jobs| ==> JobSafe(jobs[id], log, id))
  }

  ghost predicate Safe(s: Service) {
    TableSafe(s) && LiveSafe(s) && JobsSafe(s.jobs, s.log)
  }

  // A job that keeps its name and options, at most gives up its schedule, and begins at most one
  // execution, when it may.
  ghost predicate MayBecome(j: Job, j': Job) {
    && j'.name == j.name && j'.options == j.options
    && (j'.task == j.task || j'.task == None)
    && (j'.task.Some? ==> j'.enabled)
    && (if j'.runCount == j.runCount then j'.isRunning == j.isRunning
        else j'.runCount == j.runCount + 1 && !j.isRunning && j'.isRunning && !LimitReached(j))
  }

  lemma PutCounts(s: Service, id: nat, j: Job, x: Effect)
    requires id < |s.jobs|
    ensures Count(Put(s, id, j).log, x) ==
            Count(s.log, x) + if j.runCount > s.jobs[id].runCount && x == Began(id) then 1 else 0
  {}

  lemma PutJobsSafe(s: Service, id: nat, j: Job)
    requires JobsSafe(s.jobs, s.log) && id < |s.jobs| && MayBecome(s.jobs[id], j)
    ensures JobsSafe(Put(s, id, j).jobs, Put(s, id, j).log)
  {
    var s' := Put(s, id, j);
    forall i: nat ensures
        && Count(s'.log, Ended(i)) == Count(s.log, Ended(i))
        && Count(s'.log, Began(i)) == Count(s.log, Began(i)) + if j.runCount > s.jobs[id].runCount && i == id then 1 else 0
    {
      PutCounts(s, id, j, Began(i));
      PutCounts(s, id, j, Ended(i));
    }
    assert JobSafe(s.jobs[id], s.log, id);
    forall i | 0 <= i < |s'.jobs| && i != id ensures JobSafe(s'.jobs[i], s'.log, i) {
      assert JobSafe(s.jobs[i], s.log, i);
    }
  }

  lemma PutLiveSafe(s: Service, id: nat, j: Job)
    requires LiveSafe(s) && id < |s.jobs| && MayBecome(s.jobs[id], j)
    ensures LiveSafe(Put(s, id, j))
  {
    forall i: nat | i < |s.jobs| && InTable(s, i) ensures InTable(Put(s, id, j), i) {}
  }

  lemma PutSafe(s: Service, id: nat, j: Job)
    requires Safe(s) && id < |s.jobs| && MayBecome(s.jobs[id], j)
    ensures Safe(Put(s, id, j))
  {
    PutJobsSafe(s, id, j);
    PutLiveSafe(s, id, j);
  }

  // Jobs that change in their schedules only, and hold one only if enabled.
  lemma TasksOnly(jobs: seq<Job>, jobs': seq<Job>, log: seq<Effect>)
    requires JobsSafe(jobs, log) && |jobs| == |jobs'|
    requires forall i :: 0 <= i < |jobs| ==>
               jobs'[i] == jobs[i].(task := jobs'[i].task) && (jobs'[i].task.Some? ==> jobs'[i].enabled)
    ensures JobsSafe(jobs', log)
  {
    forall i | 0 <= i < |jobs'| ensures JobSafe(jobs'[i], log, i) {
      assert JobSafe(jobs[i], log, i);
    }
  }

  lemma ScheduleSafe(s: Service, id: nat)
    requires Safe(s) && InTable(s, id) && Schedules(s.jobs[id])
    ensures Safe(Schedule(s, id))
  {
    forall i | 0 <= i < |s.jobs| && s.jobs[i].task.Some? ensures s.jobs[i].enabled {
      assert JobSafe(s.jobs[i], s.log, i);
    }
    TasksOnly(s.jobs, Schedule(s, id).jobs, s.log);
    ScheduleLiveSafe(s, id);
  }

  lemma ScheduleLiveSafe(s: Service, id: nat)
    requires LiveSafe(s) && InTable(s, id) && Schedules(s.jobs[id])
    ensures LiveSafe(Schedule(s, id))
  {
    forall i: nat | i < |s.jobs| && InTable(s, i) ensures InTable(Schedule(s, id), i) {}
  }

  lemma StartIdSafe(s: Service, id: nat)
    requires Safe(s) && InTable(s, id)
    ensures Safe(StartId(s, id))
  {
    if Schedules(s.jobs[id]) {
      ScheduleSafe(s, id);
      var s1 := Schedule(s, id);
      if s.jobs[id].options.runOnInit { PutSafe(s1, id, Execute(s1.jobs[id])); }
    }
  }

  lemma DeleteSafe(s: Service, name: string)
    requires Safe(s)
    ensures Safe(Delete(s, name)) && name !in Delete(s, name).table
  {
    if Known(s, name) {
      var id := s.table[name];
      PutSafe(s, id, Stop(s.jobs[id]));
      DropSafe(Put(s, id, Stop(s.jobs[id])), name);
    }
  }

  lemma DropSafe(s: Service, name: string)
    requires TableSafe(s) && LiveSafe(s) && Known(s, name) && s.jobs[s.table[name]].task.None?
    ensures var s' := s.(table := s.table - {name}); TableSafe(s') && LiveSafe(s')
  {
    var s' := s.(table := s.table - {name});
    forall i | 0 <= i < |s'.jobs| && s'.jobs[i].task.Some? ensures InTable(s', i) {
      assert InTable(s, i);
    }
  }

  lemma AddSafe(s: Service, name: string, options: CronOptions)
    requires Safe(s) && name !in s.table
    ensures Safe(Add(s, name, options))
  {
    var s' := Add(s, name, options);
    AddLiveSafe(s, name, options);
    forall i | 0 <= i < |s'.jobs| ensures JobSafe(s'.jobs[i], s'.log, i) {
      if i < |s.jobs| { assert JobSafe(s.jobs[i], s.log, i); }
    }
  }

  lemma AddLiveSafe(s: Service, name: string, options: CronOptions)
    requires LiveSafe(s) && name !in s.table
    ensures LiveSafe(Add(s, name, options))
  {
    var s' := Add(s, name, options);
    forall i | 0 <= i < |s'.jobs| && s'.jobs[i].task.Some?
      ensures s'.jobs[i].task.value in s'.live && s'.live[s'.jobs[i].task.value] == i && InTable(s', i)
    {
      assert InTable(s, i);
    }
  }

  lemma CompletesSafe(s: Service, id: nat)
    requires Safe(s) && Enabled(s, Completes(id))
    ensures Safe(Next(s, Completes(id)))
  {
    CompletesLiveSafe(s, id);
    CompletesJobsSafe(s, id);
  }

  lemma CompletesLiveSafe(s: Service, id: nat)
    requires LiveSafe(s) && Enabled(s, Completes(id))
    ensures LiveSafe(Next(s, Completes(id)))
  {
    forall i: nat | i < |s.jobs| && InTable(s, i) ensures InTable(Next(s, Completes(id)), i) {}
  }

  lemma CompletesJobsSafe(s: Service, id: nat)
    requires JobsSafe(s.jobs, s.log) && Enabled(s, Completes(id))
    ensures var s' := Next(s, Completes(id)); JobsSafe(s'.jobs, s'.log)
  {
    var s' := Next(s, Completes(id));
    forall e ensures Count(s'.log, e) == Count(s.log, e) + if e == Ended(id) then 1 else 0 {}
    forall i | 0 <= i < |s'.jobs| ensures JobSafe(s'.jobs[i], s'.log, i) {
      assert JobSafe(s.jobs[i], s.log, i);
    }
  }

  lemma StopEverySafe(s: Service)
    requires Safe(s)
    ensures Safe(StopEvery(s)) && StopEvery(s).live == map[]
    ensures Safe(StopEvery(s).(table := map[]))
  {
    var s' := StopEvery(s);
    StopEveryLive(s);
    TasksOnly(s.jobs, s'.jobs, s.log);
  }

  lemma StopEveryLive(s: Service)
    requires LiveSafe(s)
    ensures StopEvery(s).live == map[]
    ensures forall i :: 0 <= i < |s.jobs| ==> StopEvery(s).jobs[i].task.None?
  {
    forall h | h in s.live ensures InTable(s, s.live[h]) {
      assert s.jobs[s.live[h]].task.Some?;
    }
  }

  lemma {:induction false} NextSafe(s: Service, ev: Event)
    requires Safe(s) && Enabled(s, ev)
    ensures Safe(Next(s, ev))
  {
    match ev
    case Tick(h) =>
      var id := s.live[h];
      assert JobSafe(s.jobs[id], s.log, id);
      PutSafe(s, id, Execute(s.jobs[id]));
    case Completes(id) => CompletesSafe(s, id);
    case RegisterJob(name, options, valid) =>
      DeleteSafe(s, name);
      var s1 := Delete(s, name);
      if valid {
        AddSafe(s1, name, options);
        StartIdSafe(Add(s1, name, options), |s1.jobs|);
      }
    case DeleteJob(name) => DeleteSafe(s, name);
    case StartJob(name) => if Known(s, name) { StartIdSafe(s, s.table[name]); }
    case StopJob(name) => if Known(s, name) { PutSafe(s, s.table[name], Stop(s.jobs[s.table[name]])); }
    case EnableJob(name) =>
      if Known(s, name) {
        PutSafe(s, s.table[name], s.jobs[s.table[name]].(enabled := true));
      }
    case DisableJob(name) => if Known(s, name) { PutSafe(s, s.table[name], Disable(s.jobs[s.table[name]])); }
    case StopAll => StopEverySafe(s);
    case ClearAll => StopEverySafe(s);
  }

  ghost predicate History(states: seq<Service>, evs: seq<Event>) {
    && |states| == |evs| + 1 && states[0] == EMPTY.(handles := states[0].handles)
    && forall i :: 0 <= i < |evs| ==> Enabled(states[i], evs[i]) && states[i + 1] == Next(states[i], evs[i])
  }

  lemma {:induction false} EveryStateIsSafe(states: seq<Service>, evs: seq<Event>, n: nat)
    requires History(states, evs) && n < |states|
    ensures Safe(states[n])
  {
    if n > 0 {
      EveryStateIsSafe(states, evs, n - 1);
      NextSafe(states[n - 1], evs[n - 1]);
      assert states[(n - 1) + 1] == Next(states[n - 1], evs[n - 1]);
    }
  }

  // Main result, over every interleaving of timers, completions and control calls: runs never
  // exceed a positive limit and are the executions begun; at most one execution of a job is in
  // flight; a live schedule belongs to an enabled job, the current one of its name, and no job
  // has two.
  lemma {:induction false} CronSafety(states: seq<Service>, evs: seq<Event>, n: nat)
    requires History(states, evs) && n < |states|
    ensures forall id :: 0 <= id < |states[n].jobs| ==>
              var j := states[n].jobs[id];
              && j.runCount == Count(states[n].log, Began(id))
              && (j.options.maxRuns > 0 ==> Count(states[n].log, Began(id)) <= j.options.maxRuns)
              && 0 <= Count(states[n].log, Began(id)) - Count(states[n].log, Ended(id)) <= 1
    ensures forall h :: h in states[n].live ==>
              var id := states[n].live[h];
              InTable(states[n], id) && states[n].jobs[id].enabled && states[n].jobs[id].task == Some(h)
    ensures forall h, h' :: h in states[n].live && h' in states[n].live && states[n].live[h] == states[n].live[h'] ==> h == h'
  {
    EveryStateIsSafe(states, evs, n);
    forall id | 0 <= id < |states[n].jobs| ensures JobSafe(states[n].jobs[id], states[n].log, id) {}
  }

  // Replacing, deleting and clearing leave no schedule behind.
  lemma {:induction false} NoScheduleLeaks(s: Service, name: string, h: nat)
    requires Safe(s)
    ensures h in Delete(s, name).live ==> Known(s, name) ==> s.live[h] != s.table[name]
    ensures Next(s, ClearAll).live == map[]
  {
    DeleteSafe(s, name);
    StopEverySafe(s);
  }

  lemma StartIdAtOnce(s: Service, id: nat)
    requires id < |s.jobs|
    ensures var j := Start(s.jobs[id], s.handles);
            StartId(s, id) ==
            if !Schedules(s.jobs[id]) then s
            else s.(jobs := s.jobs[id := j], handles := s.handles + 1,
                    live := if j.task.Some? then s.live[s.handles := id] else s.live - {s.handles},
                    log := if j.runCount > s.jobs[id].runCount then s.log + [Began(id)] else s.log)
  {
    var j, s1 := Start(s.jobs[id], s.handles), Schedule(s, id);
    assert s1.jobs[id := j] == s.jobs[id := j];
    assert s1.live - {s.handles} == s.live - {s.handles};
    assert s.jobs[id := s.jobs[id]] == s.jobs;
  }

  ghost function Deleted(s: Service, name: string): Service {
    Next(s, DeleteJob(name))
  }

  ghost function Created(s: Service, name: string, options: CronOptions): Service {
    if options.enabled then Next(Add(s, name, options), StartJob(name)) else Add(s, name, options)
  }

  lemma RegisterInSteps(s: Service, name: string, options: CronOptions)
    requires Safe(s)
    ensures name !in s.table ==> Deleted(s, name) == s
    ensures Next(s, RegisterJob(name, options, false)) == Deleted(s, name)
    ensures Next(s, RegisterJob(name, options, true)) == Created(Deleted(s, name), name, options)
  {}

  // Stopping one job after another stops them all, in any order.
  lemma {:induction false} StopOneMore(s: Service, names: set<string>, name: string)
    requires Safe(s) && name in s.table && name !in names
    ensures Next(StopNames(s, names), StopJob(name)) == StopNames(s, names + {name})
  {
    var s1, id := StopNames(s, names), s.table[name];
    assert Known(s1, name) && InTable(s, id) && s1.jobs[id] == s.jobs[id];
    StopsMoreJobs(s, names, name);
    StopsMoreSchedules(s, names, name);
  }

  lemma {:induction false} StopsMoreJobs(s: Service, names: set<string>, name: string)
    requires TableSafe(s) && name in s.table && name !in names
    ensures var id := s.table[name];
            StopNames(s, names).jobs[id := Stop(s.jobs[id])] == StopNames(s, names + {name}).jobs
  {
    var id := s.table[name];
    forall i | 0 <= i < |s.jobs|
      ensures StopNames(s, names).jobs[id := Stop(s.jobs[id])][i] == StopNames(s, names + {name}).jobs[i]
    {
      if InTable(s, i) && s.jobs[i].name == name { assert i == id; }
    }
  }

  lemma {:induction false} StopsMoreSchedules(s: Service, names: set<string>, name: string)
    requires TableSafe(s) && LiveSafe(s) && name in s.table && name !in names
    ensures var j, live := s.jobs[s.table[name]], StopNames(s, names).live;
            (if j.task.Some? then live - {j.task.value} else live) == StopNames(s, names + {name}).live
  {
    var id := s.table[name];
    forall h | h in s.live
      ensures StopsSchedule(s, names + {name}, h) <==> StopsSchedule(s, names, h) || s.jobs[id].task == Some(h)
    {
      LiveJob(s, h);
      if s.jobs[id].task == Some(h) { LiveTask(s, id); }
    }
  }

  lemma LiveJob(s: Service, h: nat)
    requires LiveSafe(s) && h in s.live
    ensures InTable(s, s.live[h]) && s.jobs[s.live[h]].task == Some(h)
  {}

  lemma LiveTask(s: Service, id: nat)
    requires LiveSafe(s) && id < |s.jobs| && s.jobs[id].task.Some?
    ensures s.jobs[id].task.value in s.live && s.live[s.jobs[id].task.value] == id
  {}

  // --- Calls for several jobs, one after another ---

  ghost predicate Lists(names: seq<string>, keys: set<string>) {
    && (forall i :: 0 <= i < |names| ==> names[i] in keys)
    && (forall n :: n in keys ==> n in names)
    && (forall i, j :: 0 <= i < j < |names| ==> names[i] != names[j])
  }

  ghost function StartEach(s: Service, names: seq<string>): Service {
    if names == [] then s else Next(StartEach(s, names[..|names| - 1]), StartJob(names[|names| - 1]))
  }

  ghost function StopEach(s: Service, names: seq<string>): Service {
    if names == [] then s else Next(StopEach(s, names[..|names| - 1]), StopJob(names[|names| - 1]))
  }

  ghost function NameSet(names: seq<string>): set<string> {
    if names == [] then {} else NameSet(names[..|names| - 1]) + {names[|names| - 1]}
  }

  lemma {:induction false} NameSetHas(names: seq<string>, n: string)
    ensures n in NameSet(names) <==> n in names
  {
    if names != [] {
      NameSetHas(names[..|names| - 1], n);
      assert names == names[..|names| - 1] + [names[|names| - 1]];
    }
  }

  lemma {:induction false} StopEachNames(s: Service, names: seq<string>)
    requires Safe(s) && forall i :: 0 <= i < |names| ==> names[i] in s.table
    requires forall i, j :: 0 <= i < j < |names| ==> names[i] != names[j]
    ensures StopEach(s, names) == StopNames(s, NameSet(names))
  {
    if names == [] {
    } else {
      var before, last := names[..|names| - 1], names[|names| - 1];
      StopEachNames(s, before);
      NameSetHas(before, last);
      StopOneMore(s, NameSet(before), last);
    }
  }

  // Stopping every job, in any order, is `StopEvery`.
  lemma {:induction false} StopEachIsStopEvery(s: Service, names: seq<string>)
    requires Safe(s) && Lists(names, s.table.Keys)
    ensures StopEach(s, names) == StopEvery(s)
  {
    StopEachNames(s, names);
    forall n ensures n in NameSet(names) <==> n in s.table.Keys { NameSetHas(names, n); }
    assert NameSet(names) == s.table.Keys;
  }
}
