// The cron service as written: job objects whose fields change in place, a map of current jobs,
// and node-cron, which holds the live schedules.
module Cron {
  import opened CronState
  import opened CronEffects
  import opened Options

  class NodeCron {
    var live: map<nat, CronJob>
    var handles: nat

    constructor ()
      ensures live == map[] && handles == 0
    {
      live, handles := map[], 0;
    }
  }

  // `id` is not in the program: how many jobs were made before.
  class CronJob {
    ghost const id: nat
    const name: string
    const options: CronOptions
    const cron: NodeCron
    var task: Option<nat>
    var isRunning: bool
    var runCount: nat
    var enabled: bool

    ghost function View(): Job
      reads this
    {
      Job(name, options, task, isRunning, runCount, enabled)
    }

    constructor (ghost id: nat, name: string, options: CronOptions, cron: NodeCron)
      ensures View() == NewJob(name, options) && this.cron == cron && this.id == id
    {
      this.id := id;
      this.name, this.options, this.cron := name, options, cron;
      task, isRunning, runCount, enabled := None, false, 0, options.enabled;
    }

    // Starting an idle, enabled job schedules it; with `runOnInit` it then executes.
    twostate predicate Starts()
      reads this, cron
    {
      && enabled == old(enabled)
      && (old(task).Some? || !old(enabled) ==> isRunning == old(isRunning) && runCount == old(runCount) && task == old(task))
      && (old(task).None? && old(enabled) ==>
            var limited := options.maxRuns != 0 && old(runCount) >= options.maxRuns;
            var runs := options.runOnInit && !old(isRunning) && !limited;
            && isRunning == (old(isRunning) || runs)
            && runCount == old(runCount) + (if runs then 1 else 0)
            && task == if options.runOnInit && !old(isRunning) && limited then None else Some(old(cron.handles)))
    }

    method Start()
      modifies this, cron
      ensures Starts()
      ensures View() == CronState.Start(old(View()), old(cron.handles))
      ensures if Schedules(old(View())) then
                && cron.handles == old(cron.handles) + 1
                && cron.live == if task.Some? then old(cron.live)[old(cron.handles) := this]
                                else old(cron.live) - {old(cron.handles)}
              else cron.handles == old(cron.handles) && cron.live == old(cron.live)
    {
      if task.Some? { return; }
      if !enabled { return; }
      task := Some(cron.handles);
      cron.live := cron.live[cron.handles := this];
      cron.handles := cron.handles + 1;
      if options.runOnInit {
        Execute();
        assert task.None? ==> old(cron.live)[old(cron.handles) := this] - {old(cron.handles)} == old(cron.live) - {old(cron.handles)};
      }
    }

    method Stop()
      modifies this, cron
      ensures View() == CronState.Stop(old(View())) && cron.handles == old(cron.handles)
      ensures cron.live == if old(task).Some? then old(cron.live) - {old(task).value} else old(cron.live)
    {
      if task.Some? {
        cron.live := cron.live - {task.value};
        task := None;
      }
    }

    // Executing begins a run, or gives up the schedule when the limit is reached, or does nothing.
    twostate predicate Executes()
      reads this, cron
    {
      && enabled == old(enabled)
      && (old(isRunning) ==>
            isRunning && runCount == old(runCount) && task == old(task) && cron.live == old(cron.live))
      && (!old(isRunning) && (options.maxRuns == 0 || old(runCount) < options.maxRuns) ==>
            isRunning && runCount == old(runCount) + 1 && task == old(task) && cron.live == old(cron.live))
      && (!old(isRunning) && options.maxRuns != 0 && old(runCount) >= options.maxRuns ==>
            && !isRunning && runCount == old(runCount) && task == None
            && cron.live == if old(task).Some? then old(cron.live) - {old(task).value} else old(cron.live))
    }

    // `execute` up to its await.
    method Execute()
      modifies this, cron
      ensures Executes()
      ensures View() == CronState.Execute(old(View())) && cron.handles == old(cron.handles)
      ensures cron.live == if old(task).Some? && task.None? then old(cron.live) - {old(task).value} else old(cron.live)
    {
      if isRunning { return; }
      if options.maxRuns != 0 && runCount >= options.maxRuns {
        Stop();
        return;
      }
      isRunning := true;
      runCount := runCount + 1;
    }

    // The `finally` of `execute`.
    method Complete()
      modifies this
      ensures View() == old(View()).(isRunning := false)
    {
      isRunning := false;
    }

    method Enable()
      modifies this
      ensures View() == old(View()).(enabled := true)
    {
      enabled := true;
    }

    method Disable()
      modifies this, cron
      ensures View() == CronState.Disable(old(View())) && cron.handles == old(cron.handles)
      ensures cron.live == if old(task).Some? then old(cron.live) - {old(task).value} else old(cron.live)
    {
      enabled := false;
      Stop();
    }
  }

  lemma PutBack<K, V>(m: map<K, V>, k: K, v: V)
    ensures (m - {k})[k := v] == m[k := v]
  {}

  class CronService {
    const cron: NodeCron
    var jobs: map<string, CronJob>
    // Every job made so far, also those deleted or replaced while an execution was in flight; and
    // the state of the service as a value, with the executions so far.
    ghost var made: seq<CronJob>
    ghost var state: Service

    ghost predicate Made(job: CronJob)
      reads this
    {
      job.id < |made| && made[job.id] == job
    }

    // `state` is what the objects say.
    ghost predicate Linked()
      reads this, cron, made
    {
      JobsLinked() && TableLinked() && LiveLinked()
    }

    ghost predicate JobsLinked()
      reads this, made
    {
      && |state.jobs| == |made|
      && forall i :: 0 <= i < |made| ==> made[i].id == i && made[i].cron == cron && made[i].View() == state.jobs[i]
    }

    ghost predicate TableLinked()
      reads this
    {
      && (forall n :: n in jobs ==> n in state.table && Made(jobs[n]) && state.table[n] == jobs[n].id)
      && (forall n :: n in state.table ==> n in jobs)
    }

    ghost predicate LiveLinked()
      reads this, cron
    {
      && cron.live.Keys == state.live.Keys && cron.handles == state.handles
      && forall h :: h in cron.live ==> Made(cron.live[h]) && state.live[h] == cron.live[h].id
    }

    ghost predicate Valid()
      reads this, cron, made
    {
      Linked() && Safe(state)
    }

    // What holds of the objects whenever no method is running.
    lemma SafeAsWritten(job: CronJob)
      requires Valid() && Made(job)
      ensures job.runCount == Count(state.log, Began(job.id))
      ensures job.options.maxRuns > 0 ==> job.runCount <= job.options.maxRuns
      ensures Count(state.log, Began(job.id)) == Count(state.log, Ended(job.id)) + if job.isRunning then 1 else 0
      ensures job.task.Some? ==>
                && job.enabled && job.name in jobs && jobs[job.name] == job
                && job.task.value in cron.live && cron.live[job.task.value] == job
    {
      assert state.jobs[job.id] == job.View();
      assert JobSafe(state.jobs[job.id], state.log, job.id);
      if job.task.Some? { LiveTask(state, job.id); }
    }

    lemma LiveAsWritten(handle: nat)
      requires Valid() && handle in cron.live
      ensures var job := cron.live[handle];
              Made(job) && job.task == Some(handle) && job.enabled && job.name in jobs && jobs[job.name] == job
    {
      var job := cron.live[handle];
      LiveJob(state, handle);
      assert state.jobs[job.id] == job.View();
      SafeAsWritten(job);
    }

    constructor (cron: NodeCron)
      requires cron.live == map[]
      ensures Valid() && state == CronState.EMPTY.(handles := cron.handles) && jobs == map[] && made == []
      ensures this.cron == cron
    {
      this.cron := cron;
      jobs, made, state := map[], [], CronState.EMPTY.(handles := cron.handles);
    }

    // --- The link after one job changed ---

    twostate predicate OnlyJob(job: CronJob)
      reads this, made
    {
      && made == old(made) && jobs == old(jobs) && Made(job)
      && forall i :: 0 <= i < |made| && i != job.id ==> made[i].View() == old(made[i].View())
    }

    twostate lemma PutAfter(job: CronJob)
      requires old(Linked()) && OnlyJob(job) && cron.handles == old(cron.handles)
      requires cron.live == if old(job.task).Some? && job.task.None? then old(cron.live) - {old(job.task).value} else old(cron.live)
      requires state == Put(old(state), job.id, job.View())
      ensures Linked()
    {
      assert old(state).jobs[job.id] == old(job.View());
    }

    twostate lemma StartAfter(job: CronJob)
      requires old(Linked()) && OnlyJob(job)
      requires job.View() == CronState.Start(old(job.View()), old(cron.handles))
      requires if Schedules(old(job.View())) then
                 && cron.handles == old(cron.handles) + 1
                 && cron.live == if job.task.Some? then old(cron.live)[old(cron.handles) := job]
                                 else old(cron.live) - {old(cron.handles)}
               else cron.handles == old(cron.handles) && cron.live == old(cron.live)
      requires state == StartId(old(state), job.id)
      ensures Linked()
    {
      assert old(state).jobs[job.id] == old(job.View());
      StartIdAtOnce(old(state), job.id);
    }

    // `invalid` is true where the program throws for a bad cron expression; the job that had
    // the name is gone by then.
    method RegisterJob(name: string, options: CronOptions, validExpression: bool) returns (invalid: bool)
      requires Valid()
      modifies this, cron, made
      ensures Valid() && invalid == !validExpression
      ensures state == Next(old(state), CronState.RegisterJob(name, options, validExpression))
      ensures invalid ==> jobs == old(jobs) - {name} && made == old(made)
      ensures !invalid ==>
                && name in jobs && jobs == old(jobs)[name := jobs[name]] && fresh(jobs[name])
                && made == old(made) + [jobs[name]] && IsNew(jobs[name], name, options)
    {
      RegisterMakesOne(state, name, options);
      RegisterInSteps(state, name, options);
      if name in jobs {
        var _ := DeleteJob(name);
      }
      assert state == Deleted(old(state), name) && jobs == old(jobs) - {name} && made == old(made);
      if !validExpression { return true; }
      CreateJob(name, options);
      PutBack(old(jobs), name, jobs[name]);
      NewJobAsWritten(old(state), jobs[name], name, options);
      return false;
    }

    // A job as registering leaves it: one schedule if it is enabled, unless a run at once finds a
    // negative limit, and one run if it is to run at once.
    ghost predicate IsNew(job: CronJob, name: string, options: CronOptions)
      reads job, cron
    {
      && job.name == name && job.options == options && job.enabled == options.enabled
      && job.isRunning == (options.enabled && options.runOnInit && options.maxRuns >= 0)
      && job.runCount == (if job.isRunning then 1 else 0)
      && job.task.Some? == (options.enabled && (options.runOnInit ==> options.maxRuns >= 0))
      && forall h :: h in cron.live && cron.live[h] == job <==> job.task == Some(h)
    }

    lemma NewJobAsWritten(before: Service, job: CronJob, name: string, options: CronOptions)
      requires Valid() && Made(job) && IsNewJob(before, state, name, options) && job.id == |before.jobs|
      ensures IsNew(job, name, options)
    {
      SafeAsWritten(job);
      assert state.jobs[job.id] == job.View();
      forall h | h in cron.live && cron.live[h] == job ensures job.task == Some(h) { LiveAsWritten(h); }
    }

    // `new CronJob`, `jobs.set` and, unless disabled, `start`.
    method CreateJob(name: string, options: CronOptions)
      requires Valid() && name !in jobs
      modifies this, cron
      ensures Valid() && state == Created(old(state), name, options)
      ensures name in jobs && jobs == old(jobs)[name := jobs[name]] && fresh(jobs[name])
      ensures made == old(made) + [jobs[name]]
    {
      AddSafe(state, name, options);
      AddJob(name, options);
      if options.enabled {
        StartKnown(name);
      }
    }

    method StartKnown(name: string)
      requires Valid() && name in jobs
      modifies this`state, cron, jobs[name]
      ensures Valid() && state == Next(old(state), CronState.StartJob(name)) && jobs[name].Starts()
    {
      NextSafe(state, CronState.StartJob(name));
      StartThis(jobs[name]);
    }

    method StartThis(job: CronJob)
      requires Linked() && Made(job)
      modifies this`state, cron, job
      ensures Linked() && state == StartId(old(state), job.id) && job.Starts()
    {
      job.Start();
      state := StartId(state, job.id);
      StartAfter(job);
    }

    method AddJob(name: string, options: CronOptions)
      requires Linked() && name !in jobs
      modifies this
      ensures Linked() && state == Add(old(state), name, options)
      ensures name in jobs && jobs == old(jobs)[name := jobs[name]] && fresh(jobs[name])
      ensures made == old(made) + [jobs[name]]
    {
      var job := new CronJob(|made|, name, options, cron);
      Enrol(job);
    }

    method Enrol(job: CronJob)
      requires Linked() && job.id == |made| && job.cron == cron && job.View() == NewJob(job.name, job.options)
      requires job.name !in jobs
      modifies this
      ensures Linked() && state == Add(old(state), job.name, job.options)
      ensures jobs == old(jobs)[job.name := job] && made == old(made) + [job]
    {
      jobs := jobs[job.name := job];
      made := made + [job];
      state := Add(state, job.name, job.options);
    }

    method StopThis(job: CronJob)
      requires Linked() && Made(job)
      modifies this`state, cron, job
      ensures Linked() && state == Put(old(state), job.id, CronState.Stop(old(state).jobs[job.id]))
    {
      assert state.jobs[job.id] == job.View();
      job.Stop();
      state := Put(state, job.id, job.View());
      PutAfter(job);
    }

    method Forget(name: string)
      requires Linked()
      modifies this
      ensures Linked() && state == old(state).(table := old(state).table - {name})
      ensures jobs == old(jobs) - {name} && made == old(made)
    {
      jobs := jobs - {name};
      state := state.(table := state.table - {name});
    }

    method ExecuteThis(job: CronJob)
      requires Linked() && Made(job)
      modifies this`state, cron, job
      ensures Linked() && state == Put(old(state), job.id, CronState.Execute(old(state).jobs[job.id])) && job.Executes()
    {
      assert state.jobs[job.id] == job.View();
      job.Execute();
      state := Put(state, job.id, job.View());
      PutAfter(job);
    }

    method EnableThis(job: CronJob)
      requires Linked() && Made(job)
      modifies this`state, job
      ensures Linked() && state == Put(old(state), job.id, old(state).jobs[job.id].(enabled := true))
    {
      assert state.jobs[job.id] == job.View();
      job.Enable();
      state := Put(state, job.id, job.View());
      PutAfter(job);
    }

    method DisableThis(job: CronJob)
      requires Linked() && Made(job)
      modifies this`state, cron, job
      ensures Linked() && state == Put(old(state), job.id, CronState.Disable(old(state).jobs[job.id]))
    {
      assert state.jobs[job.id] == job.View();
      job.Disable();
      state := Put(state, job.id, job.View());
      PutAfter(job);
    }

    method DeleteJob(name: string) returns (found: bool)
      requires Valid()
      modifies this, cron, made
      ensures Valid() && state == Next(old(state), CronState.DeleteJob(name))
      ensures found == (name in old(jobs)) && jobs == old(jobs) - {name} && made == old(made)
    {
      NextSafe(state, CronState.DeleteJob(name));
      if name !in jobs {
        assert jobs == jobs - {name};
        return false;
      }
      StopThis(jobs[name]);
      Forget(name);
      return true;
    }

    method StartJob(name: string) returns (found: bool)
      requires Valid()
      modifies this`state, cron, made
      ensures Valid() && state == Next(old(state), CronState.StartJob(name))
      ensures found == (name in jobs)
      ensures found ==> jobs[name].Starts()
    {
      if name !in jobs { return false; }
      StartKnown(name);
      return true;
    }

    method StopJob(name: string) returns (found: bool)
      requires Valid()
      modifies this`state, cron, made
      ensures Valid() && state == Next(old(state), CronState.StopJob(name))
      ensures found == (name in jobs)
      ensures found ==> jobs[name].View() == old(jobs[name].View()).(task := None)
    {
      if name in jobs { ControlCalls(state, name); }
      NextSafe(state, CronState.StopJob(name));
      if name !in jobs { return false; }
      StopThis(jobs[name]);
      return true;
    }

    method EnableJob(name: string) returns (found: bool)
      requires Valid()
      modifies this`state, made
      ensures Valid() && state == Next(old(state), CronState.EnableJob(name))
      ensures found == (name in jobs)
      ensures found ==> jobs[name].View() == old(jobs[name].View()).(enabled := true)
    {
      if name in jobs { ControlCalls(state, name); }
      NextSafe(state, CronState.EnableJob(name));
      if name !in jobs { return false; }
      EnableThis(jobs[name]);
      return true;
    }

    method DisableJob(name: string) returns (found: bool)
      requires Valid()
      modifies this`state, cron, made
      ensures Valid() && state == Next(old(state), CronState.DisableJob(name))
      ensures found == (name in jobs)
      ensures found ==> jobs[name].View() == old(jobs[name].View()).(enabled := false, task := None)
    {
      if name in jobs { ControlCalls(state, name); }
      NextSafe(state, CronState.DisableJob(name));
      if name !in jobs { return false; }
      DisableThis(jobs[name]);
      return true;
    }

    // A live schedule fires.
    method Tick(handle: nat)
      requires Valid() && handle in cron.live
      modifies this`state, cron, made
      ensures Enabled(old(state), CronState.Tick(handle))
      ensures Valid() && state == Next(old(state), CronState.Tick(handle))
      ensures var job := old(cron.live[handle]);
              && job.Executes()
              && (old(job.isRunning) || job.task.None? ==> state.log == old(state.log))
              && (job.isRunning && !old(job.isRunning) ==> state.log == old(state.log) + [Began(job.id)])
    {
      NextSafe(state, CronState.Tick(handle));
      ExecuteThis(cron.live[handle]);
    }

    // The callback of an execution settles, possibly long after its job was deleted.
    method Complete(job: CronJob)
      requires Valid() && Made(job) && job.isRunning
      modifies this`state, job
      ensures Enabled(old(state), Completes(job.id))
      ensures Valid() && state == Next(old(state), Completes(job.id))
    {
      assert state.jobs[job.id] == job.View();
      NextSafe(state, Completes(job.id));
      job.Complete();
      state := Put(state, job.id, job.View());
      PutAfter(job);
      state := state.(log := old(state).log + [Ended(job.id)]);
    }

    // The keys of the map.
    method Names() returns (names: seq<string>)
      ensures Lists(names, jobs.Keys)
    {
      names := [];
      var todo := jobs.Keys;
      while todo != {}
        invariant todo <= jobs.Keys && Lists(names, jobs.Keys - todo)
        decreases |todo|
      {
        var n :| n in todo;
        assert n !in names;
        names := names + [n];
        todo := todo - {n};
      }
      assert jobs.Keys - todo == jobs.Keys;
    }

    method StopAll()
      requires Valid()
      modifies this`state, cron, made
      ensures Valid() && state == Next(old(state), CronState.StopAll) && cron.live == map[]
    {
      var names := Names();
      assert jobs.Keys == state.table.Keys;
      StopEachIsStopEvery(state, names);
      StopEach(names);
      StopEverySafe(old(state));
      assert cron.live.Keys == {};
    }

    method StopEach(names: seq<string>)
      requires Valid()
      modifies this`state, cron, made
      ensures Valid() && state == CronState.StopEach(old(state), names)
    {
      for i := 0 to |names|
        invariant Valid() && state == CronState.StopEach(old(state), names[..i])
      {
        var _ := StopJob(names[i]);
        assert names[..i + 1][..i] == names[..i];
      }
      assert names[..|names|] == names;
    }

    // `names` are the keys in the order of the map.
    method StartAll() returns (names: seq<string>)
      requires Valid()
      modifies this`state, cron, made
      ensures Valid() && Lists(names, jobs.Keys) && state == CronState.StartEach(old(state), names)
    {
      names := Names();
      StartEach(names);
    }

    method StartEach(names: seq<string>)
      requires Valid()
      modifies this`state, cron, made
      ensures Valid() && state == CronState.StartEach(old(state), names)
    {
      for i := 0 to |names|
        invariant Valid() && state == CronState.StartEach(old(state), names[..i])
      {
        var _ := StartJob(names[i]);
        assert names[..i + 1][..i] == names[..i];
      }
      assert names[..|names|] == names;
    }

    method ClearAll()
      requires Valid()
      modifies this, cron, made
      ensures Valid() && state == Next(old(state), CronState.ClearAll)
      ensures jobs == map[] && cron.live == map[] && made == old(made)
    {
      ghost var cleared := Next(state, CronState.ClearAll);
      NextSafe(state, CronState.ClearAll);
      StopAll();
      ForgetAll(cleared);
    }

    method ForgetAll(ghost cleared: Service)
      requires Linked() && cleared == state.(table := map[]) && Safe(cleared)
      modifies this
      ensures Valid() && state == cleared && jobs == map[] && made == old(made)
    {
      jobs := map[];
      state := cleared;
    }
  }
}
