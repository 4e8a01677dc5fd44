// Each singleton is built once and each request-scoped instance once per request, over whole
// histories of registrations, resolutions and clears, on every dependency graph.
module ContainerOnce {
  import opened ContainerState
  import opened ContainerFrame
  import opened ContainerCycles

  // Factory runs of t that produced a defined value since t was last registered.
  ghost function SingletonBuilds(log: seq<Event>, t: Token): nat {
    if log == [] then 0
    else
      var rest := log[..|log| - 1];
      match log[|log| - 1]
      case Registered(x) => if x == t then 0 else SingletonBuilds(rest, t)
      case Built(x, _, v) => SingletonBuilds(rest, t) + if x == t && v != Undefined then 1 else 0
      case _ => SingletonBuilds(rest, t)
  }

  // Factory runs of t for request r since t was last registered or r last cleared.
  ghost function RequestBuilds(log: seq<Event>, t: Token, r: string): nat {
    if log == [] then 0
    else
      var rest := log[..|log| - 1];
      match log[|log| - 1]
      case Registered(x) => if x == t then 0 else RequestBuilds(rest, t, r)
      case Built(x, q, _) => RequestBuilds(rest, t, r) + if x == t && q == r then 1 else 0
      case Cleared(q) => if q == r then 0 else RequestBuilds(rest, t, r)
      case ClearedAll => 0
  }

  lemma LastEvent(log: seq<Event>, e: Event)
    ensures (log + [e])[..|log + [e]| - 1] == log && (log + [e])[|log + [e]| - 1] == e
  {}

  // The last defined value t was built with.
  ghost predicate SingletonOnce(s: State, t: Token) {
    t in s.providers && s.providers[t].scope == Singleton ==>
      && SingletonBuilds(s.log, t) <= 1
      && (s.providers[t].instance == Undefined ==> SingletonBuilds(s.log, t) == 0)
  }

  ghost predicate RequestOnce(s: State, t: Token) {
    t in s.providers && s.providers[t].scope == Request ==> forall r: string ::
      && RequestBuilds(s.log, t, r) <= 1
      && (t !in Scoped(s, r) ==> RequestBuilds(s.log, t, r) == 0)
  }

  ghost predicate Once(s: State) {
    forall t :: SingletonOnce(s, t) && RequestOnce(s, t)
  }

  lemma OnceOnRegister(s: State, t: Token, m: Metadata)
    requires Once(s)
    ensures Once(Register(s, t, m))
  {
    LastEvent(s.log, Registered(t));
    var s' := Register(s, t, m);
    forall x ensures SingletonOnce(s', x) && RequestOnce(s', x) {
      assert SingletonOnce(s, x) && RequestOnce(s, x);
    }
  }

  // Nothing in `Once` looks at the stacks or at the in-progress flags.
  lemma OnceUnmarked(s: State, s': State)
    requires Once(s) && s'.log == s.log
    requires s'.providers.Keys == s.providers.Keys
    requires forall t :: t in s.providers ==>
      s'.providers[t].scope == s.providers[t].scope && s'.providers[t].instance == s.providers[t].instance
    requires forall r :: Scoped(s', r) == Scoped(s, r)
    ensures Once(s')
  {
    forall x ensures SingletonOnce(s', x) && RequestOnce(s', x) {
      assert SingletonOnce(s, x) && RequestOnce(s, x);
    }
  }

  lemma OnceOnPrepared(classes: Classes, s: State, t: Token, r: string, k: Stack)
    requires Once(s)
    ensures Once(AutoRegister(classes, s, t, k)) && Once(Prepared(classes, s, t, r, k))
  {
    var s0 := AutoRegister(classes, s, t, k);
    if t !in s.providers && t.Class? { OnceOnRegister(s, t, AutoMetadata(classes, t, k)); }
    OnceUnmarked(s0, Prepared(classes, s, t, r, k));
  }

  lemma OnceOnMarked(s: State, t: Token, k: Stack)
    requires Once(s) && t in s.providers
    ensures Once(Push(Marked(s, t), k, t))
  {
    PushMarked(s, t, k);
    OnceUnmarked(s, Push(Marked(s, t), k, t));
  }

  lemma OnceOnEnter(classes: Classes, s: State, t: Token, r: string, k: Stack)
    requires Once(s)
    ensures Once(Enter(classes, s, t, r, k).st)
  {
    OnceOnPrepared(classes, s, t, r, k);
    if Enter(classes, s, t, r, k).Done? {
      EnterDone(classes, s, t, r, k);
    } else {
      EnterBuilds(classes, s, t, r, k);
      OnceOnMarked(Prepared(classes, s, t, r, k), t, k);
    }
  }

  // What a factory run of t changes: the log, the instance of t, the instance of t for r.
  ghost predicate Stored(s: State, s': State, t: Token, r: string, out: Outcome)
    requires t in s.providers
  {
    && s'.log == (if out.Returned? then s.log + [Built(t, r, out.v)] else s.log)
    && s'.providers.Keys == s.providers.Keys
    && (forall x :: x in s.providers ==>
          && s'.providers[x].scope == s.providers[x].scope
          && s'.providers[x].instance ==
             if x == t && out.Returned? && s.providers[t].scope == Singleton then out.v else s.providers[x].instance)
    && (forall q :: Scoped(s', q) ==
          if q == r && out.Returned? && s.providers[t].scope == Request then Scoped(s, q)[t := out.v] else Scoped(s, q))
  }

  lemma StoreProviders(s: State, t: Token, r: string, out: Outcome)
    requires t in s.providers
    ensures Store(s, t, r, out).providers.Keys == s.providers.Keys
    ensures forall x :: x in s.providers ==>
              var m := Store(s, t, r, out).providers[x];
              && m.scope == s.providers[x].scope
              && m.instance ==
                 if x == t && out.Returned? && s.providers[t].scope == Singleton then out.v else s.providers[x].instance
  {}

  lemma StoreRequests(s: State, t: Token, r: string, out: Outcome, q: string)
    requires t in s.providers
    ensures Scoped(Store(s, t, r, out), q) ==
            if q == r && out.Returned? && s.providers[t].scope == Request then Scoped(s, q)[t := out.v] else Scoped(s, q)
    ensures Store(s, t, r, out).log == s.log
  {}

  lemma LeaveStores(p: Plan, a: Steps, t: Token, r: string, k: Stack)
    requires t in a.st.providers
    ensures var f := Construct(p, t, r, a); Stored(a.st, Leave(f.st, t, r, k, f.out), t, r, f.out)
  {
    var f := Construct(p, t, r, a);
    assert f.st.providers == a.st.providers && f.st.requests == a.st.requests;
    StoreProviders(f.st, t, r, f.out);
    var s' := Leave(f.st, t, r, k, f.out);
    forall q ensures Scoped(s', q) ==
      if q == r && f.out.Returned? && a.st.providers[t].scope == Request then Scoped(a.st, q)[t := f.out.v]
      else Scoped(a.st, q)
    {
      StoreRequests(f.st, t, r, f.out, q);
    }
    StoreRequests(f.st, t, r, f.out, r);
  }

  lemma SingletonOnStored(classes: Classes, s: State, s': State, t: Token, r: string, out: Outcome, x: Token)
    requires t in s.providers && Stored(s, s', t, r, out)
    requires SingletonOnce(s, x) && Uncached(classes, s, t, r)
    ensures SingletonOnce(s', x)
  {
    if out.Returned? { LastEvent(s.log, Built(t, r, out.v)); }
  }

  lemma RequestOnStored(classes: Classes, s: State, s': State, t: Token, r: string, out: Outcome, x: Token)
    requires t in s.providers && Stored(s, s', t, r, out)
    requires RequestOnce(s, x) && Uncached(classes, s, t, r)
    ensures RequestOnce(s', x)
  {
    if out.Returned? { LastEvent(s.log, Built(t, r, out.v)); }
  }

  lemma OnceOnLeave(classes: Classes, p: Plan, a: Steps, t: Token, r: string, k: Stack)
    requires Once(a.st) && Uncached(classes, a.st, t, r) && t in a.st.providers
    ensures var f := Construct(p, t, r, a); Once(Leave(f.st, t, r, k, f.out))
  {
    var f := Construct(p, t, r, a);
    var s' := Leave(f.st, t, r, k, f.out);
    LeaveStores(p, a, t, r, k);
    forall x ensures SingletonOnce(s', x) && RequestOnce(s', x) {
      assert SingletonOnce(a.st, x) && RequestOnce(a.st, x);
      SingletonOnStored(classes, a.st, s', t, r, f.out, x);
      RequestOnStored(classes, a.st, s', t, r, f.out, x);
    }
  }

  lemma StillRegistered(classes: Classes, s: State, t: Token, r: string, k: Stack, depth: nat)
    requires Enter(classes, s, t, r, k).Build?
    ensures var e := Enter(classes, s, t, r, k); t in ResolveAll(classes, e.st, e.p.deps, r, e.p.stack, depth).st.providers
  {
    var e := Enter(classes, s, t, r, k);
    EnterBuilds(classes, s, t, r, k);
    ResolveAllFrame(classes, e.st, e.p.deps, r, e.p.stack, depth);
  }

  lemma {:induction false} ResolveOnce(classes: Classes, s: State, t: Token, r: string, k: Stack, depth: nat)
    requires Once(s)
    ensures Once(Resolve(classes, s, t, r, k, depth).st)
    decreases depth, 0
  {
    if Falsy(t) || depth == 0 { return; }
    OnceOnEnter(classes, s, t, r, k);
    var e := Enter(classes, s, t, r, k);
    if e.Build? {
      ResolveAllOnce(classes, e.st, e.p.deps, r, e.p.stack, depth - 1);
      NoReentry(classes, s, t, r, k, depth - 1);
      StillRegistered(classes, s, t, r, k, depth - 1);
      OnceOnLeave(classes, e.p, ResolveAll(classes, e.st, e.p.deps, r, e.p.stack, depth - 1), t, r, k);
    }
  }

  lemma {:induction false} ResolveAllOnce(classes: Classes, s: State, ts: seq<Token>, r: string, k: Stack, depth: nat)
    requires Once(s)
    ensures Once(ResolveAll(classes, s, ts, r, k, depth).st)
    decreases depth, 1 + |ts|
  {
    if ts != [] {
      ResolveOnce(classes, s, ts[0], r, k, depth);
      var first := Resolve(classes, s, ts[0], r, k, depth);
      if first.out.Returned? { ResolveAllOnce(classes, first.st, ts[1..], r, k, depth); }
    }
  }

  lemma OnceOnClear(s: State, r: string)
    requires Once(s)
    ensures Once(s.(requests := s.requests - {r}, log := s.log + [Cleared(r)]))
    ensures Once(s.(providers := map[], requests := map[], log := s.log + [ClearedAll]))
  {
    LastEvent(s.log, Cleared(r));
    var s' := s.(requests := s.requests - {r}, log := s.log + [Cleared(r)]);
    forall x ensures SingletonOnce(s', x) && RequestOnce(s', x) {
      assert SingletonOnce(s, x) && RequestOnce(s, x);
      forall q: string ensures q != r ==> Scoped(s', q) == Scoped(s, q) {}
    }
  }

  // Main result: in every history, between registrations each singleton factory completes with a
  // defined value at most once, and each request-scoped factory completes at most once per
  // request; and between two operations no provider is left in progress.
  lemma {:induction false} BuiltOnceInEveryHistory(classes: Classes, ops: seq<Op>)
    requires WellFormedOps(ops)
    ensures Once(Run(classes, EMPTY, ops))
    ensures forall t :: t in Run(classes, EMPTY, ops).providers ==>
              !Run(classes, EMPTY, ops).providers[t].isResolving
    decreases |ops|
  {
    if ops != [] {
      var before := ops[..|ops| - 1];
      var op := ops[|ops| - 1];
      BuiltOnceInEveryHistory(classes, before);
      var s := Run(classes, EMPTY, before);
      match op
      case OpRegister(t, m) => OnceOnRegister(s, t, m);
      case OpResolve(t, r, k, depth) =>
        ResolveOnce(classes, s, t, r, k, depth);
        ResolveFrame(classes, s, t, r, k, depth);
      case OpStacks(stacks) => OnceUnmarked(s, s.(stacks := stacks));
      case OpClearRequest(r) => OnceOnClear(s, r);
      case OpClear => OnceOnClear(s, "");
    }
  }

  // An operation that neither registers t anew nor clears everything.
  predicate Keeps(op: Op, t: Token) {
    !op.OpClear? && !(op.OpRegister? && op.t == t)
  }

  ghost predicate HasInstance(s: State, t: Token, v: Value) {
    t in s.providers && s.providers[t].scope == Singleton && s.providers[t].instance == v
  }

  lemma {:induction false} InstanceStays(classes: Classes, s: State, ops: seq<Op>, t: Token, v: Value)
    requires HasInstance(s, t, v) && v != Undefined && forall i :: 0 <= i < |ops| ==> Keeps(ops[i], t)
    ensures HasInstance(Run(classes, s, ops), t, v)
    decreases |ops|
  {
    if ops != [] {
      var before, op := ops[..|ops| - 1], ops[|ops| - 1];
      InstanceStays(classes, s, before, t, v);
      if op.OpResolve? { ResolveFrame(classes, Run(classes, s, before), op.t, op.r, op.k, op.depth); }
    }
  }

  // Main result: whatever happens in between, short of registering it anew or clearing everything,
  // every later resolution of a singleton that has an instance returns that instance and changes
  // nothing; it throws exactly when the stack it is given holds the token already.
  lemma {:induction false} SingletonIsStable(
    classes: Classes, s: State, ops: seq<Op>, t: Token, v: Value, r: string, k: Stack, depth: nat)
    requires !Falsy(t) && HasInstance(s, t, v) && v != Undefined && depth > 0
    requires forall i :: 0 <= i < |ops| ==> Keeps(ops[i], t)
    ensures var s' := Run(classes, s, ops);
            Resolve(classes, s', t, r, k, depth) ==
            Step(if OnStack(s', k, t) then Threw(CircularDependency(t)) else Returned(v), s')
  {
    InstanceStays(classes, s, ops, t, v);
  }

  // The first resolution of a singleton fixes what every later one returns.
  lemma {:induction false} ResolveTwice(
    classes: Classes, s: State, t: Token, r: string, k: Stack, depth: nat,
    ops: seq<Op>, r': string, k': Stack, depth': nat)
    requires !Falsy(t) && ScopeOf(classes, s, t) == Singleton && depth' > 0
    requires t in s.providers || t.Class?
    requires Resolve(classes, s, t, r, k, depth).out.Returned?
    requires Resolve(classes, s, t, r, k, depth).out.v != Undefined
    requires forall i :: 0 <= i < |ops| ==> Keeps(ops[i], t)
    ensures var first := Resolve(classes, s, t, r, k, depth);
            var s' := Run(classes, first.st, ops);
            Resolve(classes, s', t, r', k', depth') ==
            Step(if OnStack(s', k', t) then Threw(CircularDependency(t)) else first.out, s')
  {
    FirstIsCached(classes, s, t, r, k, depth);
    var first := Resolve(classes, s, t, r, k, depth);
    SingletonIsStable(classes, first.st, ops, t, first.out.v, r', k', depth');
  }

  lemma FirstIsCached(classes: Classes, s: State, t: Token, r: string, k: Stack, depth: nat)
    requires !Falsy(t) && ScopeOf(classes, s, t) == Singleton && (t in s.providers || t.Class?)
    requires Resolve(classes, s, t, r, k, depth).out.Returned?
    requires Resolve(classes, s, t, r, k, depth).out.v != Undefined
    ensures CachesFirst(t, Resolve(classes, s, t, r, k, depth))
  {
    if Enter(classes, s, t, r, k).Build? { BuiltIsCached(classes, s, t, r, k, depth, depth - 1); }
  }

  ghost predicate CachesFirst(t: Token, first: Step) {
    first.out.Returned? ==>
      && t in first.st.providers && first.st.providers[t].scope == Singleton
      && first.st.providers[t].instance == first.out.v
  }

  lemma BuiltIsCached(classes: Classes, s: State, t: Token, r: string, k: Stack, depth: nat, room: nat)
    requires !Falsy(t) && ScopeOf(classes, s, t) == Singleton && depth == room + 1
    requires Enter(classes, s, t, r, k).Build?
    ensures CachesFirst(t, Resolve(classes, s, t, r, k, depth))
  {
    var e := Enter(classes, s, t, r, k);
    EnterBuilds(classes, s, t, r, k);
    ResolveAllFrame(classes, e.st, e.p.deps, r, e.p.stack, room);
    var a := ResolveAll(classes, e.st, e.p.deps, r, e.p.stack, room);
    assert MetaFrame(e.st.providers[t], a.st.providers[t]);
    LeaveStores(e.p, a, t, r, k);
    ResolveBuilds(classes, s, t, r, k, depth, room);
  }
}
