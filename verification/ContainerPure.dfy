// Caching is transparent: what `resolve` returns is what building the token from scratch gives.
module ContainerPure {
  import opened ContainerState
  import opened ContainerFrame

  // The recursive construction of t, given what its dependencies are built as: no cache, no
  // request, no state; singletons and request instances are built afresh like transients.
  ghost function Body(classes: Classes, conf: State, pure: Token -> Produced, t: Token): Produced {
    if Falsy(t) then Made(Undefined)
    else if t in conf.providers then
      var m := conf.providers[t];
      if m.scope == Singleton && m.instance != Undefined then Made(m.instance)
      else if m.factory.NoFactory? then Made(Undefined)
      else Make(PlanOf(classes, t, m.factory).make, All(pure, PlanOf(classes, t, m.factory).deps))
    else if t.Class? then Make(classes(t).construct, All(pure, CtorTokens(classes(t))))
    else Made(Undefined)
  }

  datatype ProducedAll = AllMade(vs: seq<Value>) | AnyFailed(code: nat)

  ghost function Make(make: seq<Value> -> Produced, a: ProducedAll): Produced {
    match a
    case AnyFailed(code) => Failed(code)
    case AllMade(vs) => make(vs)
  }

  // The values of a list of tokens, or the failure of the first that fails.
  ghost function All(pure: Token -> Produced, ts: seq<Token>): ProducedAll {
    if ts == [] then AllMade([])
    else
      match pure(ts[0])
      case Failed(code) => AnyFailed(code)
      case Made(v) =>
        match All(pure, ts[1..])
        case AnyFailed(code) => AnyFailed(code)
        case AllMade(vs) => AllMade([v] + vs)
  }

  // `pure` is a recursive construction of every token.
  ghost predicate Constructs(classes: Classes, conf: State, pure: Token -> Produced) {
    forall t {:trigger Body(classes, conf, pure, t)} :: pure(t) == Body(classes, conf, pure, t)
  }

  // s is configured like conf, up to cached singletons and automatically registered classes.
  ghost predicate SameConfig(classes: Classes, conf: map<Token, Metadata>, p: map<Token, Metadata>) {
    && (forall t :: t in conf ==>
          && t in p && p[t].scope == conf[t].scope && p[t].factory == conf[t].factory
          && (conf[t].instance != Undefined || conf[t].scope != Singleton ==> p[t].instance == conf[t].instance))
    && (forall t :: t in p && t !in conf ==> IsAuto(classes, t, p[t]))
  }

  // Whatever is cached is what building it from scratch gives.
  ghost predicate CachedSingletons(pure: Token -> Produced, p: map<Token, Metadata>) {
    forall t :: t in p && !Falsy(t) && p[t].scope == Singleton ==>
      p[t].instance == Undefined || pure(t) == Made(p[t].instance)
  }

  ghost predicate CachedRequests(pure: Token -> Produced, q: map<string, map<Token, Value>>) {
    forall r, t :: r in q && t in q[r] ==> pure(t) == Made(q[r][t])
  }

  ghost predicate Sound(classes: Classes, conf: State, pure: Token -> Produced, s: State) {
    && SameConfig(classes, conf.providers, s.providers)
    && CachedSingletons(pure, s.providers)
    && CachedRequests(pure, s.requests)
  }

  ghost predicate Agrees(out: Outcome, p: Produced) {
    && (out.Returned? ==> p == Made(out.v))
    && (out.Threw? && out.e.FactoryError? ==> p == Failed(out.e.code))
  }

  ghost predicate AgreesAll(outs: Outcomes, p: ProducedAll) {
    && (outs.AllReturned? ==> p == AllMade(outs.vs))
    && (outs.AnyThrew? && outs.e.FactoryError? ==> p == AnyFailed(outs.e.code))
  }

  lemma SingletonsOnPrepared(classes: Classes, pure: Token -> Produced, s: State, t: Token, r: string, k: Stack)
    requires CachedSingletons(pure, s.providers)
    ensures CachedSingletons(pure, AutoRegister(classes, s, t, k).providers)
    ensures CachedSingletons(pure, Prepared(classes, s, t, r, k).providers)
  {}

  lemma RequestsOnPrepared(classes: Classes, pure: Token -> Produced, s: State, t: Token, r: string, k: Stack)
    requires CachedRequests(pure, s.requests)
    ensures CachedRequests(pure, AutoRegister(classes, s, t, k).requests)
    ensures CachedRequests(pure, Prepared(classes, s, t, r, k).requests)
  {}

  lemma ConfigOnPrepared(
    classes: Classes, conf: map<Token, Metadata>, s: State, t: Token, r: string, k: Stack)
    requires SameConfig(classes, conf, s.providers)
    ensures SameConfig(classes, conf, AutoRegister(classes, s, t, k).providers)
    ensures SameConfig(classes, conf, Prepared(classes, s, t, r, k).providers)
  {}

  lemma SoundOnPrepared(
    classes: Classes, conf: State, pure: Token -> Produced, s: State, t: Token, r: string, k: Stack)
    requires Sound(classes, conf, pure, s)
    ensures Sound(classes, conf, pure, AutoRegister(classes, s, t, k))
    ensures Sound(classes, conf, pure, Prepared(classes, s, t, r, k))
  {
    SingletonsOnPrepared(classes, pure, s, t, r, k);
    RequestsOnPrepared(classes, pure, s, t, r, k);
    ConfigOnPrepared(classes, conf.providers, s, t, r, k);
  }

  // What soundness says about one token.
  ghost predicate SoundAt(classes: Classes, conf: State, pure: Token -> Produced, s: State, t: Token, r: string) {
    && (t in conf.providers ==>
          && t in s.providers && s.providers[t].scope == conf.providers[t].scope
          && s.providers[t].factory == conf.providers[t].factory
          && (conf.providers[t].instance != Undefined || conf.providers[t].scope != Singleton ==>
                s.providers[t].instance == conf.providers[t].instance))
    && (t in s.providers && t !in conf.providers ==> IsAuto(classes, t, s.providers[t]))
    && (t in s.providers && s.providers[t].scope == Singleton && s.providers[t].instance != Undefined ==>
          pure(t) == Made(s.providers[t].instance))
    && (r in s.requests && t in s.requests[r] ==> pure(t) == Made(s.requests[r][t]))
  }

  lemma SoundPoint(classes: Classes, conf: State, pure: Token -> Produced, s: State, t: Token, r: string)
    requires Sound(classes, conf, pure, s) && !Falsy(t)
    ensures SoundAt(classes, conf, pure, s, t, r)
  {}

  lemma AgreesAtDone(classes: Classes, conf: State, pure: Token -> Produced, s: State, t: Token, r: string, k: Stack)
    requires SoundAt(classes, conf, pure, AutoRegister(classes, s, t, k), t, r)
    requires !Falsy(t) && Enter(classes, s, t, r, k).Done?
    requires pure(t) == Body(classes, conf, pure, t)
    ensures Agrees(Enter(classes, s, t, r, k).out, pure(t))
  {}

  lemma SoundOnDone(
    classes: Classes, conf: State, pure: Token -> Produced, s: State, t: Token, r: string, k: Stack)
    requires Constructs(classes, conf, pure) && Sound(classes, conf, pure, s)
    requires !Falsy(t) && Enter(classes, s, t, r, k).Done?
    ensures var e := Enter(classes, s, t, r, k);
            Sound(classes, conf, pure, e.st) && Agrees(e.out, pure(t))
  {
    SoundOnPrepared(classes, conf, pure, s, t, r, k);
    EnterDone(classes, s, t, r, k);
    SoundPoint(classes, conf, pure, AutoRegister(classes, s, t, k), t, r);
    assert pure(t) == Body(classes, conf, pure, t);
    AgreesAtDone(classes, conf, pure, s, t, r, k);
  }

  lemma PlanAtBuild(classes: Classes, conf: State, pure: Token -> Produced, s: State, t: Token, r: string, k: Stack)
    requires SoundAt(classes, conf, pure, s, t, r) && Due(s, t, r, k)
    requires !Falsy(t) && pure(t) == Body(classes, conf, pure, t)
    ensures var p := PlanOf(classes, t, s.providers[t].factory); pure(t) == Make(p.make, All(pure, p.deps))
  {}

  lemma ConfigOnMarked(classes: Classes, conf: map<Token, Metadata>, s: State, t: Token)
    requires SameConfig(classes, conf, s.providers) && t in s.providers
    ensures SameConfig(classes, conf, Marked(s, t).providers)
  {}

  lemma SingletonsOnMarked(pure: Token -> Produced, s: State, t: Token)
    requires CachedSingletons(pure, s.providers) && t in s.providers
    ensures CachedSingletons(pure, Marked(s, t).providers)
  {}

  lemma SoundOnMarked(classes: Classes, conf: State, pure: Token -> Produced, s: State, t: Token, k: Stack)
    requires Sound(classes, conf, pure, s) && t in s.providers
    ensures Sound(classes, conf, pure, Push(Marked(s, t), k, t))
  {
    PushMarked(s, t, k);
    ConfigOnMarked(classes, conf.providers, s, t);
    SingletonsOnMarked(pure, s, t);
  }

  lemma SoundOnBuild(
    classes: Classes, conf: State, pure: Token -> Produced, s: State, t: Token, r: string, k: Stack)
    requires Constructs(classes, conf, pure) && Sound(classes, conf, pure, s)
    requires !Falsy(t) && Enter(classes, s, t, r, k).Build?
    ensures var e := Enter(classes, s, t, r, k);
            Sound(classes, conf, pure, e.st) && pure(t) == Make(e.p.make, All(pure, e.p.deps))
  {
    var s1 := Prepared(classes, s, t, r, k);
    SoundOnPrepared(classes, conf, pure, s, t, r, k);
    EnterBuilds(classes, s, t, r, k);
    SoundOnMarked(classes, conf, pure, s1, t, k);
    SoundPoint(classes, conf, pure, s1, t, r);
    assert pure(t) == Body(classes, conf, pure, t);
    PlanAtBuild(classes, conf, pure, s1, t, r, k);
  }

  lemma SoundOnStore(
    classes: Classes, conf: State, pure: Token -> Produced, s: State, t: Token, r: string, out: Outcome)
    requires Sound(classes, conf, pure, s) && t in s.providers && (out.Returned? ==> pure(t) == Made(out.v))
    requires t in conf.providers ==> conf.providers[t].scope != Singleton || conf.providers[t].instance == Undefined
    ensures Sound(classes, conf, pure, Store(s, t, r, out))
  {
    SoundPointConfig(classes, conf.providers, s, t, r, out);
    SingletonsOnStore(pure, s, t, r, out);
    RequestsOnStore(pure, s, t, r, out);
  }

  lemma SoundPointConfig(classes: Classes, conf: map<Token, Metadata>, s: State, t: Token, r: string, out: Outcome)
    requires SameConfig(classes, conf, s.providers) && t in s.providers
    requires t in conf ==> conf[t].scope != Singleton || conf[t].instance == Undefined
    ensures SameConfig(classes, conf, Store(s, t, r, out).providers)
  {}

  lemma SingletonsOnStore(pure: Token -> Produced, s: State, t: Token, r: string, out: Outcome)
    requires CachedSingletons(pure, s.providers) && t in s.providers && (out.Returned? ==> pure(t) == Made(out.v))
    ensures CachedSingletons(pure, Store(s, t, r, out).providers)
  {}

  lemma RequestsOnStore(pure: Token -> Produced, s: State, t: Token, r: string, out: Outcome)
    requires CachedRequests(pure, s.requests) && t in s.providers && (out.Returned? ==> pure(t) == Made(out.v))
    ensures CachedRequests(pure, Store(s, t, r, out).requests)
  {}

  lemma SoundOnReturn(
    classes: Classes, conf: State, pure: Token -> Produced, p: Plan, a: Steps, t: Token, r: string, k: Stack)
    requires Sound(classes, conf, pure, a.st) && Builds(a.st, t)
    requires t in conf.providers ==> conf.providers[t].scope != Singleton || conf.providers[t].instance == Undefined
    requires AgreesAll(a.outs, All(pure, p.deps)) && pure(t) == Make(p.make, All(pure, p.deps))
    ensures var f := Construct(p, t, r, a);
            Sound(classes, conf, pure, Leave(f.st, t, r, k, f.out)) && Agrees(f.out, pure(t))
  {
    var f := Construct(p, t, r, a);
    assert Sound(classes, conf, pure, f.st);
    SoundOnStore(classes, conf, pure, f.st, t, r, f.out);
    assert Sound(classes, conf, pure, Pop(Store(f.st, t, r, f.out), k, t));
  }

  // From any sound state, on any graph: a resolution leaves a sound state; if it returns, it
  // returns the recursive construction; if a factory throws, the construction fails the same way.
  lemma {:induction false} ResolveSound(
    classes: Classes, conf: State, pure: Token -> Produced, s: State, t: Token, r: string, k: Stack, depth: nat)
    requires Constructs(classes, conf, pure) && Sound(classes, conf, pure, s)
    ensures var res := Resolve(classes, s, t, r, k, depth);
            Sound(classes, conf, pure, res.st) && Agrees(res.out, pure(t))
    decreases depth, 1
  {
    if !Falsy(t) && depth > 0 && Enter(classes, s, t, r, k).Build? {
      BuildSound(classes, conf, pure, s, t, r, k, depth, depth - 1);
    } else {
      SoundWithoutBuild(classes, conf, pure, s, t, r, k, depth);
    }
  }

  lemma {:induction false} BuildSound(
    classes: Classes, conf: State, pure: Token -> Produced, s: State, t: Token, r: string, k: Stack, depth: nat, room: nat)
    requires Constructs(classes, conf, pure) && Sound(classes, conf, pure, s)
    requires !Falsy(t) && depth == room + 1 && Enter(classes, s, t, r, k).Build?
    ensures var res := Resolve(classes, s, t, r, k, depth);
            Sound(classes, conf, pure, res.st) && Agrees(res.out, pure(t))
    decreases depth, 0
  {
    var e := Enter(classes, s, t, r, k);
    SoundOnBuild(classes, conf, pure, s, t, r, k);
    ResolveAllSound(classes, conf, pure, e.st, e.p.deps, r, e.p.stack, room);
    SoundAfterDeps(classes, conf, pure, s, t, r, k, depth, room);
  }

  ghost predicate AllSound(
    classes: Classes, conf: State, pure: Token -> Produced, s: State, ts: seq<Token>, r: string, k: Stack, depth: nat)
  {
    var a := ResolveAll(classes, s, ts, r, k, depth);
    Sound(classes, conf, pure, a.st) && AgreesAll(a.outs, All(pure, ts))
  }

  lemma SoundWithoutBuild(
    classes: Classes, conf: State, pure: Token -> Produced, s: State, t: Token, r: string, k: Stack, depth: nat)
    requires Constructs(classes, conf, pure) && Sound(classes, conf, pure, s)
    requires !Falsy(t) && depth > 0 ==> Enter(classes, s, t, r, k).Done?
    ensures var res := Resolve(classes, s, t, r, k, depth);
            Sound(classes, conf, pure, res.st) && Agrees(res.out, pure(t))
  {
    if Falsy(t) {
      assert pure(t) == Body(classes, conf, pure, t);
    } else if depth > 0 {
      SoundOnDone(classes, conf, pure, s, t, r, k);
    }
  }

  lemma SoundAfterDeps(
    classes: Classes, conf: State, pure: Token -> Produced, s: State, t: Token, r: string, k: Stack, depth: nat, room: nat)
    requires Sound(classes, conf, pure, s)
    requires !Falsy(t) && depth == room + 1 && Enter(classes, s, t, r, k).Build?
    requires var e := Enter(classes, s, t, r, k);
             && pure(t) == Make(e.p.make, All(pure, e.p.deps))
             && AllSound(classes, conf, pure, e.st, e.p.deps, r, e.p.stack, room)
    ensures var res := Resolve(classes, s, t, r, k, depth);
            Sound(classes, conf, pure, res.st) && Agrees(res.out, pure(t))
  {
    var e := Enter(classes, s, t, r, k);
    StillDue(classes, conf, s, t, r, k, room);
    SoundOnReturn(classes, conf, pure, e.p, ResolveAll(classes, e.st, e.p.deps, r, e.p.stack, room), t, r, k);
    ResolveBuilds(classes, s, t, r, k, depth, room);
  }

  lemma StillDue(classes: Classes, conf: State, s: State, t: Token, r: string, k: Stack, depth: nat)
    requires SameConfig(classes, conf.providers, s.providers)
    requires !Falsy(t) && Enter(classes, s, t, r, k).Build?
    ensures var e := Enter(classes, s, t, r, k);
            Builds(ResolveAll(classes, e.st, e.p.deps, r, e.p.stack, depth).st, t)
    ensures t in conf.providers ==> conf.providers[t].scope != Singleton || conf.providers[t].instance == Undefined
  {
    var e := Enter(classes, s, t, r, k);
    EnterBuilds(classes, s, t, r, k);
    ResolveAllFrame(classes, e.st, e.p.deps, r, e.p.stack, depth);
  }

  lemma {:induction false} ResolveAllSound(
    classes: Classes, conf: State, pure: Token -> Produced, s: State, ts: seq<Token>, r: string, k: Stack, depth: nat)
    requires Constructs(classes, conf, pure) && Sound(classes, conf, pure, s)
    ensures AllSound(classes, conf, pure, s, ts, r, k, depth)
    decreases depth, 1 + |ts|
  {
    if ts != [] {
      ResolveSound(classes, conf, pure, s, ts[0], r, k, depth);
      var first := Resolve(classes, s, ts[0], r, k, depth);
      if first.out.Returned? {
        ResolveAllSound(classes, conf, pure, first.st, ts[1..], r, k, depth);
      }
    }
  }

  // --- The recursive construction exists, and is unique, on acyclic graphs ---

  // `rank` falls along every dependency of the configured container: the graph is acyclic.
  ghost predicate Ranked(classes: Classes, conf: State, rank: Token -> nat) {
    forall t, d :: d in Deps(classes, conf, t) && !Falsy(d) ==> rank(d) < rank(t)
  }

  ghost function PureTo(classes: Classes, conf: State, n: nat): Token -> Produced {
    t => if n == 0 then Made(Undefined) else Body(classes, conf, PureTo(classes, conf, n - 1), t)
  }

  ghost function Pure(classes: Classes, conf: State, rank: Token -> nat): Token -> Produced {
    t => PureTo(classes, conf, rank(t) + 1)(t)
  }

  ghost predicate SameOn(f: Token -> Produced, g: Token -> Produced, ts: seq<Token>) {
    forall i :: 0 <= i < |ts| ==> f(ts[i]) == g(ts[i])
  }

  lemma {:induction false} AllSame(f: Token -> Produced, g: Token -> Produced, ts: seq<Token>)
    requires SameOn(f, g, ts)
    ensures All(f, ts) == All(g, ts)
  {
    if ts != [] {
      assert f(ts[0]) == g(ts[0]);
      forall i | 0 <= i < |ts[1..]| ensures f(ts[1..][i]) == g(ts[1..][i]) { assert ts[1..][i] == ts[i + 1]; }
      AllSame(f, g, ts[1..]);
    }
  }

  lemma BodySame(classes: Classes, conf: State, f: Token -> Produced, g: Token -> Produced, t: Token)
    requires SameOn(f, g, Deps(classes, conf, t))
    ensures Body(classes, conf, f, t) == Body(classes, conf, g, t)
  {
    AllSame(f, g, Deps(classes, conf, t));
  }

  lemma {:induction false} PureStable(
    classes: Classes, conf: State, rank: Token -> nat, t: Token, n: nat, m: nat)
    requires Ranked(classes, conf, rank) && n > 0 && m > 0
    requires Falsy(t) || (n > rank(t) && m > rank(t))
    ensures PureTo(classes, conf, n)(t) == PureTo(classes, conf, m)(t)
    decreases n
  {
    if !Falsy(t) {
      var f, g := PureTo(classes, conf, n - 1), PureTo(classes, conf, m - 1);
      forall i | 0 <= i < |Deps(classes, conf, t)| ensures f(Deps(classes, conf, t)[i]) == g(Deps(classes, conf, t)[i]) {
        var d := Deps(classes, conf, t)[i];
        if n - 1 > 0 && m - 1 > 0 { PureStable(classes, conf, rank, d, n - 1, m - 1); }
      }
      BodySame(classes, conf, f, g, t);
    }
  }

  lemma {:induction false} PureConstructs(classes: Classes, conf: State, rank: Token -> nat)
    requires Ranked(classes, conf, rank)
    ensures Constructs(classes, conf, Pure(classes, conf, rank))
  {
    var pure := Pure(classes, conf, rank);
    forall t ensures pure(t) == Body(classes, conf, pure, t) {
      PureAt(classes, conf, rank, t);
    }
  }

  lemma PureAt(classes: Classes, conf: State, rank: Token -> nat, t: Token)
    requires Ranked(classes, conf, rank)
    ensures Pure(classes, conf, rank)(t) == Body(classes, conf, Pure(classes, conf, rank), t)
  {
    PureToStep(classes, conf, rank(t) + 1, t);
    DepsSame(classes, conf, rank, t);
    BodySame(classes, conf, PureTo(classes, conf, rank(t)), Pure(classes, conf, rank), t);
  }

  lemma PureToStep(classes: Classes, conf: State, n: nat, t: Token)
    requires n > 0
    ensures PureTo(classes, conf, n)(t) == Body(classes, conf, PureTo(classes, conf, n - 1), t)
  {}

  lemma DepSame(classes: Classes, conf: State, rank: Token -> nat, t: Token, d: Token, n: nat, m: nat)
    requires Ranked(classes, conf, rank) && d in Deps(classes, conf, t) && n == rank(t) && m == rank(d) + 1
    ensures PureTo(classes, conf, n)(d) == Pure(classes, conf, rank)(d)
  {
    PureIs(classes, conf, rank, d, m);
    if n > 0 { PureStable(classes, conf, rank, d, n, m); }
  }

  lemma PureIs(classes: Classes, conf: State, rank: Token -> nat, d: Token, n: nat)
    requires n == rank(d) + 1
    ensures Pure(classes, conf, rank)(d) == PureTo(classes, conf, n)(d)
    ensures Falsy(d) ==> PureTo(classes, conf, n)(d) == Made(Undefined)
  {}

  lemma DepsSame(classes: Classes, conf: State, rank: Token -> nat, t: Token)
    requires Ranked(classes, conf, rank)
    ensures SameOn(PureTo(classes, conf, rank(t)), Pure(classes, conf, rank), Deps(classes, conf, t))
  {
    forall i | 0 <= i < |Deps(classes, conf, t)|
      ensures PureTo(classes, conf, rank(t))(Deps(classes, conf, t)[i]) == Pure(classes, conf, rank)(Deps(classes, conf, t)[i])
    {
      var d := Deps(classes, conf, t)[i];
      DepSame(classes, conf, rank, t, d, rank(t), rank(d) + 1);
    }
  }

  lemma {:induction false} ConstructionIsUnique(
    classes: Classes, conf: State, rank: Token -> nat, f: Token -> Produced, g: Token -> Produced, t: Token)
    requires Ranked(classes, conf, rank) && Constructs(classes, conf, f) && Constructs(classes, conf, g)
    ensures f(t) == g(t)
    decreases rank(t)
  {
    assert f(t) == Body(classes, conf, f, t) && g(t) == Body(classes, conf, g, t);
    if !Falsy(t) {
      var deps := Deps(classes, conf, t);
      forall i | 0 <= i < |deps| ensures f(deps[i]) == g(deps[i]) {
        if Falsy(deps[i]) {
          assert f(deps[i]) == Body(classes, conf, f, deps[i]) && g(deps[i]) == Body(classes, conf, g, deps[i]);
        } else {
          ConstructionIsUnique(classes, conf, rank, f, g, deps[i]);
        }
      }
      BodySame(classes, conf, f, g, t);
    }
  }

  ghost predicate Below(ts: seq<Token>, rank: Token -> nat, n: nat) {
    forall i :: 0 <= i < |ts| && !Falsy(ts[i]) ==> rank(ts[i]) < n
  }

  // --- Completeness: with a request id, room on the call stack and no stack passed in,
  // --- nothing but a factory can throw.

  ghost predicate NoCapturedStack(s: State) {
    forall t :: t in s.providers && s.providers[t].factory.AutoClass? ==> s.providers[t].factory.stack == NoStack
  }

  ghost predicate InProgressFrom(s: State, rank: Token -> nat, n: nat) {
    forall t :: t in s.providers && s.providers[t].isResolving ==> rank(t) >= n
  }

  ghost predicate Quiet(s: State, rank: Token -> nat, n: nat) {
    NoCapturedStack(s) && InProgressFrom(s, rank, n)
  }

  lemma QuietFrame(classes: Classes, s: State, s': State, rank: Token -> nat, n: nat)
    requires Quiet(s, rank, n) && ProvidersFrame(classes, s.providers, s'.providers) && NoCapturedStack(s')
    ensures Quiet(s', rank, n)
  {}

  lemma DoneReturns(classes: Classes, rank: Token -> nat, s: State, t: Token, r: string)
    requires !Falsy(t) && r != "" && InProgressFrom(s, rank, rank(t) + 1)
    requires Enter(classes, s, t, r, NoStack).Done?
    ensures Enter(classes, s, t, r, NoStack).out.Returned?
  {}

  lemma InProgressOnBuild(classes: Classes, rank: Token -> nat, s: State, t: Token, r: string)
    requires InProgressFrom(s, rank, rank(t) + 1)
    requires Enter(classes, s, t, r, NoStack).Build?
    ensures InProgressFrom(Enter(classes, s, t, r, NoStack).st, rank, rank(t))
  {}

  lemma QuietOnEnter(classes: Classes, rank: Token -> nat, s: State, t: Token, r: string)
    requires !Falsy(t) && r != "" && Quiet(s, rank, rank(t) + 1)
    ensures var e := Enter(classes, s, t, r, NoStack);
            && (e.Done? ==> e.out.Returned?)
            && (e.Build? ==> Quiet(e.st, rank, rank(t)) && e.p.stack == NoStack)
  {
    if Enter(classes, s, t, r, NoStack).Done? {
      DoneReturns(classes, rank, s, t, r);
    } else {
      InProgressOnBuild(classes, rank, s, t, r);
      StacklessOnBuild(classes, s, t, r);
    }
  }

  lemma CompleteOnBuild(
    classes: Classes, conf: State, rank: Token -> nat, s: State, t: Token, r: string)
    requires Ranked(classes, conf, rank) && SameConfig(classes, conf.providers, s.providers)
    requires !Falsy(t) && Enter(classes, s, t, r, NoStack).Build?
    ensures var e := Enter(classes, s, t, r, NoStack);
            SameConfig(classes, conf.providers, e.st.providers) && Below(e.p.deps, rank, rank(t))
  {
    var s1 := Prepared(classes, s, t, r, NoStack);
    EnterBuilds(classes, s, t, r, NoStack);
    PreparedFrame(classes, s, t, r, NoStack);
    SameConfigFrame(classes, conf, s, s1);
    ConfigOnMarked(classes, conf.providers, s1, t);
    PushMarked(s1, t, NoStack);
    assert Enter(classes, s, t, r, NoStack).p.deps == Deps(classes, conf, t);
    DepsBelow(classes, conf, rank, t);
  }

  lemma DepsBelow(classes: Classes, conf: State, rank: Token -> nat, t: Token)
    requires Ranked(classes, conf, rank)
    ensures Below(Deps(classes, conf, t), rank, rank(t))
  {
    var deps := Deps(classes, conf, t);
    forall i | 0 <= i < |deps| && !Falsy(deps[i]) ensures rank(deps[i]) < rank(t) {
      assert deps[i] in deps;
    }
  }

  lemma {:induction false} ResolveComplete(
    classes: Classes, conf: State, rank: Token -> nat, s: State, t: Token, r: string, depth: nat)
    requires Ranked(classes, conf, rank) && SameConfig(classes, conf.providers, s.providers)
    requires r != "" && (!Falsy(t) ==> depth > rank(t) && Quiet(s, rank, rank(t) + 1))
    ensures var res := Resolve(classes, s, t, r, NoStack, depth);
            res.out.Threw? ==> res.out.e.FactoryError?
    decreases depth, 1
  {
    if Falsy(t) { return; }
    QuietOnEnter(classes, rank, s, t, r);
    if Enter(classes, s, t, r, NoStack).Build? { BuildComplete(classes, conf, rank, s, t, r, depth, depth - 1); }
  }

  lemma {:induction false} BuildComplete(
    classes: Classes, conf: State, rank: Token -> nat, s: State, t: Token, r: string, depth: nat, room: nat)
    requires Ranked(classes, conf, rank) && SameConfig(classes, conf.providers, s.providers)
    requires r != "" && !Falsy(t) && room + 1 == depth > rank(t) && Quiet(s, rank, rank(t) + 1)
    requires Enter(classes, s, t, r, NoStack).Build?
    ensures var res := Resolve(classes, s, t, r, NoStack, depth);
            res.out.Threw? ==> res.out.e.FactoryError?
    decreases depth, 0
  {
    var e := Enter(classes, s, t, r, NoStack);
    QuietOnEnter(classes, rank, s, t, r);
    CompleteOnBuild(classes, conf, rank, s, t, r);
    ResolveAllComplete(classes, conf, rank, e.st, e.p.deps, r, room, rank(t));
    ResolveBuilds(classes, s, t, r, NoStack, depth, room);
  }

  lemma SameConfigFrame(classes: Classes, conf: State, s: State, s': State)
    requires SameConfig(classes, conf.providers, s.providers) && ProvidersFrame(classes, s.providers, s'.providers)
    ensures SameConfig(classes, conf.providers, s'.providers)
  {}

  lemma {:induction false} ResolveAllComplete(
    classes: Classes, conf: State, rank: Token -> nat, s: State, ts: seq<Token>, r: string, depth: nat, n: nat)
    requires Ranked(classes, conf, rank) && SameConfig(classes, conf.providers, s.providers)
    requires r != "" && depth >= n && Below(ts, rank, n) && Quiet(s, rank, n)
    ensures var res := ResolveAll(classes, s, ts, r, NoStack, depth);
            res.outs.AnyThrew? ==> res.outs.e.FactoryError?
    decreases depth, 1 + |ts|
  {
    if ts != [] {
      ResolveComplete(classes, conf, rank, s, ts[0], r, depth);
      var first := Resolve(classes, s, ts[0], r, NoStack, depth);
      if first.out.Returned? {
        ResolveFrame(classes, s, ts[0], r, NoStack, depth);
        StacklessResolve(classes, s, ts[0], r, depth);
        QuietFrame(classes, s, first.st, rank, n);
        SameConfigFrame(classes, conf, s, first.st);
        ResolveAllComplete(classes, conf, rank, first.st, ts[1..], r, depth, n);
      }
    }
  }

  // --- Histories over a fixed configuration ---

  ghost predicate Configured(conf: State) {
    conf.requests == map[] && forall t :: t in conf.providers ==> Fresh(conf.providers[t])
  }

  ghost predicate Uses(op: Op) {
    op.OpResolve? || op.OpStacks? || op.OpClearRequest?
  }

  ghost predicate Stackless(op: Op) {
    op.OpResolve? ==> op.k == NoStack
  }

  lemma {:induction false} HistorySound(classes: Classes, conf: State, pure: Token -> Produced, ops: seq<Op>)
    requires Constructs(classes, conf, pure) && Configured(conf)
    requires forall i :: 0 <= i < |ops| ==> Uses(ops[i])
    ensures Sound(classes, conf, pure, Run(classes, conf, ops))
    ensures forall t :: t in Run(classes, conf, ops).providers ==> !Run(classes, conf, ops).providers[t].isResolving
    ensures (forall i :: 0 <= i < |ops| ==> Stackless(ops[i])) ==> NoCapturedStack(Run(classes, conf, ops))
    decreases |ops|
  {
    if ops == [] {
      forall t | t in conf.providers && !Falsy(t) && conf.providers[t].scope == Singleton
        ensures conf.providers[t].instance == Undefined || pure(t) == Made(conf.providers[t].instance)
      {
        assert pure(t) == Body(classes, conf, pure, t);
      }
    } else {
      var before := ops[..|ops| - 1];
      var op := ops[|ops| - 1];
      HistorySound(classes, conf, pure, before);
      var s := Run(classes, conf, before);
      if op.OpResolve? {
        ResolveSound(classes, conf, pure, s, op.t, op.r, op.k, op.depth);
        ResolveFrame(classes, s, op.t, op.r, op.k, op.depth);
        if forall i :: 0 <= i < |ops| ==> Stackless(ops[i]) {
          assert forall i :: 0 <= i < |before| ==> Stackless(before[i]) by {
            forall i | 0 <= i < |before| ensures Stackless(before[i]) { assert before[i] == ops[i]; }
          }
          StacklessResolve(classes, s, op.t, op.r, op.depth);
        }
      } else {
        forall i | 0 <= i < |before| ensures before[i] == ops[i] {}
      }
    }
  }

  lemma {:induction false} StacklessResolve(classes: Classes, s: State, t: Token, r: string, depth: nat)
    requires NoCapturedStack(s)
    ensures NoCapturedStack(Resolve(classes, s, t, r, NoStack, depth).st)
    decreases depth, 0
  {
    if Falsy(t) || depth == 0 { return; }
    var e := Enter(classes, s, t, r, NoStack);
    if e.Build? {
      StacklessOnBuild(classes, s, t, r);
      StacklessResolveAll(classes, e.st, e.p.deps, r, depth - 1);
      var f := Construct(e.p, t, r, ResolveAll(classes, e.st, e.p.deps, r, NoStack, depth - 1));
      assert NoCapturedStack(f.st);
      StacklessOnLeave(f.st, t, r, f.out);
    } else {
      StacklessOnDone(classes, s, t, r);
    }
  }

  lemma StacklessOnDone(classes: Classes, s: State, t: Token, r: string)
    requires NoCapturedStack(s) && Enter(classes, s, t, r, NoStack).Done?
    ensures NoCapturedStack(Enter(classes, s, t, r, NoStack).st)
  {}

  lemma StacklessOnBuild(classes: Classes, s: State, t: Token, r: string)
    requires NoCapturedStack(s) && Enter(classes, s, t, r, NoStack).Build?
    ensures var e := Enter(classes, s, t, r, NoStack); NoCapturedStack(e.st) && e.p.stack == NoStack
  {}

  lemma StacklessOnLeave(s: State, t: Token, r: string, out: Outcome)
    requires NoCapturedStack(s)
    ensures NoCapturedStack(Leave(s, t, r, NoStack, out))
  {}

  lemma {:induction false} StacklessResolveAll(classes: Classes, s: State, ts: seq<Token>, r: string, depth: nat)
    requires NoCapturedStack(s)
    ensures NoCapturedStack(ResolveAll(classes, s, ts, r, NoStack, depth).st)
    decreases depth, 1 + |ts|
  {
    if ts != [] {
      StacklessResolve(classes, s, ts[0], r, depth);
      var first := Resolve(classes, s, ts[0], r, NoStack, depth);
      if first.out.Returned? { StacklessResolveAll(classes, first.st, ts[1..], r, depth); }
    }
  }

  // Main result.  In every state reached by resolving, clearing requests and passing stacks
  // around: a resolution that returns gives the recursive construction.
  lemma {:induction false} MemoisationIsTransparent(
    classes: Classes, conf: State, pure: Token -> Produced, ops: seq<Op>, t: Token, r: string, k: Stack, depth: nat)
    requires Constructs(classes, conf, pure) && Configured(conf)
    requires forall i :: 0 <= i < |ops| ==> Uses(ops[i])
    ensures Agrees(Resolve(classes, Run(classes, conf, ops), t, r, k, depth).out, pure(t))
  {
    HistorySound(classes, conf, pure, ops);
    ResolveSound(classes, conf, pure, Run(classes, conf, ops), t, r, k, depth);
  }

  // On an acyclic graph, when no caller passes a stack, a request id is given and the call stack
  // has room, the outcome is exactly the recursive construction, failures included.
  lemma {:induction false} ResolutionIsPure(
    classes: Classes, conf: State, rank: Token -> nat, ops: seq<Op>, t: Token, r: string, depth: nat)
    requires Ranked(classes, conf, rank) && Configured(conf)
    requires forall i :: 0 <= i < |ops| ==> Uses(ops[i]) && Stackless(ops[i])
    requires r != "" && depth > rank(t)
    ensures Resolve(classes, Run(classes, conf, ops), t, r, NoStack, depth).out ==
            match Pure(classes, conf, rank)(t) { case Made(v) => Returned(v) case Failed(c) => Threw(FactoryError(c)) }
  {
    var pure := Pure(classes, conf, rank);
    PureConstructs(classes, conf, rank);
    HistorySound(classes, conf, pure, ops);
    var s := Run(classes, conf, ops);
    ResolveSound(classes, conf, pure, s, t, r, NoStack, depth);
    assert Quiet(s, rank, rank(t) + 1);
    ResolveComplete(classes, conf, rank, s, t, r, depth);
  }
}
