// Whether what is resolved for one request holds instances that were built for another.
module RequestIsolation {
  import opened ContainerState
  import opened ContainerFrame
  import opened ContainerPure
  import opened ContainerTermination
  import opened Graphs
  import ContainerOnce
  import ContainerOverflow

  // For every cached value, the requests for which an instance in it, at any depth, was built.
  datatype Held = Held(singles: map<Token, set<string>>, scoped: map<string, map<Token, set<string>>>)
  datatype HeldStep = HeldStep(whose: set<string>, held: Held)

  const NOTHING := Held(map[], map[])

  ghost function Single(h: Held, t: Token): set<string> {
    if t in h.singles then h.singles[t] else {}
  }

  ghost function ScopedFor(h: Held, r: string): map<Token, set<string>> {
    if r in h.scoped then h.scoped[r] else map[]
  }

  ghost function InScope(h: Held, r: string, t: Token): set<string> {
    if t in ScopedFor(h, r) then ScopedFor(h, r)[t] else {}
  }

  ghost function CachedBy(classes: Classes, s: State, h: Held, t: Token, r: string): set<string> {
    match ScopeOf(classes, s, t)
    case Singleton => Single(h, t)
    case Transient => {}
    case Request => InScope(h, r, t)
  }

  // A new instance holds what its dependencies hold and, if it is request-scoped, is one itself.
  ghost function Finish(scope: Scope, parts: HeldStep, t: Token, r: string): HeldStep {
    match scope
    case Singleton => HeldStep(parts.whose, parts.held.(singles := parts.held.singles[t := parts.whose]))
    case Transient => parts
    case Request =>
      var whose := parts.whose + {r};
      HeldStep(whose, parts.held.(scoped := parts.held.scoped[r := ScopedFor(parts.held, r)[t := whose]]))
  }

  // What the value that `Resolve` returns holds; it follows the resolution step by step.
  ghost function HeldBy(classes: Classes, s: State, h: Held, t: Token, r: string, k: Stack, depth: nat): HeldStep
    decreases depth, 0
  {
    if Falsy(t) || depth == 0 then HeldStep({}, h)
    else
      match Enter(classes, s, t, r, k)
      case Done(out, st) => HeldStep(if out.Returned? then CachedBy(classes, s, h, t, r) else {}, h)
      case Build(p, st) =>
        var parts := HeldByAll(classes, st, h, p.deps, r, p.stack, depth - 1);
        if Resolve(classes, s, t, r, k, depth).out.Threw? then HeldStep({}, parts.held)
        else Finish(ScopeOf(classes, s, t), parts, t, r)
  }

  ghost function HeldByAll(classes: Classes, s: State, h: Held, ts: seq<Token>, r: string, k: Stack, depth: nat): HeldStep
    decreases depth, 1 + |ts|
  {
    if ts == [] then HeldStep({}, h)
    else
      var first := HeldBy(classes, s, h, ts[0], r, k, depth);
      var step := Resolve(classes, s, ts[0], r, k, depth);
      if step.out.Threw? then HeldStep({}, first.held)
      else
        var rest := HeldByAll(classes, step.st, first.held, ts[1..], r, k, depth);
        HeldStep(first.whose + rest.whose, rest.held)
  }

  ghost function RunHeld(classes: Classes, s: State, ops: seq<Op>): Held
    decreases |ops|
  {
    if ops == [] then NOTHING
    else
      var before := ops[..|ops| - 1];
      var h := RunHeld(classes, s, before);
      match ops[|ops| - 1]
      case OpRegister(t, m) => h.(singles := h.singles - {t})
      case OpResolve(t, r, k, depth) => HeldBy(classes, Run(classes, s, before), h, t, r, k, depth).held
      case OpStacks(_) => h
      case OpClearRequest(r) => h.(scoped := h.scoped - {r})
      case OpClear => NOTHING
  }

  lemma HeldBuilds(classes: Classes, s: State, h: Held, t: Token, r: string, k: Stack, depth: nat, room: nat)
    requires !Falsy(t) && depth == room + 1 && Enter(classes, s, t, r, k).Build?
    ensures var e := Enter(classes, s, t, r, k);
            var parts := HeldByAll(classes, e.st, h, e.p.deps, r, e.p.stack, room);
            HeldBy(classes, s, h, t, r, k, depth) ==
            if Resolve(classes, s, t, r, k, depth).out.Threw? then HeldStep({}, parts.held)
            else Finish(ScopeOf(classes, s, t), parts, t, r)
  {}

  // --- The condition on the graph ---

  ghost predicate Reaches(classes: Classes, conf: State, a: Token, b: Token) {
    Reachable(Edges(classes, conf), a, b)
  }

  ghost predicate HasFactory(s: State, t: Token) {
    !Falsy(t) && if t in s.providers then !s.providers[t].factory.NoFactory? else t.Class?
  }

  ghost predicate BuiltPerRequest(classes: Classes, conf: State, t: Token) {
    HasFactory(conf, t) && ScopeOf(classes, conf, t) == Request
  }

  // t does not depend, directly or not, on a request-scoped token, nor is one.
  ghost predicate Clean(classes: Classes, conf: State, t: Token) {
    forall x :: Reaches(classes, conf, t, x) ==> !BuiltPerRequest(classes, conf, x)
  }

  // Every singleton t depends on, or is, is clean.
  ghost predicate Isolated(classes: Classes, conf: State, t: Token) {
    forall x :: Reaches(classes, conf, t, x) && ScopeOf(classes, conf, x) == Singleton ==> Clean(classes, conf, x)
  }

  lemma ReachesDep(classes: Classes, conf: State, t: Token, d: Token, x: Token)
    requires d in Deps(classes, conf, t) && Reaches(classes, conf, d, x)
    ensures Reaches(classes, conf, t, x)
  {
    assert d in Edges(classes, conf)(t);
    ReachableStep(Edges(classes, conf), t, d, x);
  }

  lemma DepsOfClean(classes: Classes, conf: State, t: Token, d: Token)
    requires d in Deps(classes, conf, t)
    ensures Clean(classes, conf, t) ==> Clean(classes, conf, d)
    ensures Isolated(classes, conf, t) ==> Isolated(classes, conf, d)
  {
    forall x | Reaches(classes, conf, d, x) ensures Reaches(classes, conf, t, x) { ReachesDep(classes, conf, t, d, x); }
  }

  lemma CleanItself(classes: Classes, conf: State, t: Token)
    ensures Clean(classes, conf, t) ==> !BuiltPerRequest(classes, conf, t)
    ensures Isolated(classes, conf, t) && ScopeOf(classes, conf, t) == Singleton ==> Clean(classes, conf, t)
  {
    ReachableSelf(Edges(classes, conf), t);
  }

  // --- The configuration stays the same ---

  lemma ConfigGraph(classes: Classes, conf: State, s: State, t: Token)
    requires SameConfig(classes, conf.providers, s.providers)
    ensures Deps(classes, s, t) == Deps(classes, conf, t)
    ensures ScopeOf(classes, s, t) == ScopeOf(classes, conf, t)
    ensures HasFactory(s, t) <==> HasFactory(conf, t)
  {}

  lemma ConfigOnBuild(classes: Classes, conf: State, s: State, t: Token, r: string, k: Stack)
    requires SameConfig(classes, conf.providers, s.providers)
    requires !Falsy(t) && Enter(classes, s, t, r, k).Build?
    ensures var e := Enter(classes, s, t, r, k);
            SameConfig(classes, conf.providers, e.st.providers) && e.p.deps == Deps(classes, conf, t)
    ensures HasFactory(conf, t)
  {
    var s1 := Prepared(classes, s, t, r, k);
    ConfigOnPrepared(classes, conf.providers, s, t, r, k);
    EnterBuilds(classes, s, t, r, k);
    ConfigOnMarked(classes, conf.providers, s1, t);
    PushMarked(s1, t, k);
    ConfigGraph(classes, conf, s1, t);
  }

  lemma ConfigOnResolve(classes: Classes, conf: State, s: State, t: Token, r: string, k: Stack, depth: nat)
    requires SameConfig(classes, conf.providers, s.providers)
    ensures SameConfig(classes, conf.providers, Resolve(classes, s, t, r, k, depth).st.providers)
  {
    ResolveFrame(classes, s, t, r, k, depth);
    SameConfigFrame(classes, conf, s, Resolve(classes, s, t, r, k, depth).st);
  }

  // --- Isolated tokens stay apart ---

  ghost predicate Apart(classes: Classes, conf: State, h: Held) {
    && (forall t :: Clean(classes, conf, t) ==> Single(h, t) == {} && forall r: string :: InScope(h, r, t) == {})
    && (forall r: string, t :: Isolated(classes, conf, t) ==> InScope(h, r, t) <= {r})
  }

  ghost predicate Bounded(classes: Classes, conf: State, t: Token, r: string, whose: set<string>) {
    (Clean(classes, conf, t) ==> whose == {}) && (Isolated(classes, conf, t) ==> whose <= {r})
  }

  ghost predicate AllBounded(classes: Classes, conf: State, ts: seq<Token>, r: string, whose: set<string>) {
    && ((forall i :: 0 <= i < |ts| ==> Clean(classes, conf, ts[i])) ==> whose == {})
    && ((forall i :: 0 <= i < |ts| ==> Isolated(classes, conf, ts[i])) ==> whose <= {r})
  }

  lemma ApartOnDone(classes: Classes, conf: State, s: State, h: Held, t: Token, r: string)
    requires SameConfig(classes, conf.providers, s.providers) && Apart(classes, conf, h)
    ensures Bounded(classes, conf, t, r, CachedBy(classes, s, h, t, r))
  {
    ConfigGraph(classes, conf, s, t);
    CleanItself(classes, conf, t);
  }

  lemma DepsBounded(classes: Classes, conf: State, t: Token, r: string, whose: set<string>)
    requires AllBounded(classes, conf, Deps(classes, conf, t), r, whose)
    ensures Bounded(classes, conf, t, r, whose)
  {
    var deps := Deps(classes, conf, t);
    forall i | 0 <= i < |deps|
      ensures Clean(classes, conf, t) ==> Clean(classes, conf, deps[i])
      ensures Isolated(classes, conf, t) ==> Isolated(classes, conf, deps[i])
    {
      DepsOfClean(classes, conf, t, deps[i]);
    }
  }

  lemma ApartOnFinish(classes: Classes, conf: State, parts: HeldStep, t: Token, r: string)
    requires HasFactory(conf, t) && Apart(classes, conf, parts.held) && Bounded(classes, conf, t, r, parts.whose)
    ensures var x := Finish(ScopeOf(classes, conf, t), parts, t, r);
            Apart(classes, conf, x.held) && Bounded(classes, conf, t, r, x.whose)
  {
    CleanItself(classes, conf, t);
    var x := Finish(ScopeOf(classes, conf, t), parts, t, r);
    forall u ensures Single(x.held, u) == Single(parts.held, u) || (u == t && ScopeOf(classes, conf, t) == Singleton && Single(x.held, u) == parts.whose) {}
    forall q: string, u ensures InScope(x.held, q, u) == InScope(parts.held, q, u) || (u == t && q == r && ScopeOf(classes, conf, t) == Request && InScope(x.held, q, u) == parts.whose + {r}) {}
  }

  lemma ApartOnClear(classes: Classes, conf: State, h: Held, r: string)
    requires Apart(classes, conf, h)
    ensures Apart(classes, conf, h.(scoped := h.scoped - {r}))
  {
    var h' := h.(scoped := h.scoped - {r});
    forall q: string, t ensures InScope(h', q, t) == {} || InScope(h', q, t) == InScope(h, q, t) {}
    forall t ensures Single(h', t) == Single(h, t) {}
  }

  lemma {:induction false} ResolveApart(
    classes: Classes, conf: State, s: State, h: Held, t: Token, r: string, k: Stack, depth: nat)
    requires SameConfig(classes, conf.providers, s.providers) && Apart(classes, conf, h)
    ensures var x := HeldBy(classes, s, h, t, r, k, depth);
            Apart(classes, conf, x.held) && Bounded(classes, conf, t, r, x.whose)
    decreases depth, 1
  {
    if Falsy(t) || depth == 0 { return; }
    if Enter(classes, s, t, r, k).Build? {
      BuildApart(classes, conf, s, h, t, r, k, depth, depth - 1);
    } else {
      ApartOnDone(classes, conf, s, h, t, r);
    }
  }

  lemma {:induction false} BuildApart(
    classes: Classes, conf: State, s: State, h: Held, t: Token, r: string, k: Stack, depth: nat, room: nat)
    requires SameConfig(classes, conf.providers, s.providers) && Apart(classes, conf, h)
    requires !Falsy(t) && depth == room + 1 && Enter(classes, s, t, r, k).Build?
    ensures var x := HeldBy(classes, s, h, t, r, k, depth);
            Apart(classes, conf, x.held) && Bounded(classes, conf, t, r, x.whose)
    decreases depth, 0
  {
    var e := Enter(classes, s, t, r, k);
    ConfigOnBuild(classes, conf, s, t, r, k);
    ResolveAllApart(classes, conf, e.st, h, e.p.deps, r, e.p.stack, room);
    var parts := HeldByAll(classes, e.st, h, e.p.deps, r, e.p.stack, room);
    DepsBounded(classes, conf, t, r, parts.whose);
    ApartOnFinish(classes, conf, parts, t, r);
    ConfigGraph(classes, conf, s, t);
    HeldBuilds(classes, s, h, t, r, k, depth, room);
  }

  lemma {:induction false} ResolveAllApart(
    classes: Classes, conf: State, s: State, h: Held, ts: seq<Token>, r: string, k: Stack, depth: nat)
    requires SameConfig(classes, conf.providers, s.providers) && Apart(classes, conf, h)
    ensures var x := HeldByAll(classes, s, h, ts, r, k, depth);
            Apart(classes, conf, x.held) && AllBounded(classes, conf, ts, r, x.whose)
    decreases depth, 1 + |ts|
  {
    if ts != [] {
      var first, step := HeldBy(classes, s, h, ts[0], r, k, depth), Resolve(classes, s, ts[0], r, k, depth);
      ResolveApart(classes, conf, s, h, ts[0], r, k, depth);
      ConfigOnResolve(classes, conf, s, ts[0], r, k, depth);
      if step.out.Returned? {
        ResolveAllApart(classes, conf, step.st, first.held, ts[1..], r, k, depth);
        var rest := HeldByAll(classes, step.st, first.held, ts[1..], r, k, depth);
        FirstBounded(classes, conf, ts, r, first.whose, rest.whose);
      }
    }
  }

  lemma FirstBounded(classes: Classes, conf: State, ts: seq<Token>, r: string, first: set<string>, rest: set<string>)
    requires ts != [] && Bounded(classes, conf, ts[0], r, first) && AllBounded(classes, conf, ts[1..], r, rest)
    ensures AllBounded(classes, conf, ts, r, first + rest)
  {
    forall i | 0 <= i < |ts[1..]| ensures ts[1..][i] == ts[i + 1] {}
  }

  lemma {:induction false} RunApart(classes: Classes, conf: State, ops: seq<Op>)
    requires forall i :: 0 <= i < |ops| ==> Uses(ops[i])
    ensures SameConfig(classes, conf.providers, Run(classes, conf, ops).providers)
    ensures Apart(classes, conf, RunHeld(classes, conf, ops))
    decreases |ops|
  {
    if ops != [] {
      var before, op := ops[..|ops| - 1], ops[|ops| - 1];
      RunApart(classes, conf, before);
      if op.OpResolve? {
        var s, h := Run(classes, conf, before), RunHeld(classes, conf, before);
        ResolveApart(classes, conf, s, h, op.t, op.r, op.k, op.depth);
        ConfigOnResolve(classes, conf, s, op.t, op.r, op.k, op.depth);
      } else if op.OpClearRequest? {
        ApartOnClear(classes, conf, RunHeld(classes, conf, before), op.r);
      }
    }
  }

  // Main result.  After any resolutions, stack changes and ends of requests: what an isolated token
  // is resolved to holds no instance built for another request, on any graph and for any outcome.
  lemma {:induction false} IsolatedStaysApart(
    classes: Classes, conf: State, ops: seq<Op>, t: Token, r: string, k: Stack, depth: nat)
    requires (forall i :: 0 <= i < |ops| ==> Uses(ops[i])) && Isolated(classes, conf, t)
    ensures HeldBy(classes, Run(classes, conf, ops), RunHeld(classes, conf, ops), t, r, k, depth).whose <= {r}
  {
    RunApart(classes, conf, ops);
    ResolveApart(classes, conf, Run(classes, conf, ops), RunHeld(classes, conf, ops), t, r, k, depth);
  }

  // --- Tokens that are not isolated do not ---

  // Whatever is cached, for all requests or for r, and depends on z holds an instance built for q.
  ghost predicate Carries(classes: Classes, conf: State, s: State, h: Held, z: Token, q: string, r: string) {
    && SinglesCarry(classes, conf, s.providers, h, z, q)
    && ScopedCarry(classes, conf, Scoped(s, r), ScopedFor(h, r), z, q)
  }

  ghost predicate SinglesCarry(
    classes: Classes, conf: State, p: map<Token, Metadata>, h: Held, z: Token, q: string)
  {
    forall u :: u in p && p[u].scope == Singleton && p[u].instance != Undefined && Reaches(classes, conf, u, z) ==>
      q in Single(h, u)
  }

  ghost predicate ScopedCarry(
    classes: Classes, conf: State, cached: map<Token, Value>, whose: map<Token, set<string>>, z: Token, q: string)
  {
    forall u :: u in cached && Reaches(classes, conf, u, z) ==> u in whose && q in whose[u]
  }

  // z itself is such an instance, or a cached singleton that holds one.
  ghost predicate Source(classes: Classes, conf: State, s: State, z: Token, q: string, r: string) {
    && HasFactory(conf, z)
    && if ScopeOf(classes, conf, z) == Request then q == r
       else ScopeOf(classes, conf, z) == Singleton && z in s.providers && s.providers[z].instance != Undefined
  }

  ghost predicate HasSource(classes: Classes, conf: State, s: State, h: Held, z: Token, q: string, r: string) {
    && SameConfig(classes, conf.providers, s.providers)
    && Carries(classes, conf, s, h, z, q, r) && Source(classes, conf, s, z, q, r)
  }

  // Nothing is cached in s' that was not in s.
  ghost predicate SameCaches(s: State, s': State, r: string) {
    && (forall u :: u in s.providers ==> u in s'.providers && s'.providers[u].instance == s.providers[u].instance)
    && (forall u :: u in s'.providers && u !in s.providers ==> s'.providers[u].instance == Undefined)
    && Scoped(s', r) == Scoped(s, r)
  }

  lemma CarriesInSame(
    classes: Classes, conf: State, s: State, s': State, h: Held, z: Token, q: string, r: string)
    requires HasSource(classes, conf, s, h, z, q, r) && SameCaches(s, s', r)
    requires SameConfig(classes, conf.providers, s'.providers)
    ensures HasSource(classes, conf, s', h, z, q, r)
  {
    forall u | u in s.providers ensures s'.providers[u].scope == s.providers[u].scope {
      ConfigGraph(classes, conf, s, u);
      ConfigGraph(classes, conf, s', u);
    }
  }

  lemma SameOnPrepared(classes: Classes, s: State, t: Token, r: string, k: Stack)
    ensures SameCaches(s, AutoRegister(classes, s, t, k), r) && SameCaches(s, Prepared(classes, s, t, r, k), r)
  {}

  lemma SameOnMarked(s: State, t: Token, r: string, k: Stack)
    requires t in s.providers
    ensures SameCaches(s, Push(Marked(s, t), k, t), r)
  {
    PushMarked(s, t, k);
  }

  lemma CarriesOnBuild(
    classes: Classes, conf: State, s: State, h: Held, t: Token, r: string, k: Stack, z: Token, q: string)
    requires HasSource(classes, conf, s, h, z, q, r)
    requires !Falsy(t) && Enter(classes, s, t, r, k).Build?
    ensures HasSource(classes, conf, Enter(classes, s, t, r, k).st, h, z, q, r)
    ensures t == z ==> ScopeOf(classes, conf, z) == Request && q == r
  {
    var s1 := Prepared(classes, s, t, r, k);
    ConfigOnPrepared(classes, conf.providers, s, t, r, k);
    SameOnPrepared(classes, s, t, r, k);
    CarriesInSame(classes, conf, s, s1, h, z, q, r);
    EnterBuilds(classes, s, t, r, k);
    SameOnMarked(s1, t, r, k);
    ConfigOnBuild(classes, conf, s, t, r, k);
    CarriesInSame(classes, conf, s1, Enter(classes, s, t, r, k).st, h, z, q, r);
    ConfigGraph(classes, conf, s1, t);
  }

  lemma ReachingHasFactory(classes: Classes, conf: State, t: Token, z: Token)
    requires HasFactory(conf, z) && Reaches(classes, conf, t, z)
    ensures HasFactory(conf, t)
  {
    if t != z { var i := ReachableFirst(Edges(classes, conf), t, z); }
  }

  lemma DoneIsCached(classes: Classes, s: State, t: Token, r: string, k: Stack)
    requires HasFactory(s, t) && Enter(classes, s, t, r, k).Done? && Enter(classes, s, t, r, k).out.Returned?
    ensures match ScopeOf(classes, s, t) {
              case Singleton => t in s.providers && s.providers[t].instance != Undefined
              case Transient => false
              case Request => t in Scoped(s, r)
            }
  {}

  lemma CarriesOnDone(
    classes: Classes, conf: State, s: State, h: Held, t: Token, r: string, k: Stack, z: Token, q: string)
    requires HasSource(classes, conf, s, h, z, q, r)
    requires !Falsy(t) && Enter(classes, s, t, r, k).Done?
    ensures var e := Enter(classes, s, t, r, k);
            && HasSource(classes, conf, e.st, h, z, q, r)
            && (e.out.Returned? && Reaches(classes, conf, t, z) ==> q in CachedBy(classes, s, h, t, r))
  {
    ConfigOnPrepared(classes, conf.providers, s, t, r, k);
    SameOnPrepared(classes, s, t, r, k);
    EnterDone(classes, s, t, r, k);
    CarriesInSame(classes, conf, s, Enter(classes, s, t, r, k).st, h, z, q, r);
    if Enter(classes, s, t, r, k).out.Returned? && Reaches(classes, conf, t, z) {
      ReachingHasFactory(classes, conf, t, z);
      ConfigGraph(classes, conf, s, t);
      DoneIsCached(classes, s, t, r, k);
    }
  }

  // What is left once the factory of t has returned or thrown.
  ghost function HeldAfter(scope: Scope, parts: HeldStep, t: Token, r: string, out: Outcome): HeldStep {
    if out.Returned? then Finish(scope, parts, t, r) else HeldStep({}, parts.held)
  }

  lemma SinglesOnStore(
    classes: Classes, conf: State, s: State, parts: HeldStep, t: Token, r: string, out: Outcome, z: Token, q: string)
    requires SinglesCarry(classes, conf, s.providers, parts.held, z, q) && t in s.providers
    requires out.Returned? && Reaches(classes, conf, t, z) ==>
               q in Finish(s.providers[t].scope, parts, t, r).whose
    ensures SinglesCarry(
              classes, conf, Store(s, t, r, out).providers, HeldAfter(s.providers[t].scope, parts, t, r, out).held, z, q)
  {
    var h := HeldAfter(s.providers[t].scope, parts, t, r, out).held;
    forall u ensures Single(h, u) == Single(parts.held, u) || (u == t && out.Returned? && s.providers[t].scope == Singleton) {}
  }

  lemma ScopedOnStore(
    classes: Classes, conf: State, s: State, parts: HeldStep, t: Token, r: string, out: Outcome, z: Token, q: string)
    requires ScopedCarry(classes, conf, Scoped(s, r), ScopedFor(parts.held, r), z, q) && t in s.providers
    requires out.Returned? && Reaches(classes, conf, t, z) ==>
               q in Finish(s.providers[t].scope, parts, t, r).whose
    ensures ScopedCarry(
              classes, conf, Scoped(Store(s, t, r, out), r),
              ScopedFor(HeldAfter(s.providers[t].scope, parts, t, r, out).held, r), z, q)
  {}

  lemma CarriesOnLeave(
    classes: Classes, conf: State, s: State, parts: HeldStep, t: Token, r: string, k: Stack, out: Outcome, z: Token, q: string)
    requires HasSource(classes, conf, s, parts.held, z, q, r) && t in s.providers
    requires t in conf.providers ==> conf.providers[t].scope != Singleton || conf.providers[t].instance == Undefined
    requires t == z ==> ScopeOf(classes, conf, z) == Request
    requires out.Returned? && Reaches(classes, conf, t, z) ==>
               q in Finish(s.providers[t].scope, parts, t, r).whose
    ensures HasSource(
              classes, conf, Leave(s, t, r, k, out), HeldAfter(s.providers[t].scope, parts, t, r, out).held, z, q, r)
  {
    SinglesOnStore(classes, conf, s, parts, t, r, out, z, q);
    ScopedOnStore(classes, conf, s, parts, t, r, out, z, q);
    SoundPointConfig(classes, conf.providers, s, t, r, out);
    SourceOnStore(classes, conf, s, t, r, out, z, q);
  }

  lemma SourceOnStore(
    classes: Classes, conf: State, s: State, t: Token, r: string, out: Outcome, z: Token, q: string)
    requires Source(classes, conf, s, z, q, r) && t in s.providers && (t == z ==> ScopeOf(classes, conf, z) == Request)
    ensures Source(classes, conf, Store(s, t, r, out), z, q, r)
  {}

  lemma {:induction false} ResolveCarries(
    classes: Classes, conf: State, s: State, h: Held, t: Token, r: string, k: Stack, depth: nat, z: Token, q: string)
    requires HasSource(classes, conf, s, h, z, q, r)
    ensures var x, res := HeldBy(classes, s, h, t, r, k, depth), Resolve(classes, s, t, r, k, depth);
            && HasSource(classes, conf, res.st, x.held, z, q, r)
            && (res.out.Returned? && Reaches(classes, conf, t, z) ==> q in x.whose)
    decreases depth, 1
  {
    if Falsy(t) {
      if Reaches(classes, conf, t, z) { ReachingHasFactory(classes, conf, t, z); }
    } else if depth > 0 {
      if Enter(classes, s, t, r, k).Build? {
        BuildCarries(classes, conf, s, h, t, r, k, depth, depth - 1, z, q);
      } else {
        CarriesOnDone(classes, conf, s, h, t, r, k, z, q);
      }
    }
  }

  lemma {:induction false} BuildCarries(
    classes: Classes, conf: State, s: State, h: Held, t: Token, r: string, k: Stack, depth: nat, room: nat, z: Token, q: string)
    requires HasSource(classes, conf, s, h, z, q, r)
    requires !Falsy(t) && depth == room + 1 && Enter(classes, s, t, r, k).Build?
    ensures var x, res := HeldBy(classes, s, h, t, r, k, depth), Resolve(classes, s, t, r, k, depth);
            && HasSource(classes, conf, res.st, x.held, z, q, r)
            && (res.out.Returned? && Reaches(classes, conf, t, z) ==> q in x.whose)
    decreases depth, 0
  {
    var e := Enter(classes, s, t, r, k);
    CarriesOnBuild(classes, conf, s, h, t, r, k, z, q);
    ConfigOnBuild(classes, conf, s, t, r, k);
    ResolveAllCarries(classes, conf, e.st, h, e.p.deps, r, e.p.stack, room, z, q);
    var parts := HeldByAll(classes, e.st, h, e.p.deps, r, e.p.stack, room);
    var a := ResolveAll(classes, e.st, e.p.deps, r, e.p.stack, room);
    var f := Construct(e.p, t, r, a);
    StillDue(classes, conf, s, t, r, k, room);
    ConfigGraph(classes, conf, s, t);
    ConfigGraph(classes, conf, a.st, t);
    FinishCarries(classes, conf, parts, t, r, z, q, f.out.Returned?);
    assert HasSource(classes, conf, f.st, parts.held, z, q, r);
    CarriesOnLeave(classes, conf, f.st, parts, t, r, k, f.out, z, q);
    ResolveBuilds(classes, s, t, r, k, depth, room);
    HeldBuilds(classes, s, h, t, r, k, depth, room);
  }

  lemma FinishCarries(
    classes: Classes, conf: State, parts: HeldStep, t: Token, r: string, z: Token, q: string, returned: bool)
    requires returned ==> AnyReaches(classes, conf, Deps(classes, conf, t), z) ==> q in parts.whose
    requires t == z ==> ScopeOf(classes, conf, z) == Request && q == r
    ensures returned && Reaches(classes, conf, t, z) ==> q in Finish(ScopeOf(classes, conf, t), parts, t, r).whose
  {
    if returned && Reaches(classes, conf, t, z) && t != z {
      var i := ReachableFirst(Edges(classes, conf), t, z);
      assert Reaches(classes, conf, Deps(classes, conf, t)[i], z);
    }
  }

  ghost predicate AnyReaches(classes: Classes, conf: State, ts: seq<Token>, z: Token) {
    exists i :: 0 <= i < |ts| && Reaches(classes, conf, ts[i], z)
  }

  lemma {:induction false} ResolveAllCarries(
    classes: Classes, conf: State, s: State, h: Held, ts: seq<Token>, r: string, k: Stack, depth: nat, z: Token, q: string)
    requires HasSource(classes, conf, s, h, z, q, r)
    ensures var x, a := HeldByAll(classes, s, h, ts, r, k, depth), ResolveAll(classes, s, ts, r, k, depth);
            && HasSource(classes, conf, a.st, x.held, z, q, r)
            && (a.outs.AllReturned? && AnyReaches(classes, conf, ts, z) ==> q in x.whose)
    decreases depth, 1 + |ts|
  {
    if ts != [] {
      var first, step := HeldBy(classes, s, h, ts[0], r, k, depth), Resolve(classes, s, ts[0], r, k, depth);
      ResolveCarries(classes, conf, s, h, ts[0], r, k, depth, z, q);
      if step.out.Returned? {
        ResolveAllCarries(classes, conf, step.st, first.held, ts[1..], r, k, depth, z, q);
        if i :| 0 <= i < |ts| && Reaches(classes, conf, ts[i], z) {
          if i > 0 { assert Reaches(classes, conf, ts[1..][i - 1], z); }
        }
      }
    }
  }

  lemma NothingCached(classes: Classes, conf: State, y: Token, a: string)
    requires Configured(conf) && BuiltPerRequest(classes, conf, y)
    ensures HasSource(classes, conf, conf, NOTHING, y, a, a)
  {
    forall u | u in conf.providers && conf.providers[u].instance != Undefined ensures !Reaches(classes, conf, u, y) {
      if Reaches(classes, conf, u, y) { ReachingHasFactory(classes, conf, u, y); }
    }
  }

  // Once x is cached for a, and a is over, x is a source for every request.
  lemma CachedIsSource(
    classes: Classes, conf: State, s: State, h: Held, x: Token, y: Token, a: string, b: string)
    requires HasSource(classes, conf, s, h, y, a, a) && Reaches(classes, conf, x, y)
    requires ScopeOf(classes, conf, x) == Singleton && x in s.providers && s.providers[x].instance != Undefined
    requires b != a ==> b !in s.requests
    ensures HasSource(
              classes, conf, Perform(classes, s, OpClearRequest(a)), h.(scoped := h.scoped - {a}), x, a, b)
  {
    ReachingHasFactory(classes, conf, x, y);
    forall u | Reaches(classes, conf, u, x) ensures Reaches(classes, conf, u, y) {
      ReachableTrans(Edges(classes, conf), u, x, y);
    }
  }

  // The history that shows it: x is resolved for a, a is over, and t is resolved for b.
  ghost function Leak(x: Token, a: string, depth: nat): seq<Op> {
    [OpResolve(x, a, NoStack, depth), OpClearRequest(a)]
  }

  lemma LeakRuns(classes: Classes, conf: State, x: Token, a: string, depth: nat)
    ensures Run(classes, conf, Leak(x, a, depth)) ==
            Perform(classes, Resolve(classes, conf, x, a, NoStack, depth).st, OpClearRequest(a))
    ensures var h := HeldBy(classes, conf, NOTHING, x, a, NoStack, depth).held;
            RunHeld(classes, conf, Leak(x, a, depth)) == h.(scoped := h.scoped - {a})
  {
    var ops := Leak(x, a, depth);
    assert ops[..1] == [ops[0]] && [ops[0]][..0] == [];
    assert Run(classes, conf, []) == conf;
    assert Run(classes, conf, [ops[0]]) == Resolve(classes, conf, x, a, NoStack, depth).st;
    assert RunHeld(classes, conf, [ops[0]]) == HeldBy(classes, conf, NOTHING, x, a, NoStack, depth).held;
  }

  lemma {:induction false} LeakShows(
    classes: Classes, conf: State, t: Token, x: Token, y: Token, a: string, depth: nat, b: string, k: Stack, depth': nat)
    requires Configured(conf) && Reaches(classes, conf, t, x) && ScopeOf(classes, conf, x) == Singleton
    requires Reaches(classes, conf, x, y) && BuiltPerRequest(classes, conf, y)
    requires var out := Resolve(classes, conf, x, a, NoStack, depth).out; out.Returned? && out.v != Undefined
    requires Resolve(classes, Run(classes, conf, Leak(x, a, depth)), t, b, k, depth').out.Returned?
    ensures var ops := Leak(x, a, depth);
            a in HeldBy(classes, Run(classes, conf, ops), RunHeld(classes, conf, ops), t, b, k, depth').whose
  {
    var first, h := Resolve(classes, conf, x, a, NoStack, depth), HeldBy(classes, conf, NOTHING, x, a, NoStack, depth).held;
    NothingCached(classes, conf, y, a);
    ResolveCarries(classes, conf, conf, NOTHING, x, a, NoStack, depth, y, a);
    ReachingHasFactory(classes, conf, x, y);
    ContainerOnce.FirstIsCached(classes, conf, x, a, NoStack, depth);
    ResolveFrame(classes, conf, x, a, NoStack, depth);
    CachedIsSource(classes, conf, first.st, h, x, y, a, b);
    LeakRuns(classes, conf, x, a, depth);
    ResolveCarries(
      classes, conf, Run(classes, conf, Leak(x, a, depth)), RunHeld(classes, conf, Leak(x, a, depth)), t, b, k, depth', x, a);
  }

  // --- Exactly the isolated tokens stay apart ---

  ghost predicate DefinedAlways(make: seq<Value> -> Produced) {
    forall vs :: make(vs).Made? && make(vs).v != Undefined
  }

  ghost predicate FactoriesDefine(classes: Classes, conf: State) {
    && (forall c :: DefinedAlways(classes(c).construct))
    && (forall t :: t in conf.providers && conf.providers[t].factory.UseFactory? ==>
          DefinedAlways(conf.providers[t].factory.make))
  }

  lemma {:induction false} AllMadeOf(pure: Token -> Produced, ts: seq<Token>)
    requires forall i :: 0 <= i < |ts| ==> pure(ts[i]).Made?
    ensures All(pure, ts).AllMade?
  {
    if ts != [] {
      forall i | 0 <= i < |ts[1..]| ensures pure(ts[1..][i]).Made? { assert ts[1..][i] == ts[i + 1]; }
      AllMadeOf(pure, ts[1..]);
    }
  }

  lemma {:induction false} ConstructionMakes(
    classes: Classes, conf: State, rank: Token -> nat, pure: Token -> Produced, t: Token)
    requires Ranked(classes, conf, rank) && Constructs(classes, conf, pure)
    requires Configured(conf) && FactoriesDefine(classes, conf)
    ensures pure(t).Made? && (HasFactory(conf, t) ==> pure(t).v != Undefined)
    decreases rank(t)
  {
    assert pure(t) == Body(classes, conf, pure, t);
    if HasFactory(conf, t) {
      var deps := Deps(classes, conf, t);
      forall i | 0 <= i < |deps| ensures pure(deps[i]).Made? {
        if Falsy(deps[i]) {
          assert pure(deps[i]) == Body(classes, conf, pure, deps[i]);
        } else {
          ConstructionMakes(classes, conf, rank, pure, deps[i]);
        }
      }
      AllMadeOf(pure, deps);
    }
  }

  lemma ResolutionMakes(classes: Classes, conf: State, rank: Token -> nat, ops: seq<Op>, t: Token, r: string, depth: nat)
    requires Ranked(classes, conf, rank) && Configured(conf) && FactoriesDefine(classes, conf)
    requires forall i :: 0 <= i < |ops| ==> Uses(ops[i]) && Stackless(ops[i])
    requires r != "" && depth > rank(t)
    ensures var out := Resolve(classes, Run(classes, conf, ops), t, r, NoStack, depth).out;
            out.Returned? && (HasFactory(conf, t) ==> out.v != Undefined)
  {
    ResolutionIsPure(classes, conf, rank, ops, t, r, depth);
    PureConstructs(classes, conf, rank);
    ConstructionMakes(classes, conf, rank, Pure(classes, conf, rank), t);
  }

  ghost predicate StaysApart(
    classes: Classes, conf: State, t: Token, ops: seq<Op>, r: string, k: Stack, depth: nat)
  {
    (forall i :: 0 <= i < |ops| ==> Uses(ops[i])) ==>
      HeldBy(classes, Run(classes, conf, ops), RunHeld(classes, conf, ops), t, r, k, depth).whose <= {r}
  }

  // Main result.  On an acyclic graph whose factories make defined values, resolving t never hands
  // out an instance built for another request exactly when no singleton that t depends on, or is,
  // depends on a request-scoped token.
  lemma {:induction false} StaysApartIffIsolated(classes: Classes, conf: State, rank: Token -> nat, t: Token)
    requires Ranked(classes, conf, rank) && Configured(conf) && FactoriesDefine(classes, conf)
    ensures Isolated(classes, conf, t) <==>
            forall ops: seq<Op>, r: string, k: Stack, depth: nat :: StaysApart(classes, conf, t, ops, r, k, depth)
  {
    if Isolated(classes, conf, t) {
      forall ops: seq<Op>, r: string, k: Stack, depth: nat ensures StaysApart(classes, conf, t, ops, r, k, depth) {
        if forall i :: 0 <= i < |ops| ==> Uses(ops[i]) { IsolatedStaysApart(classes, conf, ops, t, r, k, depth); }
      }
    } else {
      var x, depth := LeakOf(classes, conf, rank, t);
      assert !StaysApart(classes, conf, t, Leak(x, "a", depth), "b", NoStack, depth);
    }
  }

  lemma LeakOf(classes: Classes, conf: State, rank: Token -> nat, t: Token) returns (x: Token, depth: nat)
    requires Ranked(classes, conf, rank) && Configured(conf) && FactoriesDefine(classes, conf)
    requires !Isolated(classes, conf, t)
    ensures !StaysApart(classes, conf, t, Leak(x, "a", depth), "b", NoStack, depth)
  {
    x :| Reaches(classes, conf, t, x) && ScopeOf(classes, conf, x) == Singleton && !Clean(classes, conf, x);
    var y :| Reaches(classes, conf, x, y) && BuiltPerRequest(classes, conf, y);
    depth := rank(x) + rank(t) + 1;
    LeakingIsNotApart(classes, conf, rank, t, x, y, depth);
  }

  lemma LeakingIsNotApart(
    classes: Classes, conf: State, rank: Token -> nat, t: Token, x: Token, y: Token, depth: nat)
    requires Ranked(classes, conf, rank) && Configured(conf) && FactoriesDefine(classes, conf)
    requires Reaches(classes, conf, t, x) && ScopeOf(classes, conf, x) == Singleton
    requires Reaches(classes, conf, x, y) && BuiltPerRequest(classes, conf, y)
    requires depth > rank(x) && depth > rank(t)
    ensures !StaysApart(classes, conf, t, Leak(x, "a", depth), "b", NoStack, depth)
  {
    ReachingHasFactory(classes, conf, x, y);
    assert Run(classes, conf, []) == conf;
    ResolutionMakes(classes, conf, rank, [], x, "a", depth);
    var ops := Leak(x, "a", depth);
    ResolutionMakes(classes, conf, rank, ops, t, "b", depth);
    LeakShows(classes, conf, t, x, y, "a", depth, "b", NoStack, depth);
  }

  // A singleton controller with a request-scoped service.
  ghost function ControllerAndService(): Classes {
    t => if t == Class(1) then ClassInfo(Request, [], [], vs => Made(Object("service", vs)))
         else ClassInfo(Singleton, [Class(1)], [], vs => Made(Object("controller", vs)))
  }

  // The controller of the second request holds the service of the first.
  lemma {:induction false} ControllerKeepsFirstRequest()
    ensures !StaysApart(ControllerAndService(), EMPTY, Class(0), Leak(Class(0), "a", 2), "b", NoStack, 2)
  {
    var classes, controller, service := ControllerAndService(), Class(0), Class(1);
    var rank: Token -> nat := t => if t == service then 0 else 1;
    assert Deps(classes, EMPTY, controller)[0] == service;
    ReachableSelf(Edges(classes, EMPTY), controller);
    ReachableSelf(Edges(classes, EMPTY), service);
    ReachesDep(classes, EMPTY, controller, service, service);
    LeakingIsNotApart(classes, EMPTY, rank, controller, controller, service, 2);
  }
}
