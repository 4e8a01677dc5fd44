// `HazelModuleInstance.initialize`: imports first, then the module's own providers and
// controllers.  It keeps no visited set, so it runs out of call stack on an import cycle.
module ModuleInit {
  import opened Collections
  import opened Graphs
  import opened ModuleGraph

  // A registration in the container: provider i, or controller i, of a module.
  datatype Event = RegistersProvider(m: Module, i: nat) | RegistersController(m: Module, i: nat)

  ghost function Own(g: Modules, m: Module): seq<Event> {
    seq(g(m).providers, i requires 0 <= i < g(m).providers => RegistersProvider(m, i))
    + seq(|g(m).controllers|, i requires 0 <= i < |g(m).controllers| => RegistersController(m, i))
  }

  datatype Trace = Overflow(events: seq<Event>) | Done(events: seq<Event>)

  ghost function Join(a: Trace, b: Trace): Trace {
    if a.Overflow? then a else b.(events := a.events + b.events)
  }

  // The registrations if none of them throws.  `depth` is the call stack that is left.
  ghost function Initialize(g: Modules, m: Module, depth: nat): Trace
    decreases depth, 0
  {
    if depth == 0 then Overflow([]) else Join(InitializeAll(g, g(m).imports, depth - 1), Done(Own(g, m)))
  }

  ghost function InitializeAll(g: Modules, ms: seq<Module>, depth: nat): Trace
    decreases depth, 1 + |ms|
  {
    if ms == [] then Done([]) else Join(Initialize(g, ms[0], depth), InitializeAll(g, ms[1..], depth))
  }

  // --- Termination: exactly when no import cycle is reachable ---

  ghost predicate CycleFrom(g: Modules, m: Module, p: seq<Module>) {
    IsCycle(Imports(g), p) && Reachable(Imports(g), m, p[0])
  }

  ghost predicate Ends(g: Modules, m: Module, depth: nat) {
    Initialize(g, m, depth).Done?
  }

  // Where initialisation overflows there is a path as long as the call stack.
  lemma {:induction false} OverflowHasPath(g: Modules, m: Module, depth: nat) returns (p: seq<Module>)
    requires Initialize(g, m, depth).Overflow?
    ensures IsPath(Imports(g), p) && p[0] == m && |p| == depth + 1
    decreases depth, 0
  {
    if depth == 0 {
      p := [m];
    } else {
      var q := OverflowHasPathAll(g, g(m).imports, depth - 1);
      p := [m] + q;
      forall i | 0 <= i < |p| - 1 ensures p[i + 1] in Imports(g)(p[i]) {
        if i > 0 { assert p[i] == q[i - 1] && p[i + 1] == q[i]; }
      }
    }
  }

  lemma {:induction false} OverflowHasPathAll(g: Modules, ms: seq<Module>, depth: nat) returns (p: seq<Module>)
    requires InitializeAll(g, ms, depth).Overflow?
    ensures IsPath(Imports(g), p) && p[0] in ms && |p| == depth + 1
    decreases depth, 1 + |ms|
  {
    if Initialize(g, ms[0], depth).Overflow? {
      p := OverflowHasPath(g, ms[0], depth);
    } else {
      p := OverflowHasPathAll(g, ms[1..], depth);
    }
  }

  lemma {:induction false} AllDone(g: Modules, ms: seq<Module>, depth: nat, x: Module)
    requires InitializeAll(g, ms, depth).Done? && x in ms
    ensures Initialize(g, x, depth).Done?
  {
    if x != ms[0] { AllDone(g, ms[1..], depth, x); }
  }

  // A path as long as the call stack makes initialisation overflow.
  lemma {:induction false} PathOverflows(g: Modules, p: seq<Module>, depth: nat)
    requires IsPath(Imports(g), p) && |p| > depth
    ensures Initialize(g, p[0], depth).Overflow?
    decreases depth
  {
    if depth > 0 && Initialize(g, p[0], depth).Done? {
      assert p[0 + 1] in Imports(g)(p[0]);
      AllDone(g, g(p[0]).imports, depth - 1, p[1]);
      forall i | 0 <= i < |p[1..]| - 1 ensures p[1..][i + 1] in Imports(g)(p[1..][i]) {
        assert p[1..][i] == p[i + 1] && p[1..][i + 1] == p[i + 2];
      }
      PathOverflows(g, p[1..], depth - 1);
    }
  }

  // Round a cycle as often as wanted.
  lemma {:induction false} LongPath(g: Modules, p: seq<Module>, cycle: seq<Module>, n: nat) returns (q: seq<Module>)
    requires IsPath(Imports(g), p) && IsCycle(Imports(g), cycle) && p[|p| - 1] == cycle[0]
    ensures IsPath(Imports(g), q) && q[0] == p[0] && |q| > n && q[|q| - 1] == cycle[0]
  {
    if n == 0 {
      q := p;
    } else {
      var r := LongPath(g, p, cycle, n - 1);
      q := r + cycle[1..];
    }
  }

  // Main result: on a finite graph `initialize` ends exactly when no import cycle can be reached
  // from the module; a call stack of one frame per module is then enough.
  lemma {:induction false} InitializeEndsIffAcyclic(g: Modules, U: set<Module>, m: Module)
    requires Closed(Imports(g), U) && m in U
    ensures (exists depth: nat :: Ends(g, m, depth)) <==> !exists p :: CycleFrom(g, m, p)
    ensures (exists depth: nat :: Ends(g, m, depth)) <==> Ends(g, m, |U|)
  {
    if p :| CycleFrom(g, m, p) {
      var way: seq<Module> :| Connects(Imports(g), way, m, p[0]);
      forall depth: nat ensures !Ends(g, m, depth) {
        var q := LongPath(g, way, p, depth);
        PathOverflows(g, q, depth);
      }
    } else if !Ends(g, m, |U|) {
      var p := OverflowHasPath(g, m, |U|);
      PathStaysClosed(Imports(g), U, p);
      var i, j := Pigeonhole(p, U);
      var c := p[i..j + 1];
      assert Connects(Imports(g), p[..i + 1], m, p[i]);
      forall l | 0 <= l < |c| - 1 ensures c[l + 1] in Imports(g)(c[l]) {
        assert c[l] == p[i + l] && c[l + 1] == p[i + l + 1];
      }
      assert CycleFrom(g, m, c);
      assert false;
    }
  }

  // --- What the trace of a finished initialisation holds, and in which order ---

  ghost predicate IsOwn(g: Modules, e: Event) {
    match e
    case RegistersProvider(m, i) => i < g(m).providers
    case RegistersController(m, i) => i < |g(m).controllers|
  }

  lemma OwnEvents(g: Modules, m: Module, e: Event)
    ensures e in Own(g, m) <==> e.m == m && IsOwn(g, e)
  {
    if e.m == m && IsOwn(g, e) {
      match e
      case RegistersProvider(_, i) => assert Own(g, m)[i] == e;
      case RegistersController(_, i) => assert Own(g, m)[g(m).providers + i] == e;
    }
  }

  ghost predicate ReachableFromAny(g: Modules, ms: seq<Module>, x: Module) {
    exists i :: 0 <= i < |ms| && Reachable(Imports(g), ms[i], x)
  }

  lemma ReachableSplit(g: Modules, m: Module, x: Module)
    ensures Reachable(Imports(g), m, x) <==> x == m || ReachableFromAny(g, g(m).imports, x)
  {
    if Reachable(Imports(g), m, x) && x != m {
      var i := ReachableFirst(Imports(g), m, x);
      assert Reachable(Imports(g), g(m).imports[i], x);
    }
    if x == m { ReachableSelf(Imports(g), m); }
    if ReachableFromAny(g, g(m).imports, x) {
      var i :| 0 <= i < |g(m).imports| && Reachable(Imports(g), g(m).imports[i], x);
      ReachableStep(Imports(g), m, g(m).imports[i], x);
    }
  }

  // The trace registers everything of the modules reachable from the root, and nothing else.
  lemma {:induction false} TraceContents(g: Modules, m: Module, depth: nat, e: Event)
    requires Initialize(g, m, depth).Done?
    ensures e in Initialize(g, m, depth).events <==> Reachable(Imports(g), m, e.m) && IsOwn(g, e)
    decreases depth, 0
  {
    TraceContentsAll(g, g(m).imports, depth - 1, e);
    OwnEvents(g, m, e);
    ReachableSplit(g, m, e.m);
  }

  lemma {:induction false} TraceContentsAll(g: Modules, ms: seq<Module>, depth: nat, e: Event)
    requires InitializeAll(g, ms, depth).Done?
    ensures e in InitializeAll(g, ms, depth).events <==> ReachableFromAny(g, ms, e.m) && IsOwn(g, e)
    decreases depth, 1 + |ms|
  {
    if ms != [] {
      TraceContents(g, ms[0], depth, e);
      TraceContentsAll(g, ms[1..], depth, e);
      assert ReachableFromAny(g, ms, e.m) <==>
             Reachable(Imports(g), ms[0], e.m) || ReachableFromAny(g, ms[1..], e.m) by {
        if ReachableFromAny(g, ms[1..], e.m) {
          var i :| 0 <= i < |ms[1..]| && Reachable(Imports(g), ms[1..][i], e.m);
          assert Reachable(Imports(g), ms[i + 1], e.m);
        }
        if i :| 0 <= i < |ms| && Reachable(Imports(g), ms[i], e.m) {
          if i > 0 { assert Reachable(Imports(g), ms[1..][i - 1], e.m); }
        }
      }
    }
  }

  // q says which import to follow at each step from m, and x is where that ends: an import path.
  ghost predicate Leads(g: Modules, m: Module, q: seq<nat>, x: Module)
    decreases |q|, 1
  {
    if q == [] then m == x else LeadsFromAny(g, g(m).imports, q, x)
  }

  ghost predicate LeadsFromAny(g: Modules, ms: seq<Module>, q: seq<nat>, x: Module)
    decreases |q|, 0
  {
    q != [] && q[0] < |ms| && Leads(g, ms[q[0]], q[1..], x)
  }

  // Main result: `initialize` makes a registration once for every import path from the root to its
  // module; so once exactly when there is one path.
  lemma {:induction false} TimesRegistered(g: Modules, m: Module, depth: nat, e: Event) returns (paths: set<seq<nat>>)
    requires Initialize(g, m, depth).Done? && IsOwn(g, e)
    ensures forall q :: q in paths <==> Leads(g, m, q, e.m)
    ensures multiset(Initialize(g, m, depth).events)[e] == |paths|
    decreases depth, 0
  {
    paths := TimesRegisteredAll(g, g(m).imports, depth - 1, e);
    OwnOnce(g, m, e);
    if m == e.m { paths := paths + {[]}; }
  }

  lemma {:induction false} TimesRegisteredAll(g: Modules, ms: seq<Module>, depth: nat, e: Event)
    returns (paths: set<seq<nat>>)
    requires InitializeAll(g, ms, depth).Done? && IsOwn(g, e)
    ensures forall q :: q in paths <==> LeadsFromAny(g, ms, q, e.m)
    ensures multiset(InitializeAll(g, ms, depth).events)[e] == |paths|
    decreases depth, 1 + |ms|
  {
    if ms == [] {
      paths := {};
    } else {
      var first := TimesRegistered(g, ms[0], depth, e);
      var rest := TimesRegisteredAll(g, ms[1..], depth, e);
      paths := JoinPaths(g, ms, e.m, first, rest);
    }
  }

  lemma OwnOnce(g: Modules, m: Module, e: Event)
    ensures multiset(Own(g, m))[e] == if e.m == m && IsOwn(g, e) then 1 else 0
  {
    OwnEvents(g, m, e);
    if e in Own(g, m) {
      var i :| 0 <= i < |Own(g, m)| && Own(g, m)[i] == e;
      OnceOnly((x: Event) => x, Own(g, m), i);
    }
  }

  ghost function Along(): seq<nat> -> seq<nat> {
    (q: seq<nat>) => [0] + q
  }

  ghost function Past(): seq<nat> -> seq<nat> {
    (q: seq<nat>) => if q == [] then [] else [q[0] + 1] + q[1..]
  }

  ghost function Before(q: seq<nat>): seq<nat>
    requires q != [] && q[0] > 0
  {
    [q[0] - 1] + q[1..]
  }

  lemma PastBefore(q: seq<nat>)
    requires q != [] && q[0] > 0
    ensures Before(q) != [] && Past()(Before(q)) == q
  {}

  lemma BeforePast(p: seq<nat>)
    requires p != []
    ensures Past()(p) != [] && Past()(p)[0] > 0 && Before(Past()(p)) == p
  {}

  // Paths along the first of several imports, and past it.
  lemma JoinPaths(g: Modules, ms: seq<Module>, x: Module, first: set<seq<nat>>, rest: set<seq<nat>>)
    returns (paths: set<seq<nat>>)
    requires ms != []
    requires forall q :: q in first <==> Leads(g, ms[0], q, x)
    requires forall q :: q in rest <==> LeadsFromAny(g, ms[1..], q, x)
    ensures forall q :: q in paths <==> LeadsFromAny(g, ms, q, x)
    ensures |paths| == |first| + |rest|
  {
    var a := AlongPaths(first);
    var b := PastPaths(rest);
    assert a !! b;
    paths := a + b;
    forall q ensures q in paths <==> LeadsFromAny(g, ms, q, x) {
      if q != [] && q[0] > 0 { FirstOrPast(g, ms, q, x); }
    }
  }

  lemma FirstOrPast(g: Modules, ms: seq<Module>, q: seq<nat>, x: Module)
    requires ms != [] && q != [] && q[0] > 0
    ensures LeadsFromAny(g, ms, q, x) <==> LeadsFromAny(g, ms[1..], Before(q), x)
  {
    assert Before(q)[1..] == q[1..];
  }

  lemma AlongPaths(first: set<seq<nat>>) returns (a: set<seq<nat>>)
    ensures forall q :: q in a <==> q != [] && q[0] == 0 && q[1..] in first
    ensures |a| == |first|
  {
    a := Image(first, Along());
    forall p, q | p in first && q in first && Along()(p) == Along()(q) ensures p == q {
      assert Along()(p)[1..] == p && Along()(q)[1..] == q;
    }
    ImageCard(first, Along());
    forall q ensures q in a <==> q != [] && q[0] == 0 && q[1..] in first {
      if p :| p in first && q == Along()(p) { assert q[1..] == p; }
      if q != [] && q[0] == 0 { assert Along()(q[1..]) == q; }
    }
  }

  lemma PastPaths(rest: set<seq<nat>>) returns (b: set<seq<nat>>)
    requires [] !in rest
    ensures forall q :: q in b <==> q != [] && q[0] > 0 && Before(q) in rest
    ensures |b| == |rest|
  {
    b := Image(rest, Past());
    forall p, q | p in rest && q in rest && Past()(p) == Past()(q) ensures p == q {
      BeforePast(p);
      BeforePast(q);
    }
    ImageCard(rest, Past());
    forall q ensures q in b <==> q != [] && q[0] > 0 && Before(q) in rest { PastOf(rest, q); }
  }

  lemma PastOf(rest: set<seq<nat>>, q: seq<nat>)
    requires [] !in rest
    ensures q in Image(rest, Past()) <==> q != [] && q[0] > 0 && Before(q) in rest
  {
    if q in Image(rest, Past()) {
      var p :| p in rest && q == Past()(p);
      BeforePast(p);
    } else if q != [] && q[0] > 0 {
      PastBefore(q);
    }
  }

  // Before every registration of a module come all registrations of its transitive imports, and of
  // its own the providers before the controllers, each in the order of the lists.
  ghost predicate ImportsFirst(g: Modules, events: seq<Event>) {
    forall n: int, e: Event :: 0 <= n < |events| && ComesFirst(g, e, events[n]) ==> e in events[..n]
  }

  ghost predicate ComesFirst(g: Modules, e: Event, f: Event) {
    IsOwn(g, e) && (ReachableFromAny(g, g(f.m).imports, e.m) || EarlierOwn(e, f))
  }

  ghost predicate EarlierOwn(e: Event, f: Event) {
    && e.m == f.m
    && if e.RegistersProvider? <==> f.RegistersProvider? then e.i < f.i else e.RegistersProvider?
  }

  lemma {:induction false} OwnInOrder(g: Modules, m: Module, e: Event, k: nat)
    requires k < |Own(g, m)| && IsOwn(g, e) && EarlierOwn(e, Own(g, m)[k])
    ensures e in Own(g, m)[..k]
  {
    OwnEvents(g, m, Own(g, m)[k]);
    var i := match e case RegistersProvider(_, i) => i case RegistersController(_, i) => g(m).providers + i;
    assert Own(g, m)[..k][i] == e;
  }

  lemma ImportsFirstConcat(g: Modules, a: seq<Event>, b: seq<Event>)
    requires ImportsFirst(g, a) && ImportsFirst(g, b)
    ensures ImportsFirst(g, a + b)
  {
    forall n: int, e: Event | 0 <= n < |a + b| && ComesFirst(g, e, (a + b)[n]) ensures e in (a + b)[..n] {
      if n < |a| {
        assert (a + b)[..n] == a[..n];
      } else {
        assert e in b[..n - |a|];
        assert (a + b)[..n] == a + b[..n - |a|];
      }
    }
  }

  lemma {:induction false} InitializeImportsFirst(g: Modules, m: Module, depth: nat)
    ensures ImportsFirst(g, Initialize(g, m, depth).events)
    decreases depth, 0
  {
    if depth == 0 { return; }
    var before := InitializeAll(g, g(m).imports, depth - 1).events;
    InitializeAllImportsFirst(g, g(m).imports, depth - 1);
    if InitializeAll(g, g(m).imports, depth - 1).Overflow? { return; }
    var events := before + Own(g, m);
    forall n: int, e: Event | 0 <= n < |events| && ComesFirst(g, e, events[n]) ensures e in events[..n] {
      if n < |before| {
        assert events[..n] == before[..n];
      } else {
        var k := n - |before|;
        assert events[n] == Own(g, m)[k] && events[..n] == before + Own(g, m)[..k];
        OwnEvents(g, m, events[n]);
        if EarlierOwn(e, events[n]) {
          OwnInOrder(g, m, e, k);
        } else {
          TraceContentsAll(g, g(m).imports, depth - 1, e);
        }
      }
    }
  }

  lemma {:induction false} InitializeAllImportsFirst(g: Modules, ms: seq<Module>, depth: nat)
    ensures ImportsFirst(g, InitializeAll(g, ms, depth).events)
    decreases depth, 1 + |ms|
  {
    if ms != [] {
      InitializeImportsFirst(g, ms[0], depth);
      InitializeAllImportsFirst(g, ms[1..], depth);
      ImportsFirstConcat(g, Initialize(g, ms[0], depth).events, InitializeAll(g, ms[1..], depth).events);
    }
  }

  // Main result: the modules whose registrations are in the trace are those the collector
  // reports, although one visits a shared import once and the other every time.
  lemma {:induction false} InitializeRegistersCollected(g: Modules, U: set<Module>, m: Module, depth: nat, e: Event)
    requires Closed(Imports(g), U) && m in U && Initialize(g, m, depth).Done?
    ensures e in Initialize(g, m, depth).events <==> e.m in ModulesFrom(g, U, m, {}).out && IsOwn(g, e)
  {
    TraceContents(g, m, depth, e);
    CollectsReachable(g, U, m);
  }

  // --- Registrations that throw ---

  // Registering eagerly resolves, which may throw; what is registered already decides.
  type Fails = (seq<Event>, Event) -> bool

  // The registrations made until one throws.
  ghost function Made(fails: Fails, before: seq<Event>, events: seq<Event>): seq<Event>
    decreases |events|
  {
    if events == [] || fails(before, events[0]) then []
    else [events[0]] + Made(fails, before + [events[0]], events[1..])
  }

  datatype Outcome = Ended | OutOfStack | Threw

  ghost function OutcomeOf(fails: Fails, before: seq<Event>, t: Trace): Outcome {
    if Made(fails, before, t.events) != t.events then Threw else if t.Done? then Ended else OutOfStack
  }

  lemma {:induction false} MadeConcat(fails: Fails, before: seq<Event>, a: seq<Event>, b: seq<Event>)
    ensures MadeInTurn(fails, before, a, b)
    decreases |a|
  {
    if a == [] {
      assert a + b == b && before + a == before;
    } else {
      MadeConcat(fails, before + [a[0]], a[1..], b);
      MadeCons(fails, before, a[0], a[1..], b);
      assert a == [a[0]] + a[1..];
    }
  }

  // First what is made of a; if that is all of a, then what is made of b.
  ghost predicate MadeInTurn(fails: Fails, before: seq<Event>, a: seq<Event>, b: seq<Event>) {
    && Made(fails, before, a) <= a
    && Made(fails, before, a + b) ==
       if Made(fails, before, a) == a then a + Made(fails, before + a, b) else Made(fails, before, a)
  }

  lemma MadeCons(fails: Fails, before: seq<Event>, x: Event, t: seq<Event>, b: seq<Event>)
    requires MadeInTurn(fails, before + [x], t, b)
    ensures MadeInTurn(fails, before, [x] + t, b)
  {
    MadeStep(fails, before, x, t);
    MadeStep(fails, before, x, t + b);
    Regroup([x], t, b);
    Regroup(before, [x], t);
    TurnCons(fails(before, x), x, t, Made(fails, before + [x], t), Made(fails, before + [x], t + b),
             Made(fails, before + ([x] + t), b));
  }

  // The same about what is made: r of t, and u in all when m of the rest would follow.
  lemma TurnCons(fails: bool, x: Event, t: seq<Event>, r: seq<Event>, u: seq<Event>, m: seq<Event>)
    requires r <= t && u == if r == t then t + m else r
    ensures var v, w := if fails then [] else [x] + r, if fails then [] else [x] + u;
            v <= [x] + t && w == if v == [x] + t then ([x] + t) + m else v
  {
    if !fails { ConsPrefix(x, r, t, m); }
  }

  lemma MadeStep(fails: Fails, before: seq<Event>, x: Event, xs: seq<Event>)
    ensures Made(fails, before, [x] + xs) == if fails(before, x) then [] else [x] + Made(fails, before + [x], xs)
  {
    assert ([x] + xs)[1..] == xs;
  }

  lemma ConsPrefix(x: Event, r: seq<Event>, t: seq<Event>, m: seq<Event>)
    requires r <= t
    ensures [x] + r <= [x] + t && ([x] + r == [x] + t <==> r == t) && [x] + (t + m) == ([x] + t) + m
  {
    assert ([x] + r)[1..] == r && ([x] + t)[1..] == t;
  }

  ghost predicate Completes(g: Modules, m: Module, depth: nat, fails: Fails, before: seq<Event>) {
    OutcomeOf(fails, before, Initialize(g, m, depth)).Ended?
  }

  lemma {:induction false} DeeperIsSame(g: Modules, m: Module, depth: nat, depth': nat)
    requires Initialize(g, m, depth).Done? && depth <= depth'
    ensures Initialize(g, m, depth') == Initialize(g, m, depth)
    decreases depth, 0
  {
    DeeperIsSameAll(g, g(m).imports, depth - 1, depth' - 1);
  }

  lemma {:induction false} DeeperIsSameAll(g: Modules, ms: seq<Module>, depth: nat, depth': nat)
    requires InitializeAll(g, ms, depth).Done? && depth <= depth'
    ensures InitializeAll(g, ms, depth') == InitializeAll(g, ms, depth)
    decreases depth, 1 + |ms|
  {
    if ms != [] {
      DeeperIsSame(g, ms[0], depth, depth');
      DeeperIsSameAll(g, ms[1..], depth, depth');
    }
  }

  // Main result: `initialize` runs to its end exactly when no import cycle can be reached and none
  // of the registrations throws.
  lemma {:induction false} CompletesIff(g: Modules, U: set<Module>, m: Module, fails: Fails, before: seq<Event>)
    requires Closed(Imports(g), U) && m in U
    ensures (exists depth: nat :: Completes(g, m, depth, fails, before)) <==>
            && (!exists p :: CycleFrom(g, m, p))
            && var events := Initialize(g, m, |U|).events; Made(fails, before, events) == events
  {
    InitializeEndsIffAcyclic(g, U, m);
    if depth: nat :| Completes(g, m, depth, fails, before) {
      assert Ends(g, m, depth);
      if depth <= |U| { DeeperIsSame(g, m, depth, |U|); } else { DeeperIsSame(g, m, |U|, depth); }
    } else {
      assert !Completes(g, m, |U|, fails, before);
    }
  }

  // Wherever it stops, what has been registered is still imports-first.
  lemma {:induction false} ImportsFirstSoFar(g: Modules, m: Module, depth: nat, fails: Fails, before: seq<Event>)
    ensures ImportsFirst(g, Made(fails, before, Initialize(g, m, depth).events))
  {
    var events := Initialize(g, m, depth).events;
    var made := Made(fails, before, events);
    InitializeImportsFirst(g, m, depth);
    MadeConcat(fails, before, events, []);
    assert forall n :: 0 <= n <= |made| ==> made[..n] == events[..n];
  }

  // --- As written: recursion over the imports, then two loops that register ---

  class Registry {
    var events: seq<Event>

    constructor ()
      ensures events == []
    {
      events := [];
    }

    // One registration; `ok` is false when it throws.
    method Register(e: Event, fails: Fails) returns (ok: bool)
      modifies this
      ensures ok == !fails(old(events), e)
      ensures events == if ok then old(events) + [e] else old(events)
    {
      ok := !fails(events, e);
      if ok { events := events + [e]; }
    }
  }

  // A call that began with `before` has made the first n of `events`, and none has thrown.
  ghost predicate SoFar(fails: Fails, before: seq<Event>, events: seq<Event>, n: nat, now: seq<Event>) {
    n <= |events| && Made(fails, before, events[..n]) == events[..n] && now == before + events[..n]
  }

  lemma {:induction false} OneMore(fails: Fails, before: seq<Event>, events: seq<Event>, n: nat, now: seq<Event>)
    requires SoFar(fails, before, events, n, now) && n < |events|
    ensures if fails(now, events[n]) then Made(fails, before, events) == events[..n]
            else SoFar(fails, before, events, n + 1, now + [events[n]])
  {
    var rest := events[n..];
    assert events == events[..n] + rest;
    MadeConcat(fails, before, events[..n], rest);
    if !fails(now, events[n]) {
      assert events[..n + 1] == events[..n] + [events[n]];
      MadeConcat(fails, before, events[..n], [events[n]]);
      assert Made(fails, now, [events[n]]) == [events[n]];
    }
  }

  method RegisterOwn(g: Modules, m: Module, registry: Registry, fails: Fails) returns (ok: bool)
    modifies registry
    ensures var made := Made(fails, old(registry.events), Own(g, m));
            ok == (made == Own(g, m)) && registry.events == old(registry.events) + made
  {
    ghost var before, own := registry.events, Own(g, m);
    for i := 0 to g(m).providers
      invariant SoFar(fails, before, own, i, registry.events)
    {
      OneMore(fails, before, own, i, registry.events);
      ok := registry.Register(RegistersProvider(m, i), fails);
      if !ok { return; }
    }
    for i := 0 to |g(m).controllers|
      invariant SoFar(fails, before, own, g(m).providers + i, registry.events)
    {
      OneMore(fails, before, own, g(m).providers + i, registry.events);
      ok := registry.Register(RegistersController(m, i), fails);
      if !ok { return; }
    }
    assert own[..|own|] == own;
    ok := true;
  }

  method InitializeModule(g: Modules, m: Module, registry: Registry, depth: nat, fails: Fails) returns (out: Outcome)
    modifies registry
    ensures out == OutcomeOf(fails, old(registry.events), Initialize(g, m, depth))
    ensures registry.events ==
            old(registry.events) + Made(fails, old(registry.events), Initialize(g, m, depth).events)
    decreases depth, 0
  {
    if depth == 0 { return OutOfStack; }
    ghost var first := InitializeAll(g, g(m).imports, depth - 1);
    out := InitializeImports(g, g(m).imports, registry, depth - 1, fails);
    JoinOutcome(fails, old(registry.events), first, Done(Own(g, m)));
    if !out.Ended? { return; }
    var ok := RegisterOwn(g, m, registry, fails);
    out := if ok then Ended else Threw;
  }

  lemma {:induction false} JoinOutcome(fails: Fails, before: seq<Event>, a: Trace, b: Trace)
    ensures var t := Join(a, b);
            if OutcomeOf(fails, before, a).Ended? then
              && OutcomeOf(fails, before, t) == OutcomeOf(fails, before + a.events, b)
              && before + Made(fails, before, t.events) == (before + a.events) + Made(fails, before + a.events, b.events)
            else
              && OutcomeOf(fails, before, t) == OutcomeOf(fails, before, a)
              && Made(fails, before, t.events) == Made(fails, before, a.events)
  {
    MadeConcat(fails, before, a.events, b.events);
    var made := Made(fails, before + a.events, b.events);
    SamePrefix(a.events, made, b.events);
    assert before + (a.events + made) == (before + a.events) + made;
  }

  lemma {:induction false} SamePrefix(a: seq<Event>, b: seq<Event>, c: seq<Event>)
    ensures a + b == a + c <==> b == c
  {
    assert (a + b)[|a|..] == b && (a + c)[|a|..] == c;
  }

  method InitializeImports(g: Modules, ms: seq<Module>, registry: Registry, depth: nat, fails: Fails)
    returns (out: Outcome)
    modifies registry
    ensures out == OutcomeOf(fails, old(registry.events), InitializeAll(g, ms, depth))
    ensures registry.events ==
            old(registry.events) + Made(fails, old(registry.events), InitializeAll(g, ms, depth).events)
    decreases depth, 1
  {
    ghost var before, all := registry.events, InitializeAll(g, ms, depth);
    ghost var done := Done([]);
    assert ms[0..] == ms && Join(done, all) == all;
    for i := 0 to |ms|
      invariant done.Done? && OutcomeOf(fails, before, done).Ended? && registry.events == before + done.events
      invariant all == Join(done, InitializeAll(g, ms[i..], depth))
    {
      assert ms[i..][0] == ms[i] && ms[i..][1..] == ms[i + 1..];
      ghost var next, rest := Initialize(g, ms[i], depth), InitializeAll(g, ms[i + 1..], depth);
      JoinJoin(done, next, rest);
      JoinOutcome(fails, before, done, next);
      JoinOutcome(fails, before, Join(done, next), rest);
      out := InitializeModule(g, ms[i], registry, depth, fails);
      if !out.Ended? { return; }
      done := Join(done, next);
    }
    assert all == done;
    out := Ended;
  }

  lemma {:induction false} JoinJoin(a: Trace, b: Trace, c: Trace)
    ensures Join(a, Join(b, c)) == Join(Join(a, b), c)
  {
    assert a.events + (b.events + c.events) == (a.events + b.events) + c.events;
  }
}
