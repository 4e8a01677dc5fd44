// When `resolve` uses up every call stack: exactly where a cycle of tokens that are still to be
// built avoids the singletons, whose in-progress flag would have stopped it.
module ContainerOverflow {
  import opened ContainerState
  import opened ContainerFrame
  import opened ContainerCycles
  import ContainerPure
  import opened ContainerTermination
  import opened Collections
  import opened Graphs

  // The tokens of U whose factories a resolution for r would have to run.
  ghost function Unbuilt(classes: Classes, s: State, U: set<Token>, r: string): set<Token> {
    set t | t in U && Uncached(classes, s, t, r)
  }

  ghost predicate Ends(classes: Classes, s: State, t: Token, r: string) {
    exists depth: nat :: EndsWithin(classes, s, t, r, depth)
  }

  ghost predicate EndsWithin(classes: Classes, s: State, t: Token, r: string, depth: nat) {
    Resolve(classes, s, t, r, NoStack, depth).out != Threw(StackOverflow)
  }

  lemma FrameKeepsUnbuilt(classes: Classes, s: State, s': State, r: string, t: Token)
    requires Frame(classes, s, s', r) && Uncached(classes, s', t, r)
    ensures Uncached(classes, s, t, r)
  {}

  // --- Without a cycle of unbuilt tokens ---

  // A resolution needs one frame more than the rank of its token, whatever else is cached meanwhile.
  ghost predicate Ranks(classes: Classes, s0: State, s: State, U: set<Token>, r: string, rank: map<Token, nat>) {
    && SameGraph(classes, s0, s) && Closed(Edges(classes, s0), U)
    && (forall t :: t in U && Uncached(classes, s, t, r) ==> t in rank)
    && (forall t, d :: t in rank && d in Deps(classes, s0, t) && d in rank ==> rank[d] < rank[t])
  }

  ghost function Room(rank: map<Token, nat>, t: Token): nat {
    if t in rank then rank[t] + 2 else 1
  }

  lemma RanksOnFrame(
    classes: Classes, s0: State, s: State, s': State, U: set<Token>, r: string, rank: map<Token, nat>)
    requires Ranks(classes, s0, s, U, r, rank) && Frame(classes, s, s', r)
    ensures Ranks(classes, s0, s', U, r, rank)
  {
    FrameKeepsGraph(classes, s0, s, s', U);
    forall t | t in U && Uncached(classes, s', t, r) ensures t in rank { FrameKeepsUnbuilt(classes, s, s', r, t); }
  }

  lemma BuildIsUnbuilt(classes: Classes, s: State, t: Token, r: string, k: Stack)
    requires !Falsy(t) && Enter(classes, s, t, r, k).Build?
    ensures Uncached(classes, s, t, r)
  {}

  lemma UnbuiltOnBuild(classes: Classes, s: State, t: Token, r: string, k: Stack, x: Token)
    requires !Falsy(t) && Enter(classes, s, t, r, k).Build?
    requires Uncached(classes, Enter(classes, s, t, r, k).st, x, r)
    ensures Uncached(classes, s, x, r)
  {
    EnterBuilds(classes, s, t, r, k);
    PreparedFrame(classes, s, t, r, k);
    assert Uncached(classes, Prepared(classes, s, t, r, k), x, r);
    FrameKeepsUnbuilt(classes, s, Prepared(classes, s, t, r, k), r, x);
  }

  lemma RanksOnBuild(
    classes: Classes, s0: State, s: State, t: Token, r: string, U: set<Token>, rank: map<Token, nat>)
    requires Ranks(classes, s0, s, U, r, rank) && ContainerPure.NoCapturedStack(s) && t in U
    requires !Falsy(t) && Enter(classes, s, t, r, NoStack).Build?
    ensures var e := Enter(classes, s, t, r, NoStack);
            && e.p.stack == NoStack && ContainerPure.NoCapturedStack(e.st)
            && Ranks(classes, s0, e.st, U, r, rank) && t in rank
            && forall i :: 0 <= i < |e.p.deps| ==> e.p.deps[i] in U && Room(rank, e.p.deps[i]) < Room(rank, t)
  {
    var e := Enter(classes, s, t, r, NoStack);
    BuildIsUnbuilt(classes, s, t, r, NoStack);
    ContainerPure.StacklessOnBuild(classes, s, t, r);
    GraphOnBuild(classes, s0, s, t, r, NoStack, U);
    forall x | x in U && Uncached(classes, e.st, x, r) ensures x in rank {
      UnbuiltOnBuild(classes, s, t, r, NoStack, x);
    }
    forall i | 0 <= i < |e.p.deps| ensures e.p.deps[i] in U && Room(rank, e.p.deps[i]) < Room(rank, t) {
      assert e.p.deps[i] in Edges(classes, s0)(t);
    }
  }

  lemma {:induction false} ResolveHasRoom(
    classes: Classes, s0: State, s: State, t: Token, r: string, depth: nat, U: set<Token>, rank: map<Token, nat>)
    requires Ranks(classes, s0, s, U, r, rank) && t in U && depth >= Room(rank, t)
    requires ContainerPure.NoCapturedStack(s)
    ensures Resolve(classes, s, t, r, NoStack, depth).out != Threw(StackOverflow)
    decreases depth, 1
  {
    if Falsy(t) { return; }
    if Enter(classes, s, t, r, NoStack).Build? {
      BuildHasRoom(classes, s0, s, t, r, depth, depth - 1, U, rank);
    } else {
      DoneNoOverflow(classes, s, t, r, NoStack);
    }
  }

  lemma {:induction false} BuildHasRoom(
    classes: Classes, s0: State, s: State, t: Token, r: string, depth: nat, room: nat, U: set<Token>, rank: map<Token, nat>)
    requires Ranks(classes, s0, s, U, r, rank) && t in U && room + 1 == depth >= Room(rank, t)
    requires ContainerPure.NoCapturedStack(s)
    requires !Falsy(t) && Enter(classes, s, t, r, NoStack).Build?
    ensures Resolve(classes, s, t, r, NoStack, depth).out != Threw(StackOverflow)
    decreases depth, 0
  {
    RanksOnBuild(classes, s0, s, t, r, U, rank);
    var e := Enter(classes, s, t, r, NoStack);
    ResolveAllHasRoom(classes, s0, e.st, e.p.deps, r, room, U, rank);
    ResolveBuilds(classes, s, t, r, NoStack, depth, room);
  }

  lemma {:induction false} ResolveAllHasRoom(
    classes: Classes, s0: State, s: State, ts: seq<Token>, r: string, depth: nat, U: set<Token>, rank: map<Token, nat>)
    requires Ranks(classes, s0, s, U, r, rank) && ContainerPure.NoCapturedStack(s)
    requires forall i :: 0 <= i < |ts| ==> ts[i] in U && depth >= Room(rank, ts[i])
    ensures ResolveAll(classes, s, ts, r, NoStack, depth).outs != AnyThrew(StackOverflow)
    decreases depth, 1 + |ts|
  {
    if ts != [] {
      ResolveHasRoom(classes, s0, s, ts[0], r, depth, U, rank);
      var first := Resolve(classes, s, ts[0], r, NoStack, depth);
      if first.out.Returned? {
        ResolveFrame(classes, s, ts[0], r, NoStack, depth);
        RanksOnFrame(classes, s0, s, first.st, U, r, rank);
        ContainerPure.StacklessResolve(classes, s, ts[0], r, depth);
        ResolveAllHasRoom(classes, s0, first.st, ts[1..], r, depth, U, rank);
      }
    }
  }

  lemma {:induction false} EndsWithoutCycle(classes: Classes, s: State, U: set<Token>, r: string, t: Token)
    requires Closed(Edges(classes, s), U) && CycleFree(Edges(classes, s), Unbuilt(classes, s, U, r))
    requires ContainerPure.NoCapturedStack(s) && t in U
    ensures EndsWithin(classes, s, t, r, |U| + 2)
  {
    var V := Unbuilt(classes, s, U, r);
    var rank := CycleFreeHasRank(Edges(classes, s), V);
    CardMono(V, U);
    forall a, d | a in rank && d in Deps(classes, s, a) && d in rank ensures rank[d] < rank[a] {
      assert d in Edges(classes, s)(a);
    }
    ResolveHasRoom(classes, s, s, t, r, |U| + 2, U, rank);
  }

  // --- With one ---

  ghost predicate AlwaysMakes(make: seq<Value> -> Produced) {
    forall vs :: make(vs).Made?
  }

  ghost predicate NeverFails(classes: Classes, p: map<Token, Metadata>) {
    && (forall c :: AlwaysMakes(classes(c).construct))
    && (forall t :: t in p && p[t].factory.UseFactory? ==> AlwaysMakes(p[t].factory.make))
  }

  // Where tokens to be built depend on each other in a circle, none of them is a singleton.
  ghost predicate CirclesAvoidSingletons(classes: Classes, s: State, U: set<Token>, r: string) {
    forall p: seq<Token> :: IsCycle(Edges(classes, s), p) && Within(p, Unbuilt(classes, s, U, r)) ==>
      ScopeOf(classes, s, p[0]) != Singleton
  }

  // The state while the factories of the chain c are running, in a resolution that began in s0.
  ghost predicate During(classes: Classes, s0: State, s: State, U: set<Token>, c: seq<Token>, r: string) {
    && SameGraph(classes, s0, s)
    && NeverFails(classes, s.providers) && ContainerPure.NoCapturedStack(s)
    && BuiltSince(classes, s0, s, U, r)
    && IsChain(classes, s, c, r) && Within(c, U)
    && InProgressIn(s.providers, c)
  }

  ghost predicate BuiltSince(classes: Classes, s0: State, s: State, U: set<Token>, r: string) {
    forall x :: x in U && Uncached(classes, s, x, r) ==> Uncached(classes, s0, x, r)
  }

  ghost predicate InProgressIn(p: map<Token, Metadata>, c: seq<Token>) {
    forall x :: x in p && p[x].isResolving ==> x in c
  }

  lemma NeverFailsOnFrame(classes: Classes, p: map<Token, Metadata>, p': map<Token, Metadata>)
    requires NeverFails(classes, p) && ProvidersFrame(classes, p, p')
    ensures NeverFails(classes, p')
  {}

  lemma InProgressOnFrame(classes: Classes, p: map<Token, Metadata>, p': map<Token, Metadata>, c: seq<Token>)
    requires InProgressIn(p, c) && ProvidersFrame(classes, p, p')
    ensures InProgressIn(p', c)
  {}

  lemma DuringOnFrame(
    classes: Classes, s0: State, s: State, s': State, U: set<Token>, c: seq<Token>, r: string)
    requires During(classes, s0, s, U, c, r) && Frame(classes, s, s', r)
    requires ContainerPure.NoCapturedStack(s') && IsChain(classes, s', c, r)
    ensures During(classes, s0, s', U, c, r)
  {
    FrameKeepsGraph(classes, s0, s, s', U);
    NeverFailsOnFrame(classes, s.providers, s'.providers);
    InProgressOnFrame(classes, s.providers, s'.providers, c);
    forall x | x in U && Uncached(classes, s', x, r) ensures Uncached(classes, s0, x, r) {
      FrameKeepsUnbuilt(classes, s, s', r, x);
    }
  }

  lemma MarkedInProgress(s: State, t: Token, c: seq<Token>)
    requires t in s.providers && InProgressIn(s.providers, c)
    ensures InProgressIn(Marked(s, t).providers, c + [t])
  {
    assert t in c + [t];
  }

  lemma MarkedNeverFails(classes: Classes, s: State, t: Token)
    requires t in s.providers && NeverFails(classes, s.providers)
    ensures NeverFails(classes, Marked(s, t).providers)
    ensures !s.providers[t].factory.NoFactory? ==> AlwaysMakes(PlanOf(classes, t, s.providers[t].factory).make)
  {}

  lemma DuringOnBuild(
    classes: Classes, s0: State, s: State, U: set<Token>, c: seq<Token>, r: string, t: Token)
    requires During(classes, s0, s, U, c, r) && t in U
    requires !Falsy(t) && Enter(classes, s, t, r, NoStack).Build?
    requires c != [] ==> t in Deps(classes, s, c[|c| - 1])
    ensures var e := Enter(classes, s, t, r, NoStack);
            && During(classes, s0, e.st, U, c + [t], r)
            && e.p.deps == Deps(classes, e.st, t) == Deps(classes, s0, t)
            && e.p.stack == NoStack && AlwaysMakes(e.p.make)
  {
    var e := Enter(classes, s, t, r, NoStack);
    var s1 := Prepared(classes, s, t, r, NoStack);
    EnterBuilds(classes, s, t, r, NoStack);
    PreparedFrame(classes, s, t, r, NoStack);
    NeverFailsOnFrame(classes, s.providers, s1.providers);
    InProgressOnFrame(classes, s.providers, s1.providers, c);
    MarkedNeverFails(classes, s1, t);
    MarkedInProgress(s1, t, c);
    PushMarked(s1, t, NoStack);
    GraphOnBuild(classes, s0, s, t, r, NoStack, U);
    ContainerPure.StacklessOnBuild(classes, s, t, r);
    ChainOnBuild(classes, s, t, r, NoStack, c);
    forall x | x in U && Uncached(classes, e.st, x, r) ensures Uncached(classes, s0, x, r) {
      UnbuiltOnBuild(classes, s, t, r, NoStack, x);
    }
  }

  // No singleton in progress is asked for.
  lemma DuringOnDone(
    classes: Classes, s0: State, s: State, U: set<Token>, c: seq<Token>, r: string, t: Token)
    requires During(classes, s0, s, U, c, r) && CirclesAvoidSingletons(classes, s0, U, r) && t in U && r != ""
    requires !Falsy(t) && Enter(classes, s, t, r, NoStack).Done?
    requires c != [] ==> t in Deps(classes, s, c[|c| - 1])
    ensures Enter(classes, s, t, r, NoStack).out.Returned?
  {
    var out := Enter(classes, s, t, r, NoStack).out;
    if out.Threw? {
      assert t in s.providers && s.providers[t].isResolving && s.providers[t].scope == Singleton;
      CircleThrough(classes, s0, s, U, c, r, t);
      assert false;
    }
  }

  lemma CircleThrough(
    classes: Classes, s0: State, s: State, U: set<Token>, c: seq<Token>, r: string, t: Token)
    requires During(classes, s0, s, U, c, r) && CirclesAvoidSingletons(classes, s0, U, r)
    requires t in c && t in Deps(classes, s, c[|c| - 1])
    ensures ScopeOf(classes, s, t) != Singleton
  {
    var i :| 0 <= i < |c| && c[i] == t;
    ClosesCircle(classes, s0, s, c, r, i);
    ChainUnbuilt(classes, s0, s, U, c, r, i);
    assert (c[i..] + [c[i]])[0] == t;
  }

  lemma ClosesCircle(classes: Classes, s0: State, s: State, c: seq<Token>, r: string, i: nat)
    requires SameGraph(classes, s0, s) && IsChain(classes, s, c, r)
    requires i < |c| && c[i] in Deps(classes, s, c[|c| - 1])
    ensures IsCycle(Edges(classes, s0), c[i..] + [c[i]])
  {
    var p := c[i..] + [c[i]];
    forall j | 0 <= j < |p| - 1 ensures p[j + 1] in Edges(classes, s0)(p[j]) {
      assert p[j] == c[i + j];
      assert Deps(classes, s, c[i + j]) == Deps(classes, s0, c[i + j]);
    }
  }

  lemma ChainUnbuilt(classes: Classes, s0: State, s: State, U: set<Token>, c: seq<Token>, r: string, i: nat)
    requires BuiltSince(classes, s0, s, U, r) && IsChain(classes, s, c, r) && Within(c, U) && i < |c|
    ensures Within(c[i..] + [c[i]], Unbuilt(classes, s0, U, r))
  {
    forall m | 0 <= m < |c| ensures c[m] in Unbuilt(classes, s0, U, r) {
      assert c[m] in U && Uncached(classes, s, c[m], r);
    }
  }

  lemma {:induction false} OnlyOverflows(
    classes: Classes, s0: State, s: State, U: set<Token>, c: seq<Token>, r: string, t: Token, depth: nat)
    requires During(classes, s0, s, U, c, r) && CirclesAvoidSingletons(classes, s0, U, r)
    requires Closed(Edges(classes, s0), U) && t in U && r != ""
    requires c != [] ==> t in Deps(classes, s, c[|c| - 1])
    ensures var out := Resolve(classes, s, t, r, NoStack, depth).out; out.Threw? ==> out.e == StackOverflow
    decreases depth, 1
  {
    if Falsy(t) || depth == 0 { return; }
    if Enter(classes, s, t, r, NoStack).Done? {
      DuringOnDone(classes, s0, s, U, c, r, t);
    } else {
      BuildOnlyOverflows(classes, s0, s, U, c, r, t, depth, depth - 1);
    }
  }

  lemma {:induction false} BuildOnlyOverflows(
    classes: Classes, s0: State, s: State, U: set<Token>, c: seq<Token>, r: string, t: Token, depth: nat, room: nat)
    requires During(classes, s0, s, U, c, r) && CirclesAvoidSingletons(classes, s0, U, r)
    requires Closed(Edges(classes, s0), U) && t in U && r != "" && depth == room + 1
    requires !Falsy(t) && Enter(classes, s, t, r, NoStack).Build?
    requires c != [] ==> t in Deps(classes, s, c[|c| - 1])
    ensures var out := Resolve(classes, s, t, r, NoStack, depth).out; out.Threw? ==> out.e == StackOverflow
    decreases depth, 0
  {
    var e := Enter(classes, s, t, r, NoStack);
    BuildReady(classes, s0, s, U, c, r, t);
    AllOnlyOverflow(classes, s0, e.st, U, c + [t], r, e.p.deps, room);
    ResolveBuilds(classes, s, t, r, NoStack, depth, room);
  }

  // The innermost running factory depends on these tokens.
  ghost predicate AskedBy(classes: Classes, s: State, c: seq<Token>, ts: seq<Token>) {
    c != [] && forall i :: 0 <= i < |ts| ==> ts[i] in Deps(classes, s, c[|c| - 1])
  }

  lemma BuildReady(
    classes: Classes, s0: State, s: State, U: set<Token>, c: seq<Token>, r: string, t: Token)
    requires During(classes, s0, s, U, c, r) && Closed(Edges(classes, s0), U) && t in U
    requires !Falsy(t) && Enter(classes, s, t, r, NoStack).Build?
    requires c != [] ==> t in Deps(classes, s, c[|c| - 1])
    ensures var e := Enter(classes, s, t, r, NoStack);
            && During(classes, s0, e.st, U, c + [t], r)
            && e.p.stack == NoStack && AlwaysMakes(e.p.make) && Within(e.p.deps, U)
            && AskedBy(classes, e.st, c + [t], e.p.deps)
  {
    DuringOnBuild(classes, s0, s, U, c, r, t);
    assert (c + [t])[|c + [t]| - 1] == t;
    DepsWithin(classes, s0, U, t);
  }

  lemma DepsWithin(classes: Classes, s0: State, U: set<Token>, t: Token)
    requires Closed(Edges(classes, s0), U) && t in U
    ensures Within(Deps(classes, s0, t), U)
  {
    forall i | 0 <= i < |Deps(classes, s0, t)| ensures Deps(classes, s0, t)[i] in U {
      assert Deps(classes, s0, t)[i] in Edges(classes, s0)(t);
    }
  }

  lemma DuringAfter(
    classes: Classes, s0: State, s: State, U: set<Token>, c: seq<Token>, r: string, t: Token, depth: nat)
    requires During(classes, s0, s, U, c, r)
    requires c != [] ==> t in Deps(classes, s, c[|c| - 1])
    ensures During(classes, s0, Resolve(classes, s, t, r, NoStack, depth).st, U, c, r)
  {
    ResolveFrame(classes, s, t, r, NoStack, depth);
    ContainerPure.StacklessResolve(classes, s, t, r, depth);
    if c != [] { ResolveKeepsChain(classes, s, t, r, NoStack, depth, c); }
    DuringOnFrame(classes, s0, s, Resolve(classes, s, t, r, NoStack, depth).st, U, c, r);
  }

  lemma {:induction false} AllOnlyOverflow(
    classes: Classes, s0: State, s: State, U: set<Token>, c: seq<Token>, r: string, ts: seq<Token>, depth: nat)
    requires During(classes, s0, s, U, c, r) && CirclesAvoidSingletons(classes, s0, U, r)
    requires Closed(Edges(classes, s0), U) && Within(ts, U) && r != "" && AskedBy(classes, s, c, ts)
    ensures var outs := ResolveAll(classes, s, ts, r, NoStack, depth).outs; outs.AnyThrew? ==> outs.e == StackOverflow
    decreases depth, 1 + |ts|
  {
    if ts != [] {
      OnlyOverflows(classes, s0, s, U, c, r, ts[0], depth);
      DuringAfter(classes, s0, s, U, c, r, ts[0], depth);
      var first := Resolve(classes, s, ts[0], r, NoStack, depth);
      if first.out.Returned? {
        assert Deps(classes, first.st, c[|c| - 1]) == Deps(classes, s0, c[|c| - 1]) == Deps(classes, s, c[|c| - 1]);
        AllOnlyOverflow(classes, s0, first.st, U, c, r, ts[1..], depth);
      }
    }
  }

  // A state between two top-level resolutions, with factories that do not throw.
  ghost predicate AtRest(classes: Classes, s: State) {
    NeverFails(classes, s.providers) && ContainerPure.NoCapturedStack(s) && InProgressIn(s.providers, [])
  }

  lemma {:induction false} CircleOverflows(classes: Classes, s: State, U: set<Token>, r: string, p: seq<Token>, depth: nat)
    requires AtRest(classes, s) && CirclesAvoidSingletons(classes, s, U, r)
    requires Closed(Edges(classes, s), U) && r != ""
    requires IsCycle(Edges(classes, s), p) && Within(p, Unbuilt(classes, s, U, r))
    ensures !EndsWithin(classes, s, p[0], r, depth)
  {
    CycleEntangled(classes, s, p, r);
    ResolveEntangled(classes, s, p[0], r, NoStack, depth, Members(p));
    OnlyOverflows(classes, s, s, U, [], r, p[0], depth);
  }

  // Main result.  Between top-level resolutions, for a request, with factories that do not throw,
  // and where no singleton that is still to be built depends on itself: every token of U can be
  // resolved with some call stack exactly when no tokens to be built depend on each other in a
  // circle.  One frame per token and two are then enough; otherwise no call stack is.
  lemma {:induction false} EndsIffNoCircle(classes: Classes, s: State, U: set<Token>, r: string)
    requires AtRest(classes, s) && CirclesAvoidSingletons(classes, s, U, r)
    requires Closed(Edges(classes, s), U) && r != ""
    ensures (forall t :: t in U ==> Ends(classes, s, t, r)) <==> CycleFree(Edges(classes, s), Unbuilt(classes, s, U, r))
    ensures (forall t :: t in U ==> Ends(classes, s, t, r)) <==>
            (forall t :: t in U ==> EndsWithin(classes, s, t, r, |U| + 2))
  {
    var V := Unbuilt(classes, s, U, r);
    if CycleFree(Edges(classes, s), V) {
      forall t | t in U ensures Ends(classes, s, t, r) && EndsWithin(classes, s, t, r, |U| + 2) {
        EndsWithoutCycle(classes, s, U, r, t);
      }
    } else {
      var p: seq<Token> :| IsCycle(Edges(classes, s), p) && Within(p, V);
      forall depth: nat ensures !EndsWithin(classes, s, p[0], r, depth) {
        CircleOverflows(classes, s, U, r, p, depth);
      }
      assert p[0] in U;
    }
  }
}
