// `resolve` ends, by returning or throwing, whenever every dependency cycle passes through a
// singleton: then a call stack of a size known beforehand is never used up.
module ContainerTermination {
  import opened ContainerState
  import opened ContainerFrame
  import ContainerCycles
  import ContainerPure
  import opened Collections
  import opened Graphs

  ghost function Edges(classes: Classes, s: State): Token -> seq<Token> {
    t => Deps(classes, s, t)
  }

  ghost function NonSingletons(classes: Classes, s: State, U: set<Token>): set<Token> {
    set t | t in U && ScopeOf(classes, s, t) != Singleton
  }

  // Singletons that may still be entered: not cached and not in progress.
  ghost function Pending(classes: Classes, s: State, U: set<Token>): set<Token> {
    set t | t in U && ScopeOf(classes, s, t) == Singleton
         && (t in s.providers ==> s.providers[t].instance == Undefined && !s.providers[t].isResolving)
  }

  ghost predicate SameGraph(classes: Classes, conf: State, s: State) {
    && (forall t :: Deps(classes, s, t) == Deps(classes, conf, t))
    && (forall t :: ScopeOf(classes, s, t) == ScopeOf(classes, conf, t))
  }

  // The lexicographic measure (pending singletons, rank among the non-singletons), as one number.
  ghost function Need(pending: nat, size: nat, level: nat): nat {
    Weight(pending, size) + level + 1
  }

  // pending * (size + 2)
  ghost function Weight(pending: nat, size: nat): nat {
    if pending == 0 then 0 else Weight(pending - 1, size) + size + 2
  }

  ghost function Level(classes: Classes, conf: State, rank: map<Token, nat>, t: Token): nat {
    if ScopeOf(classes, conf, t) == Singleton || t !in rank then 0 else rank[t] + 1
  }

  ghost function Bound(size: nat): nat {
    Need(size, size, size)
  }

  lemma NeedMonotone(p: nat, p': nat, size: nat, level: nat, level': nat)
    requires p <= p' && (p < p' ==> level <= size) && (p == p' ==> level <= level')
    ensures Need(p, size, level) <= Need(p', size, level')
    ensures p < p' || level < level' ==> Need(p, size, level) < Need(p', size, level')
  {
    if p < p' { WeightMonotone(p, p', size); }
  }

  lemma {:induction false} WeightMonotone(p: nat, p': nat, size: nat)
    requires p < p'
    ensures Weight(p, size) + size + 2 <= Weight(p', size)
    decreases p'
  {
    if p < p' - 1 { WeightMonotone(p, p' - 1, size); }
  }

  // `rank` falls along every dependency between non-singletons.
  ghost predicate GoodRank(classes: Classes, conf: State, U: set<Token>, rank: map<Token, nat>) {
    && Closed(Edges(classes, conf), U)
    && (forall t :: t in U && ScopeOf(classes, conf, t) != Singleton ==> t in rank)
    && (forall t :: t in rank ==> rank[t] < |U|)
    && (forall t, d :: t in rank && d in rank && d in Deps(classes, conf, t) ==> rank[d] < rank[t])
  }

  lemma RankFromCycleFree(classes: Classes, s: State, U: set<Token>) returns (rank: map<Token, nat>)
    requires Closed(Edges(classes, s), U) && CycleFree(Edges(classes, s), NonSingletons(classes, s, U))
    ensures GoodRank(classes, s, U, rank)
  {
    rank := CycleFreeHasRank(Edges(classes, s), NonSingletons(classes, s, U));
    CardMono(NonSingletons(classes, s, U), U);
    forall t, d | t in rank && d in rank && d in Deps(classes, s, t) ensures rank[d] < rank[t] {
      assert d in Edges(classes, s)(t);
    }
  }

  lemma FrameKeepsGraph(classes: Classes, conf: State, s: State, s': State, U: set<Token>)
    requires SameGraph(classes, conf, s) && ProvidersFrame(classes, s.providers, s'.providers)
    ensures SameGraph(classes, conf, s')
    ensures Pending(classes, s', U) <= Pending(classes, s, U)
  {
    forall t ensures Deps(classes, s', t) == Deps(classes, conf, t) {
      ContainerCycles.DepsStable(classes, s, s', t);
    }
    forall t ensures ScopeOf(classes, s', t) == ScopeOf(classes, s, t) {}
  }

  lemma GraphOnBuild(classes: Classes, conf: State, s: State, t: Token, r: string, k: Stack, U: set<Token>)
    requires SameGraph(classes, conf, s) && t in U
    requires !Falsy(t) && Enter(classes, s, t, r, k).Build?
    ensures var e := Enter(classes, s, t, r, k);
            && SameGraph(classes, conf, e.st)
            && e.p.deps == Deps(classes, conf, t)
            && Pending(classes, e.st, U) <= Pending(classes, s, U)
            && (ScopeOf(classes, conf, t) == Singleton ==>
                  t in Pending(classes, s, U) && t !in Pending(classes, e.st, U))
  {
    var e := Enter(classes, s, t, r, k);
    var s1 := Prepared(classes, s, t, r, k);
    EnterBuilds(classes, s, t, r, k);
    PreparedFrame(classes, s, t, r, k);
    FrameKeepsGraph(classes, conf, s, s1, U);
    PushMarked(s1, t, k);
    forall x ensures Deps(classes, e.st, x) == Deps(classes, conf, x) {
      ContainerCycles.MarkedDeps(classes, s1, t, k, x);
    }
    forall x ensures ScopeOf(classes, e.st, x) == ScopeOf(classes, s1, x) {}
    ContainerCycles.BuildDeps(classes, s, t, r, k);
  }

  // The room a dependency needs is less than the room its dependent needs.
  lemma ChildFits(
    classes: Classes, conf: State, U: set<Token>, rank: map<Token, nat>, s: State, t: Token, r: string, k: Stack, d: Token)
    requires GoodRank(classes, conf, U, rank) && SameGraph(classes, conf, s) && t in U
    requires !Falsy(t) && Enter(classes, s, t, r, k).Build?
    requires d in Deps(classes, conf, t)
    ensures d in U
    ensures Need(|Pending(classes, Enter(classes, s, t, r, k).st, U)|, |U|, Level(classes, conf, rank, d))
            < Need(|Pending(classes, s, U)|, |U|, Level(classes, conf, rank, t))
  {
    var st := Enter(classes, s, t, r, k).st;
    var p, p' := Pending(classes, st, U), Pending(classes, s, U);
    GraphOnBuild(classes, conf, s, t, r, k, U);
    CardMono(p, p');
    assert d in Edges(classes, conf)(t);
    if ScopeOf(classes, conf, t) == Singleton {
      assert p != p';
    } else if ScopeOf(classes, conf, d) != Singleton {
      assert rank[d] < rank[t];
    }
    NeedMonotone(|p|, |p'|, |U|, Level(classes, conf, rank, d), Level(classes, conf, rank, t));
  }

  ghost predicate Fits(classes: Classes, conf: State, U: set<Token>, rank: map<Token, nat>, s: State, t: Token, depth: nat) {
    t in U && depth >= Need(|Pending(classes, s, U)|, |U|, Level(classes, conf, rank, t))
  }

  lemma {:induction false} ResolveFits(
    classes: Classes, conf: State, U: set<Token>, rank: map<Token, nat>, s: State, t: Token, r: string, k: Stack, depth: nat)
    requires GoodRank(classes, conf, U, rank) && SameGraph(classes, conf, s)
    requires Fits(classes, conf, U, rank, s, t, depth)
    ensures Resolve(classes, s, t, r, k, depth).out != Threw(StackOverflow)
    decreases depth, 1
  {
    if Falsy(t) { return; }
    if Enter(classes, s, t, r, k).Build? {
      BuildFits(classes, conf, U, rank, s, t, r, k, depth, depth - 1);
    } else {
      DoneNoOverflow(classes, s, t, r, k);
    }
  }

  lemma {:induction false} BuildFits(
    classes: Classes, conf: State, U: set<Token>, rank: map<Token, nat>, s: State, t: Token, r: string, k: Stack,
    depth: nat, room: nat)
    requires GoodRank(classes, conf, U, rank) && SameGraph(classes, conf, s)
    requires Fits(classes, conf, U, rank, s, t, depth) && depth == room + 1
    requires !Falsy(t) && Enter(classes, s, t, r, k).Build?
    ensures Resolve(classes, s, t, r, k, depth).out != Threw(StackOverflow)
    decreases depth, 0
  {
    var e := Enter(classes, s, t, r, k);
    DepsFit(classes, conf, U, rank, s, t, r, k, room);
    ResolveAllFits(classes, conf, U, rank, e.st, e.p.deps, r, e.p.stack, room);
    ResolveBuilds(classes, s, t, r, k, depth, room);
  }

  lemma DepsFit(
    classes: Classes, conf: State, U: set<Token>, rank: map<Token, nat>, s: State, t: Token, r: string, k: Stack, room: nat)
    requires GoodRank(classes, conf, U, rank) && SameGraph(classes, conf, s)
    requires Fits(classes, conf, U, rank, s, t, room + 1)
    requires !Falsy(t) && Enter(classes, s, t, r, k).Build?
    ensures var e := Enter(classes, s, t, r, k);
            && SameGraph(classes, conf, e.st)
            && forall i :: 0 <= i < |e.p.deps| ==> Fits(classes, conf, U, rank, e.st, e.p.deps[i], room)
  {
    GraphOnBuild(classes, conf, s, t, r, k, U);
    var e := Enter(classes, s, t, r, k);
    forall i | 0 <= i < |e.p.deps| ensures Fits(classes, conf, U, rank, e.st, e.p.deps[i], room) {
      ChildFits(classes, conf, U, rank, s, t, r, k, e.p.deps[i]);
    }
  }

  lemma DoneNoOverflow(classes: Classes, s: State, t: Token, r: string, k: Stack)
    requires Enter(classes, s, t, r, k).Done?
    ensures Enter(classes, s, t, r, k).out != Threw(StackOverflow)
  {}

  lemma {:induction false} ResolveAllFits(
    classes: Classes, conf: State, U: set<Token>, rank: map<Token, nat>, s: State, ts: seq<Token>, r: string, k: Stack, depth: nat)
    requires GoodRank(classes, conf, U, rank) && SameGraph(classes, conf, s)
    requires forall i :: 0 <= i < |ts| ==> Fits(classes, conf, U, rank, s, ts[i], depth)
    ensures ResolveAll(classes, s, ts, r, k, depth).outs != AnyThrew(StackOverflow)
    decreases depth, 1 + |ts|
  {
    if ts != [] {
      ResolveFits(classes, conf, U, rank, s, ts[0], r, k, depth);
      var first := Resolve(classes, s, ts[0], r, k, depth);
      if first.out.Returned? {
        ResolveFrame(classes, s, ts[0], r, k, depth);
        FrameKeepsGraph(classes, conf, s, first.st, U);
        var rest := ts[1..];
        forall i | 0 <= i < |rest| ensures Fits(classes, conf, U, rank, first.st, rest[i], depth) {
          assert rest[i] == ts[i + 1];
          CardMono(Pending(classes, first.st, U), Pending(classes, s, U));
          var level := Level(classes, conf, rank, rest[i]);
          NeedMonotone(|Pending(classes, first.st, U)|, |Pending(classes, s, U)|, |U|, level, level);
        }
        ResolveAllFits(classes, conf, U, rank, first.st, rest, r, k, depth);
      }
    }
  }

  // A deeper call stack changes nothing once it is deep enough.
  lemma {:induction false} DeeperIsSame(
    classes: Classes, s: State, t: Token, r: string, k: Stack, depth: nat, depth': nat)
    requires Resolve(classes, s, t, r, k, depth).out != Threw(StackOverflow) && depth <= depth'
    ensures Resolve(classes, s, t, r, k, depth') == Resolve(classes, s, t, r, k, depth)
    decreases depth, 0
  {
    if Falsy(t) || depth == 0 { return; }
    var e := Enter(classes, s, t, r, k);
    if e.Build? {
      DeeperIsSameAll(classes, e.st, e.p.deps, r, e.p.stack, depth - 1, depth' - 1);
    }
  }

  lemma {:induction false} DeeperIsSameAll(
    classes: Classes, s: State, ts: seq<Token>, r: string, k: Stack, depth: nat, depth': nat)
    requires ResolveAll(classes, s, ts, r, k, depth).outs != AnyThrew(StackOverflow) && depth <= depth'
    ensures ResolveAll(classes, s, ts, r, k, depth') == ResolveAll(classes, s, ts, r, k, depth)
    decreases depth, 1 + |ts|
  {
    if ts != [] {
      DeeperIsSame(classes, s, ts[0], r, k, depth, depth');
      var first := Resolve(classes, s, ts[0], r, k, depth);
      if first.out.Returned? { DeeperIsSameAll(classes, first.st, ts[1..], r, k, depth, depth'); }
    }
  }

  // Main result.  U holds t and whatever it depends on, directly or not; no dependency cycle
  // within U avoids the singletons.  Then, from any state, a call stack of `Bound(|U|)` is enough
  // and a larger one changes nothing.
  lemma {:induction false} ResolveTerminates(classes: Classes, s: State, U: set<Token>, t: Token, r: string, k: Stack, depth: nat)
    requires t in U && Closed(Edges(classes, s), U)
    requires CycleFree(Edges(classes, s), NonSingletons(classes, s, U))
    requires depth >= Bound(|U|)
    ensures Resolve(classes, s, t, r, k, depth).out != Threw(StackOverflow)
    ensures Resolve(classes, s, t, r, k, depth) == Resolve(classes, s, t, r, k, Bound(|U|))
  {
    var rank := RankFromCycleFree(classes, s, U);
    CardMono(Pending(classes, s, U), U);
    NeedMonotone(|Pending(classes, s, U)|, |U|, |U|, Level(classes, s, rank, t), |U|);
    ResolveFits(classes, s, U, rank, s, t, r, k, Bound(|U|));
    DeeperIsSame(classes, s, t, r, k, Bound(|U|), depth);
  }

  // An uncached cycle of singletons throws, and not for want of call stack.
  lemma {:induction false} SingletonCycleThrows(
    classes: Classes, s: State, U: set<Token>, cycle: seq<Token>, r: string, k: Stack, depth: nat)
    requires IsCycle(Edges(classes, s), cycle) && Within(cycle, U) && Closed(Edges(classes, s), U)
    requires forall i :: 0 <= i < |cycle| ==>
               ScopeOf(classes, s, cycle[i]) == Singleton && ContainerCycles.Uncached(classes, s, cycle[i], r)
    requires CycleFree(Edges(classes, s), NonSingletons(classes, s, U))
    requires depth >= Bound(|U|)
    ensures var out := Resolve(classes, s, cycle[0], r, k, depth).out; out.Threw? && out.e != StackOverflow
  {
    CycleEntangled(classes, s, cycle, r);
    ContainerCycles.ResolveEntangled(classes, s, cycle[0], r, k, depth, ContainerCycles.Members(cycle));
    ResolveTerminates(classes, s, U, cycle[0], r, k, depth);
  }

  lemma CycleEntangled(classes: Classes, s: State, cycle: seq<Token>, r: string)
    requires IsCycle(Edges(classes, s), cycle)
    requires forall i :: 0 <= i < |cycle| ==> ContainerCycles.Uncached(classes, s, cycle[i], r)
    ensures ContainerCycles.Entangled(classes, s, ContainerCycles.Members(cycle), r)
  {
    var S := ContainerCycles.Members(cycle);
    forall t | t in S ensures ContainerCycles.NeedsOneOf(classes, s, t, S) {
      var i :| 0 <= i < |cycle| && cycle[i] == t;
      var j := if i == |cycle| - 1 then 0 else i;
      assert cycle[j + 1] in Edges(classes, s)(cycle[j]);
      assert cycle[j + 1] in Deps(classes, s, t) && cycle[j + 1] in S;
    }
  }

  // Where the condition fails: transients whose first dependency is again among them use up any
  // call stack.
  lemma {:induction false} TransientCycleOverflows(classes: Classes, s: State, S: set<Token>, t: Token, r: string, depth: nat)
    requires t in S && forall x :: x in S ==> TransientInto(classes, s, S, x)
    ensures Resolve(classes, s, t, r, NoStack, depth).out == Threw(StackOverflow)
    decreases depth
  {
    if depth > 0 {
      assert TransientInto(classes, s, S, t);
      TransientEnters(classes, s, S, t, r);
      TransientCycleOverflows(classes, s, S, Deps(classes, s, t)[0], r, depth - 1);
    }
  }

  // A registered transient whose first dependency is in S.
  ghost predicate TransientInto(classes: Classes, s: State, S: set<Token>, x: Token) {
    && !Falsy(x) && x in s.providers && s.providers[x].scope == Transient
    && (s.providers[x].factory.UseFactory? || s.providers[x].factory.UseClass?)
    && Deps(classes, s, x) != [] && Deps(classes, s, x)[0] in S
  }

  lemma TransientEnters(classes: Classes, s: State, S: set<Token>, x: Token, r: string)
    requires TransientInto(classes, s, S, x)
    ensures var e := Enter(classes, s, x, r, NoStack);
            e.Build? && e.st == s && e.p.deps == Deps(classes, s, x) && e.p.stack == NoStack
  {}

  // A finite acyclic configuration has the rank that ContainerPure asks for.
  lemma {:induction false} AcyclicIsRanked(classes: Classes, conf: State, U: set<Token>) returns (rank: Token -> nat)
    requires forall t :: Deps(classes, conf, t) != [] ==> t in U
    requires Closed(Edges(classes, conf), U) && CycleFree(Edges(classes, conf), U)
    ensures ContainerPure.Ranked(classes, conf, rank)
  {
    var m := CycleFreeHasRank(Edges(classes, conf), U);
    rank := t => if t in m then m[t] else 0;
    forall t, d | d in Deps(classes, conf, t) && !Falsy(d) ensures rank(d) < rank(t) {
      assert d in Edges(classes, conf)(t);
    }
  }
}
