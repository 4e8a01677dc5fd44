// Circular dependencies: a token on a cycle of dependencies that are not cached yet never resolves.
module ContainerCycles {
  import opened ContainerState
  import opened ContainerFrame

  // Resolving t would have to run its factory.
  ghost predicate Uncached(classes: Classes, s: State, t: Token, r: string) {
    && !Falsy(t)
    && (t in s.providers ==>
          && !s.providers[t].factory.NoFactory?
          && (s.providers[t].scope == Singleton ==> s.providers[t].instance == Undefined))
    && (t !in s.providers ==> t.Class?)
    && (ScopeOf(classes, s, t) == Request ==> t !in Scoped(s, r))
  }

  ghost predicate NeedsOneOf(classes: Classes, s: State, t: Token, S: set<Token>) {
    exists d :: d in Deps(classes, s, t) && d in S
  }

  // No member of S is cached and each depends on a member of S: a cycle, or several entangled ones.
  ghost predicate Entangled(classes: Classes, s: State, S: set<Token>, r: string) {
    && AllUncached(classes, s, S, r)
    && forall t {:trigger NeedsOneOf(classes, s, t, S)} :: t in S ==> NeedsOneOf(classes, s, t, S)
  }

  ghost predicate AllUncached(classes: Classes, s: State, S: set<Token>, r: string) {
    forall t :: t in S ==> Uncached(classes, s, t, r)
  }

  lemma DepsStable(classes: Classes, s: State, s': State, t: Token)
    requires ProvidersFrame(classes, s.providers, s'.providers)
    ensures Deps(classes, s', t) == Deps(classes, s, t)
  {}

  lemma MarkedDeps(classes: Classes, s: State, t: Token, k: Stack, x: Token)
    requires t in s.providers
    ensures Deps(classes, Push(Marked(s, t), k, t), x) == Deps(classes, s, x)
  {}

  lemma PreparedUncached(classes: Classes, s: State, t: Token, r: string, k: Stack, S: set<Token>)
    requires AllUncached(classes, s, S, r)
    ensures AllUncached(classes, Prepared(classes, s, t, r, k), S, r)
  {}

  lemma MarkedUncached(classes: Classes, s: State, t: Token, r: string, k: Stack, S: set<Token>)
    requires t in s.providers && AllUncached(classes, s, S, r)
    ensures AllUncached(classes, Push(Marked(s, t), k, t), S, r)
  {}

  lemma LeaveUncached(classes: Classes, s: State, t: Token, r: string, k: Stack, out: Outcome, S: set<Token>)
    requires AllUncached(classes, s, S, r)
    requires t in S ==> out.Threw?
    ensures AllUncached(classes, Leave(s, t, r, k, out), S, r)
  {}

  lemma BuildDeps(classes: Classes, s: State, t: Token, r: string, k: Stack)
    requires !Falsy(t) && Enter(classes, s, t, r, k).Build?
    ensures Enter(classes, s, t, r, k).p.deps == Deps(classes, s, t)
  {}

  lemma KeepEntangled(classes: Classes, s: State, s': State, S: set<Token>, r: string)
    requires Entangled(classes, s, S, r) && AllUncached(classes, s', S, r)
    requires ProvidersFrame(classes, s.providers, s'.providers)
    ensures Entangled(classes, s', S, r)
  {
    forall t | t in S ensures NeedsOneOf(classes, s', t, S) {
      DepsStable(classes, s, s', t);
      assert NeedsOneOf(classes, s, t, S);
    }
  }

  lemma EntangledOnBuild(classes: Classes, s: State, t: Token, r: string, k: Stack, S: set<Token>)
    requires Entangled(classes, s, S, r)
    requires !Falsy(t) && Enter(classes, s, t, r, k).Build?
    ensures var e := Enter(classes, s, t, r, k);
            && Entangled(classes, e.st, S, r)
            && (t in S ==> exists d :: d in e.p.deps && d in S)
  {
    var s1 := Prepared(classes, s, t, r, k);
    var st := Enter(classes, s, t, r, k).st;
    EnterBuilds(classes, s, t, r, k);
    BuildDeps(classes, s, t, r, k);
    assert t in S ==> NeedsOneOf(classes, s, t, S);
    PreparedUncached(classes, s, t, r, k, S);
    MarkedUncached(classes, s1, t, r, k, S);
    PreparedFrame(classes, s, t, r, k);
    forall x | x in S ensures NeedsOneOf(classes, st, x, S) {
      MarkedDeps(classes, s1, t, k, x);
      DepsStable(classes, s, s1, x);
      assert NeedsOneOf(classes, s, x, S);
    }
  }

  lemma UncachedOnDone(classes: Classes, s: State, t: Token, r: string, k: Stack, S: set<Token>)
    requires AllUncached(classes, s, S, r)
    requires !Falsy(t) && Enter(classes, s, t, r, k).Done?
    ensures AllUncached(classes, Enter(classes, s, t, r, k).st, S, r)
    ensures t in S ==> Enter(classes, s, t, r, k).out.Threw?
  {}

  lemma UncachedOnReturn(
    classes: Classes, p: Plan, a: Steps, t: Token, r: string, k: Stack, S: set<Token>)
    requires AllUncached(classes, a.st, S, r)
    requires t in S ==> a.outs.AnyThrew?
    ensures var f := Construct(p, t, r, a);
            && AllUncached(classes, Leave(f.st, t, r, k, f.out), S, r)
            && (t in S ==> f.out.Threw?)
  {
    var f := Construct(p, t, r, a);
    assert AllUncached(classes, f.st, S, r);
    LeaveUncached(classes, f.st, t, r, k, f.out, S);
  }

  // Resolving any token keeps an entangled set uncached, and resolving a member throws:
  // whatever the scopes, the request, the stack passed and the depth.
  lemma {:induction false} ResolveEntangled(
    classes: Classes, s: State, t: Token, r: string, k: Stack, depth: nat, S: set<Token>)
    requires Entangled(classes, s, S, r)
    ensures Entangled(classes, Resolve(classes, s, t, r, k, depth).st, S, r)
    ensures t in S ==> Resolve(classes, s, t, r, k, depth).out.Threw?
    decreases depth, 0
  {
    if Falsy(t) || depth == 0 { return; }
    var e := Enter(classes, s, t, r, k);
    if e.Done? {
      UncachedOnDone(classes, s, t, r, k, S);
    } else {
      EntangledOnBuild(classes, s, t, r, k, S);
      ResolveAllEntangled(classes, e.st, e.p.deps, r, e.p.stack, depth - 1, S);
      UncachedOnReturn(classes, e.p, ResolveAll(classes, e.st, e.p.deps, r, e.p.stack, depth - 1), t, r, k, S);
    }
    ResolveFrame(classes, s, t, r, k, depth);
    KeepEntangled(classes, s, Resolve(classes, s, t, r, k, depth).st, S, r);
  }

  lemma {:induction false} ResolveAllEntangled(
    classes: Classes, s: State, ts: seq<Token>, r: string, k: Stack, depth: nat, S: set<Token>)
    requires Entangled(classes, s, S, r)
    ensures Entangled(classes, ResolveAll(classes, s, ts, r, k, depth).st, S, r)
    ensures (exists d :: d in ts && d in S) ==> ResolveAll(classes, s, ts, r, k, depth).outs.AnyThrew?
    decreases depth, 1 + |ts|
  {
    if ts != [] {
      ResolveEntangled(classes, s, ts[0], r, k, depth, S);
      var first := Resolve(classes, s, ts[0], r, k, depth);
      if first.out.Returned? {
        ResolveAllEntangled(classes, first.st, ts[1..], r, k, depth, S);
        assert forall d :: d in ts ==> d == ts[0] || d in ts[1..];
      }
    }
  }

  // The tokens whose factories are running, outermost first: each depends on the next.
  ghost predicate IsChain(classes: Classes, s: State, c: seq<Token>, r: string) {
    && (forall i :: 0 <= i < |c| ==> Uncached(classes, s, c[i], r))
    && (forall i :: 0 <= i < |c| - 1 ==> c[i + 1] in Deps(classes, s, c[i]))
  }

  ghost function Members(c: seq<Token>): set<Token> {
    set t | t in c
  }

  lemma ChainEntangled(classes: Classes, s: State, c: seq<Token>, t: Token, r: string)
    requires IsChain(classes, s, c, r) && t in c
    requires t in Deps(classes, s, c[|c| - 1])
    ensures Entangled(classes, s, Members(c), r)
  {
    forall x | x in Members(c) ensures NeedsOneOf(classes, s, x, Members(c)) {
      var i :| 0 <= i < |c| && c[i] == x;
      var d := if i < |c| - 1 then c[i + 1] else t;
      assert d in Deps(classes, s, x) && d in Members(c);
    }
  }

  lemma ChainFromSet(classes: Classes, s: State, s': State, c: seq<Token>, r: string)
    requires IsChain(classes, s, c, r) && AllUncached(classes, s', Members(c), r)
    requires ProvidersFrame(classes, s.providers, s'.providers)
    ensures IsChain(classes, s', c, r)
  {
    forall i | 0 <= i < |c| ensures Uncached(classes, s', c[i], r) { assert c[i] in Members(c); }
    forall i | 0 <= i < |c| - 1 ensures c[i + 1] in Deps(classes, s', c[i]) { DepsStable(classes, s, s', c[i]); }
  }

  lemma ChainMembers(classes: Classes, s: State, c: seq<Token>, r: string)
    requires IsChain(classes, s, c, r)
    ensures AllUncached(classes, s, Members(c), r)
  {}

  lemma ShorterChain(classes: Classes, s: State, c: seq<Token>, t: Token, r: string)
    requires IsChain(classes, s, c + [t], r)
    ensures AllUncached(classes, s, Members(c), r)
  {
    ChainMembers(classes, s, c + [t], r);
    assert forall x :: x in c ==> x in c + [t];
  }

  lemma ChainOnBuild(classes: Classes, s: State, t: Token, r: string, k: Stack, c: seq<Token>)
    requires IsChain(classes, s, c, r) && (c != [] ==> t in Deps(classes, s, c[|c| - 1]))
    requires !Falsy(t) && Enter(classes, s, t, r, k).Build?
    ensures var e := Enter(classes, s, t, r, k);
            IsChain(classes, e.st, c + [t], r) && e.p.deps == Deps(classes, e.st, t)
  {
    var s1 := Prepared(classes, s, t, r, k);
    var st := Enter(classes, s, t, r, k).st;
    EnterBuilds(classes, s, t, r, k);
    BuildDeps(classes, s, t, r, k);
    ChainMembers(classes, s, c, r);
    PreparedUncached(classes, s, t, r, k, Members(c));
    MarkedUncached(classes, s1, t, r, k, Members(c) + {t});
    PreparedFrame(classes, s, t, r, k);
    forall x ensures Deps(classes, st, x) == Deps(classes, s, x) {
      MarkedDeps(classes, s1, t, k, x);
      DepsStable(classes, s, s1, x);
    }
    var c' := c + [t];
    forall i | 0 <= i < |c'| ensures Uncached(classes, st, c'[i], r) { assert c'[i] in Members(c) + {t}; }
  }

  // While the chain is running nothing on it gets cached by the resolutions it makes.
  lemma {:induction false} ResolveKeepsChain(
    classes: Classes, s: State, t: Token, r: string, k: Stack, depth: nat, c: seq<Token>)
    requires c != [] && IsChain(classes, s, c, r)
    requires t in Deps(classes, s, c[|c| - 1])
    ensures IsChain(classes, Resolve(classes, s, t, r, k, depth).st, c, r)
    decreases depth, 1
  {
    if Falsy(t) || depth == 0 { return; }
    MembersStayUncached(classes, s, t, r, k, depth, c);
    ResolveFrame(classes, s, t, r, k, depth);
    ChainFromSet(classes, s, Resolve(classes, s, t, r, k, depth).st, c, r);
  }

  lemma {:induction false} MembersStayUncached(
    classes: Classes, s: State, t: Token, r: string, k: Stack, depth: nat, c: seq<Token>)
    requires c != [] && IsChain(classes, s, c, r) && !Falsy(t) && depth > 0
    requires t in Deps(classes, s, c[|c| - 1])
    ensures AllUncached(classes, Resolve(classes, s, t, r, k, depth).st, Members(c), r)
    decreases depth, 0
  {
    var e := Enter(classes, s, t, r, k);
    ChainMembers(classes, s, c, r);
    if t in c {
      ChainEntangled(classes, s, c, t, r);
      ResolveEntangled(classes, s, t, r, k, depth, Members(c));
    } else if e.Done? {
      UncachedOnDone(classes, s, t, r, k, Members(c));
    } else {
      ChainOnBuild(classes, s, t, r, k, c);
      var a := ResolveAll(classes, e.st, e.p.deps, r, e.p.stack, depth - 1);
      assert (c + [t])[|c + [t]| - 1] == t;
      ResolveAllKeepsChain(classes, e.st, e.p.deps, r, e.p.stack, depth - 1, c + [t]);
      ShorterChain(classes, a.st, c, t, r);
      UncachedOnReturn(classes, e.p, a, t, r, k, Members(c));
    }
  }

  lemma {:induction false} ResolveAllKeepsChain(
    classes: Classes, s: State, ts: seq<Token>, r: string, k: Stack, depth: nat, c: seq<Token>)
    requires c != [] && IsChain(classes, s, c, r)
    requires forall i :: 0 <= i < |ts| ==> ts[i] in Deps(classes, s, c[|c| - 1])
    ensures IsChain(classes, ResolveAll(classes, s, ts, r, k, depth).st, c, r)
    decreases depth, 1 + |ts|
  {
    if ts != [] {
      ResolveKeepsChain(classes, s, ts[0], r, k, depth, c);
      ResolveFrame(classes, s, ts[0], r, k, depth);
      var first := Resolve(classes, s, ts[0], r, k, depth);
      if first.out.Returned? {
        DepsStable(classes, s, first.st, c[|c| - 1]);
        ResolveAllKeepsChain(classes, first.st, ts[1..], r, k, depth, c);
      }
    }
  }

  // Between the decision to run a factory and its return, nobody else caches that token.
  lemma {:induction false} NoReentry(classes: Classes, s: State, t: Token, r: string, k: Stack, depth: nat)
    requires !Falsy(t) && Enter(classes, s, t, r, k).Build?
    ensures var e := Enter(classes, s, t, r, k);
            Uncached(classes, ResolveAll(classes, e.st, e.p.deps, r, e.p.stack, depth).st, t, r)
  {
    var e := Enter(classes, s, t, r, k);
    ChainOnBuild(classes, s, t, r, k, []);
    assert [] + [t] == [t];
    ResolveAllKeepsChain(classes, e.st, e.p.deps, r, e.p.stack, depth, [t]);
    assert [t][0] == t;
  }
}
