// What a resolution leaves alone, whether it returns or throws.
module ContainerFrame {
  import opened ContainerState

  // A provider record keeps its configuration and its in-progress flag; a cached instance stays,
  // and none appears while the singleton is in progress.
  ghost predicate MetaFrame(m: Metadata, m': Metadata) {
    && m'.scope == m.scope && m'.factory == m.factory && m'.lazy == m.lazy
    && m'.isResolving == m.isResolving
    && (m.instance != Undefined || m.isResolving || m.scope != Singleton ==> m'.instance == m.instance)
  }

  ghost predicate IsAuto(classes: Classes, t: Token, m: Metadata) {
    t.Class? && m.scope == classes(t).scope && m.factory.AutoClass? && !m.lazy
  }

  ghost predicate ProvidersFrame(classes: Classes, p: map<Token, Metadata>, p': map<Token, Metadata>) {
    && (forall t :: t in p ==> t in p' && MetaFrame(p[t], p'[t]))
    && (forall t :: t in p' && t !in p ==>
          && IsAuto(classes, t, p'[t]) && !p'[t].isResolving
          && (p'[t].scope != Singleton ==> p'[t].instance == Undefined))
  }

  // Only request r may gain instances, and it loses none.
  ghost predicate RequestsFrame(q: map<string, map<Token, Value>>, q': map<string, map<Token, Value>>, r: string) {
    && (forall x :: x != r ==> (x in q' <==> x in q))
    && (forall x :: x != r && x in q ==> q'[x] == q[x])
    && (r in q ==> r in q' && forall t :: t in q[r] ==> t in q'[r] && q'[r][t] == q[r][t])
  }

  ghost predicate Frame(classes: Classes, s: State, s': State, r: string) {
    && s'.stacks == s.stacks
    && s.log <= s'.log
    && ProvidersFrame(classes, s.providers, s'.providers)
    && RequestsFrame(s.requests, s'.requests, r)
  }

  // The state in which the factory of t is called is `Marked(Prepared(s))`.
  ghost function Prepared(classes: Classes, s: State, t: Token, r: string, k: Stack): State {
    var s0 := AutoRegister(classes, s, t, k);
    if t in s0.providers && s0.providers[t].scope == Request && r != "" then
      s0.(requests := s0.requests[r := Scoped(s0, r)])
    else s0
  }

  ghost function Marked(s: State, t: Token): State
    requires t in s.providers
  {
    if s.providers[t].scope == Singleton then SetMeta(s, t, s.providers[t].(isResolving := true)) else s
  }

  // t is a provider whose factory `Enter` decides to run.
  ghost predicate Due(s: State, t: Token, r: string, k: Stack) {
    && Builds(s, t)
    && !OnStack(s, k, t)
    && (s.providers[t].scope == Singleton ==> s.providers[t].instance == Undefined && !s.providers[t].isResolving)
    && (s.providers[t].scope == Request ==> r != "" && r in s.requests && t !in s.requests[r])
  }

  lemma AutoRegisterFrame(classes: Classes, s: State, t: Token, r: string, k: Stack)
    ensures Frame(classes, s, AutoRegister(classes, s, t, k), r)
  {}

  lemma OpenFrame(classes: Classes, s: State, r: string)
    ensures Frame(classes, s, s.(requests := s.requests[r := Scoped(s, r)]), r)
  {}

  lemma PreparedFrame(classes: Classes, s: State, t: Token, r: string, k: Stack)
    ensures Frame(classes, s, Prepared(classes, s, t, r, k), r)
  {
    var s0 := AutoRegister(classes, s, t, k);
    AutoRegisterFrame(classes, s, t, r, k);
    OpenFrame(classes, s0, r);
    FrameTrans(classes, s, s0, s0.(requests := s0.requests[r := Scoped(s0, r)]), r);
  }

  lemma EnterBuilds(classes: Classes, s: State, t: Token, r: string, k: Stack)
    requires Enter(classes, s, t, r, k).Build?
    ensures var s1 := Prepared(classes, s, t, r, k);
            && Due(s1, t, r, k)
            && Enter(classes, s, t, r, k) ==
               Build(PlanOf(classes, t, s1.providers[t].factory), Push(Marked(s1, t), k, t))
  {}

  lemma DoneState(classes: Classes, s: State, t: Token, r: string, k: Stack)
    requires Enter(classes, s, t, r, k).Done?
    ensures var st := Enter(classes, s, t, r, k).st;
            st == Prepared(classes, s, t, r, k) || st == AutoRegister(classes, s, t, k)
  {}

  lemma EnterDone(classes: Classes, s: State, t: Token, r: string, k: Stack)
    requires Enter(classes, s, t, r, k).Done?
    ensures var st := Enter(classes, s, t, r, k).st;
            st == Prepared(classes, s, t, r, k) || st == AutoRegister(classes, s, t, k)
    ensures Frame(classes, s, Enter(classes, s, t, r, k).st, r)
  {
    DoneState(classes, s, t, r, k);
    AutoRegisterFrame(classes, s, t, r, k);
    PreparedFrame(classes, s, t, r, k);
  }

  lemma FrameTrans(classes: Classes, s0: State, s1: State, s2: State, r: string)
    requires Frame(classes, s0, s1, r) && Frame(classes, s1, s2, r)
    ensures Frame(classes, s0, s2, r)
  {}

  lemma StoreProvidersFrame(classes: Classes, s: State, s': State, t: Token, r: string, out: Outcome)
    requires t in s.providers
    requires s.providers[t].scope == Singleton ==> s.providers[t].instance == Undefined && !s.providers[t].isResolving
    requires ProvidersFrame(classes, Marked(s, t).providers, s'.providers)
    ensures t in s'.providers && s'.providers[t].scope == s.providers[t].scope
    ensures ProvidersFrame(classes, s.providers, Store(s', t, r, out).providers)
  {
    assert MetaFrame(Marked(s, t).providers[t], s'.providers[t]);
  }

  lemma StoreRequestsFrame(s: State, s': State, t: Token, r: string, out: Outcome)
    requires t in s'.providers
    requires s'.providers[t].scope == Request ==> r in s.requests && t !in s.requests[r]
    requires RequestsFrame(s.requests, s'.requests, r)
    ensures RequestsFrame(s.requests, Store(s', t, r, out).requests, r)
  {}

  lemma StoreFrame(classes: Classes, s: State, s': State, t: Token, r: string, k: Stack, out: Outcome)
    requires Due(s, t, r, k)
    requires ProvidersFrame(classes, Marked(s, t).providers, s'.providers)
    requires RequestsFrame(s.requests, s'.requests, r)
    ensures t in s'.providers
    ensures ProvidersFrame(classes, s.providers, Store(s', t, r, out).providers)
    ensures RequestsFrame(s.requests, Store(s', t, r, out).requests, r)
  {
    StoreProvidersFrame(classes, s, s', t, r, out);
    StoreRequestsFrame(s, s', t, r, out);
  }

  lemma LeaveFrame(classes: Classes, s: State, s': State, t: Token, r: string, k: Stack, out: Outcome)
    requires Due(s, t, r, k)
    requires Frame(classes, Push(Marked(s, t), k, t), s', r)
    ensures Frame(classes, s, Leave(s', t, r, k, out), r)
  {
    PushMarked(s, t, k);
    StoreFrame(classes, s, s', t, r, k, out);
    PopUndoesPush(s, Store(s', t, r, out), k, t);
  }

  lemma PushMarked(s: State, t: Token, k: Stack)
    requires t in s.providers
    ensures var st := Push(Marked(s, t), k, t);
            && st.providers == Marked(s, t).providers && st.requests == s.requests && st.log == s.log
            && st.stacks == Push(s, k, t).stacks
  {}

  lemma PopUndoesPush(s: State, x: State, k: Stack, t: Token)
    requires !OnStack(s, k, t)
    requires x.stacks == Push(s, k, t).stacks
    ensures Pop(x, k, t) == x.(stacks := s.stacks)
  {
    if k.Passed? && k.id in s.stacks {
      assert s.stacks[k.id] + {t} - {t} == s.stacks[k.id];
    }
  }

  // Clean failure, isolation and permanence of instances, for every graph and every outcome:
  // the stacks are as on entry, the in-progress flags are as on entry, other requests are
  // untouched, nothing cached is lost or replaced.
  lemma {:induction false} ResolveFrame(classes: Classes, s: State, t: Token, r: string, k: Stack, depth: nat)
    ensures Frame(classes, s, Resolve(classes, s, t, r, k, depth).st, r)
    decreases depth, 0
  {
    if Falsy(t) || depth == 0 { return; }
    match Enter(classes, s, t, r, k)
    case Done(out, st) => EnterDone(classes, s, t, r, k);
    case Build(p, st) =>
      ResolveAllFrame(classes, st, p.deps, r, p.stack, depth - 1);
      BuildFrame(classes, s, t, r, k, ResolveAll(classes, st, p.deps, r, p.stack, depth - 1));
  }

  lemma ResolveBuilds(classes: Classes, s: State, t: Token, r: string, k: Stack, depth: nat, room: nat)
    requires !Falsy(t) && depth == room + 1 && Enter(classes, s, t, r, k).Build?
    ensures var e := Enter(classes, s, t, r, k);
            var f := Construct(e.p, t, r, ResolveAll(classes, e.st, e.p.deps, r, e.p.stack, room));
            Resolve(classes, s, t, r, k, depth) == Step(f.out, Leave(f.st, t, r, k, f.out))
  {}

  lemma BuildFrame(classes: Classes, s: State, t: Token, r: string, k: Stack, a: Steps)
    requires Enter(classes, s, t, r, k).Build? && Frame(classes, Enter(classes, s, t, r, k).st, a.st, r)
    ensures var f := Construct(Enter(classes, s, t, r, k).p, t, r, a);
            Frame(classes, s, Leave(f.st, t, r, k, f.out), r)
  {
    var s1 := Prepared(classes, s, t, r, k);
    EnterBuilds(classes, s, t, r, k);
    var f := Construct(Enter(classes, s, t, r, k).p, t, r, a);
    assert Frame(classes, Enter(classes, s, t, r, k).st, f.st, r);
    LeaveFrame(classes, s1, f.st, t, r, k, f.out);
    PreparedFrame(classes, s, t, r, k);
    FrameTrans(classes, s, s1, Leave(f.st, t, r, k, f.out), r);
  }

  lemma {:induction false} ResolveAllFrame(classes: Classes, s: State, ts: seq<Token>, r: string, k: Stack, depth: nat)
    ensures Frame(classes, s, ResolveAll(classes, s, ts, r, k, depth).st, r)
    decreases depth, 1 + |ts|
  {
    if ts != [] {
      var first := Resolve(classes, s, ts[0], r, k, depth);
      ResolveFrame(classes, s, ts[0], r, k, depth);
      if first.out.Returned? {
        ResolveAllFrame(classes, first.st, ts[1..], r, k, depth);
        FrameTrans(classes, s, first.st, ResolveAll(classes, first.st, ts[1..], r, k, depth).st, r);
      }
    }
  }
}
