// What a factory or a constructor is called with, in terms of the tokens as they were declared.
module ContainerFactories {
  import opened ContainerState
  import opened ContainerFrame
  import opened ContainerPure
  import opened Container
  import opened Options

  // The token resolved for constructor parameter i: the one injected there, if one is, and the
  // type of the parameter otherwise.
  ghost predicate Asks(info: ClassInfo, i: nat, d: Token)
    requires i < |info.params|
  {
    if i < |info.inject| && info.inject[i] != Absent && info.inject[i] != Text("") then d == info.inject[i]
    else d == info.params[i]
  }

  ghost predicate AsksFor(info: ClassInfo, ds: seq<Token>) {
    |ds| == |info.params| && forall i :: 0 <= i < |ds| ==> Asks(info, i, ds[i])
  }

  // t has no value yet and is built by the constructor of c: it is an unknown class, or it was
  // registered by `useClass`, or automatically.
  ghost predicate BuildsClass(conf: State, t: Token, c: Token) {
    && t != Absent && t != Text("")
    && if t in conf.providers then
         && !(conf.providers[t].scope == Singleton && conf.providers[t].instance != Undefined)
         && (conf.providers[t].factory == UseClass(c) || (conf.providers[t].factory.AutoClass? && c == t))
       else t.Class? && c == t
  }

  // vs are the values of the first of ds; if they are all of them, p is what `make` makes of them,
  // and otherwise the next one fails and p is that failure.
  ghost predicate MadeFrom(pure: Token -> Produced, p: Produced, ds: seq<Token>, make: seq<Value> -> Produced, vs: seq<Value>) {
    && |vs| <= |ds|
    && (forall i :: 0 <= i < |vs| ==> pure(ds[i]) == Made(vs[i]))
    && (if |vs| == |ds| then p == make(vs) else pure(ds[|vs|]).Failed? && p == pure(ds[|vs|]))
  }

  lemma {:induction false} FirstMade(pure: Token -> Produced, ts: seq<Token>) returns (vs: seq<Value>)
    ensures |vs| <= |ts| && forall i :: 0 <= i < |vs| ==> pure(ts[i]) == Made(vs[i])
    ensures if |vs| == |ts| then All(pure, ts) == AllMade(vs)
            else pure(ts[|vs|]).Failed? && All(pure, ts) == AnyFailed(pure(ts[|vs|]).code)
  {
    vs := [];
    if ts != [] && pure(ts[0]).Made? {
      var rest := FirstMade(pure, ts[1..]);
      vs := [pure(ts[0]).v] + rest;
      forall i | 0 <= i < |vs| ensures pure(ts[i]) == Made(vs[i]) {
        if i > 0 { assert ts[i] == ts[1..][i - 1]; }
      }
      if |rest| < |ts[1..]| { assert ts[1..][|rest|] == ts[|vs|]; }
    }
  }

  // Main result: a class is built by its constructor from what the injection tokens give, and the
  // parameter types where there is none; the first of these that fails decides otherwise.
  lemma {:induction false} ClassIsBuiltFrom(classes: Classes, conf: State, pure: Token -> Produced, t: Token, c: Token)
    returns (ds: seq<Token>, vs: seq<Value>)
    requires Constructs(classes, conf, pure) && BuildsClass(conf, t, c)
    ensures AsksFor(classes(c), ds) && MadeFrom(pure, pure(t), ds, classes(c).construct, vs)
  {
    ds := CtorTokens(classes(c));
    vs := FirstMade(pure, ds);
    assert pure(t) == Body(classes, conf, pure, t);
  }

  lemma {:induction false} FactoryIsGiven(
    classes: Classes, conf: State, pure: Token -> Produced, t: Token, inject: seq<Token>, make: seq<Value> -> Produced)
    returns (vs: seq<Value>)
    requires Constructs(classes, conf, pure) && t != Absent && t != Text("") && t in conf.providers
    requires conf.providers[t].factory == UseFactory(inject, make)
    requires !(conf.providers[t].scope == Singleton && conf.providers[t].instance != Undefined)
    ensures MadeFrom(pure, pure(t), inject, make, vs)
  {
    vs := FirstMade(pure, inject);
    assert pure(t) == Body(classes, conf, pure, t);
  }

  // --- The same of resolutions ---

  ghost function Out(classes: Classes, s: State, t: Token, r: string, depth: nat): Outcome {
    Resolve(classes, s, t, r, NoStack, depth).out
  }

  ghost function AsOutcome(p: Produced): Outcome {
    match p
    case Made(v) => Returned(v)
    case Failed(code) => Threw(FactoryError(code))
  }

  ghost predicate ResolvedFrom(
    classes: Classes, s: State, t: Token, r: string, depth: nat, ds: seq<Token>, make: seq<Value> -> Produced, vs: seq<Value>)
  {
    && |vs| <= |ds|
    && (forall i :: 0 <= i < |vs| ==> Out(classes, s, ds[i], r, depth) == Returned(vs[i]))
    && (if |vs| == |ds| then Out(classes, s, t, r, depth) == AsOutcome(make(vs))
        else Out(classes, s, ds[|vs|], r, depth).Threw? && Out(classes, s, t, r, depth) == Out(classes, s, ds[|vs|], r, depth))
  }

  // In every state of an acyclic container, resolving a class is calling its constructor with what
  // resolving each of those tokens gives.
  lemma {:induction false} ClassIsResolvedFrom(
    classes: Classes, conf: State, rank: Token -> nat, ops: seq<Op>, t: Token, c: Token, r: string, depth: nat)
    returns (ds: seq<Token>, vs: seq<Value>)
    requires Ranked(classes, conf, rank) && Configured(conf) && BuildsClass(conf, t, c)
    requires forall i :: 0 <= i < |ops| ==> Uses(ops[i]) && Stackless(ops[i])
    requires r != "" && depth > rank(t)
    ensures AsksFor(classes(c), ds)
    ensures ResolvedFrom(classes, Run(classes, conf, ops), t, r, depth, ds, classes(c).construct, vs)
  {
    var pure := Pure(classes, conf, rank);
    PureConstructs(classes, conf, rank);
    ds, vs := ClassIsBuiltFrom(classes, conf, pure, t, c);
    ResolutionIsPure(classes, conf, rank, ops, t, r, depth);
    AskedIsDep(classes, conf, t, c, ds);
    forall i | 0 <= i < |ds| ensures Out(classes, Run(classes, conf, ops), ds[i], r, depth) == AsOutcome(pure(ds[i])) {
      DepIsPure(classes, conf, rank, ops, t, ds[i], r, depth);
    }
  }

  lemma AskedIsDep(classes: Classes, conf: State, t: Token, c: Token, ds: seq<Token>)
    requires BuildsClass(conf, t, c) && AsksFor(classes(c), ds)
    ensures ds == Deps(classes, conf, t)
  {
    forall i | 0 <= i < |ds| ensures ds[i] == CtorTokens(classes(c))[i] { assert Asks(classes(c), i, ds[i]); }
  }

  lemma DepIsPure(
    classes: Classes, conf: State, rank: Token -> nat, ops: seq<Op>, t: Token, d: Token, r: string, depth: nat)
    requires Ranked(classes, conf, rank) && Configured(conf) && d in Deps(classes, conf, t)
    requires forall i :: 0 <= i < |ops| ==> Uses(ops[i]) && Stackless(ops[i])
    requires r != "" && depth > rank(t)
    ensures Out(classes, Run(classes, conf, ops), d, r, depth) == AsOutcome(Pure(classes, conf, rank)(d))
  {
    if Falsy(d) {
      PureIs(classes, conf, rank, d, rank(d) + 1);
    } else {
      ResolutionIsPure(classes, conf, rank, ops, d, r, depth);
    }
  }

  // --- Provider configurations ---

  // Main result: a value is handed out for singletons only; without one a factory is preferred to
  // a class; with none of them the token gives undefined.  The scope is singleton unless given.
  lemma {:induction false} ProviderIsUsed(classes: Classes, conf: State, pure: Token -> Produced, p: Provider)
    returns (ds: seq<Token>, vs: seq<Value>)
    requires Constructs(classes, conf, pure) && p.token != Absent && p.token != Text("")
    requires p.token in conf.providers && conf.providers[p.token] == MetadataOf(p)
    ensures ScopeOf(classes, conf, p.token) == match p.scope { case Some(s) => s case None => Singleton }
    ensures p.useValue != Undefined ==>
              pure(p.token) == Made(if p.scope == None || p.scope == Some(Singleton) then p.useValue else Undefined)
    ensures p.useValue == Undefined && p.useFactory.Some? ==>
              ds == p.inject && MadeFrom(pure, pure(p.token), ds, p.useFactory.value, vs)
    ensures p.useValue == Undefined && p.useFactory.None? && p.useClass.Some? ==>
              var info := classes(p.useClass.value);
              AsksFor(info, ds) && MadeFrom(pure, pure(p.token), ds, info.construct, vs)
    ensures p.useValue == Undefined && p.useFactory.None? && p.useClass.None? ==> pure(p.token) == Made(Undefined)
  {
    ds, vs := [], [];
    assert pure(p.token) == Body(classes, conf, pure, p.token);
    if p.useValue == Undefined {
      if p.useFactory.Some? {
        ds := p.inject;
        vs := FactoryIsGiven(classes, conf, pure, p.token, p.inject, p.useFactory.value);
      } else if p.useClass.Some? {
        ds, vs := ClassIsBuiltFrom(classes, conf, pure, p.token, p.useClass.value);
      }
    }
  }

  // A token nobody registered and that is no class gives undefined, and so does an absent one.
  lemma {:induction false} UnknownIsUndefined(classes: Classes, conf: State, pure: Token -> Produced, t: Token)
    requires Constructs(classes, conf, pure)
    requires t == Absent || t == Text("") || (t !in conf.providers && !t.Class?)
    ensures pure(t) == Made(Undefined)
  {
    assert pure(t) == Body(classes, conf, pure, t);
  }

  // --- The stack a caller passes ---

  // An automatically registered class hands the stack it was resolved with to its dependencies, so
  // one that depends on itself first is caught, whatever its scope.
  lemma {:induction false} StackCatchesCircle(classes: Classes, s: State, t: Token, r: string, id: nat, depth: nat)
    requires t.Class? && t !in s.providers && (classes(t).scope == Request ==> r != "" && t !in Scoped(s, r))
    requires |classes(t).params| > 0 && Asks(classes(t), 0, t)
    requires id in s.stacks && t !in s.stacks[id] && depth >= 2
    ensures Resolve(classes, s, t, r, Passed(id), depth).out == Threw(CircularDependency(t))
  {
    var k := Passed(id);
    var e := Enter(classes, s, t, r, k);
    var s1 := Prepared(classes, s, t, r, k);
    assert e.Build? && e.p.deps[0] == t && e.p.stack == k;
    EnterBuilds(classes, s, t, r, k);
    assert OnStack(e.st, k, t) && t in e.st.providers;
    assert Resolve(classes, e.st, t, r, k, depth - 1).out == Threw(CircularDependency(t));
    ResolveBuilds(classes, s, t, r, k, depth, depth - 1);
  }
}
