// The container as the program writes it: maps and provider records changed in place, with
// explicit unwinding where the program has `try ... finally`.
module Container {
  import opened ContainerState
  import opened ContainerFrame
  import opened Options

  datatype Provider = Provider(
    token: Token,
    useClass: Option<Token>,
    useValue: Value,
    useFactory: Option<seq<Value> -> Produced>,
    scope: Option<Scope>,
    inject: seq<Token>,
    lazy: bool)

  function MetadataOf(p: Provider): (m: Metadata)
    ensures Fresh(m) && m.lazy == p.lazy
    ensures p.useValue != Undefined ==> m.instance == p.useValue && m.factory.NoFactory?
  {
    Metadata(
      if p.scope.Some? then p.scope.value else Singleton,
      p.useValue,
      if p.useValue != Undefined then NoFactory
      else if p.useFactory.Some? then UseFactory(p.inject, p.useFactory.value)
      else if p.useClass.Some? then UseClass(p.useClass.value)
      else NoFactory,
      false, p.lazy, p.useValue != Undefined)
  }

  // The `switch` over scopes, which runs between pushing t on the stack and popping it.
  ghost function Switch(classes: Classes, s: State, t: Token, r: string, depth: nat): Step
    requires t in s.providers && depth > 0
  {
    match EnterScope(classes, s, t, r, NoStack)
    case Done(out, st) => Step(out, st)
    case Build(p, st) =>
      var f := Construct(p, t, r, ResolveAll(classes, st, p.deps, r, p.stack, depth - 1));
      Step(f.out, if t in f.st.providers then Store(f.st, t, r, f.out) else f.st)
  }

  lemma SwitchDone(classes: Classes, s: State, t: Token, r: string, k: Stack)
    requires t in s.providers && !OnStack(s, k, t)
    ensures var a := EnterScope(classes, s, t, r, k);
            var b := EnterScope(classes, Push(s, k, t), t, r, NoStack);
            && (a.Done? ==> b == Done(a.out, b.st) && Pop(b.st, k, t) == a.st)
            && (a.Build? ==> b == a)
  {
    var a := EnterScope(classes, s, t, r, k);
    var b := EnterScope(classes, Push(s, k, t), t, r, NoStack);
    if a.Done? { PopUndoesPush(s, b.st, k, t); }
  }

  // Pushing, switching and popping is what `Resolve` says.
  lemma {:induction false} SwitchIsResolve(classes: Classes, s: State, t: Token, r: string, k: Stack, depth: nat)
    requires !Falsy(t) && depth > 0
    requires var s0 := AutoRegister(classes, s, t, k); t in s0.providers && !OnStack(s0, k, t)
    ensures var sw := Switch(classes, Push(AutoRegister(classes, s, t, k), k, t), t, r, depth);
            Resolve(classes, s, t, r, k, depth) == Step(sw.out, Pop(sw.st, k, t))
  {
    SwitchDone(classes, AutoRegister(classes, s, t, k), t, r, k);
  }

  ghost function Prepend(vs: seq<Value>, a: Steps): Steps {
    if a.outs.AllReturned? then Steps(AllReturned(vs + a.outs.vs), a.st) else a
  }

  class Container {
    const classes: Classes
    var providers: map<Token, Metadata>
    var requestScopedProviders: map<string, map<Token, Value>>
    // The sets callers pass as resolution stacks, by handle.
    var stacks: map<nat, set<Token>>
    ghost var log: seq<Event>

    ghost function View(): State
      reads this
    {
      State(providers, requestScopedProviders, stacks, log)
    }

    constructor (classes: Classes)
      ensures View() == EMPTY && this.classes == classes
    {
      this.classes := classes;
      providers, requestScopedProviders, stacks, log := map[], map[], map[], [];
    }

    // `register` given something that is not a provider configuration.
    method RegisterInstance(token: Token, instance: Value, scope: Scope)
      modifies this
      ensures View() == Register(old(View()), token, Metadata(scope, instance, NoFactory, false, false, false))
    {
      providers := providers[token := Metadata(scope, instance, NoFactory, false, false, false)];
      log := log + [Registered(token)];
    }

    method RegisterProvider(provider: Provider)
      modifies this
      ensures View() == Register(old(View()), provider.token, MetadataOf(provider))
    {
      var scope := match provider.scope case Some(s) => s case None => Singleton;
      var metadata := Metadata(scope, Undefined, NoFactory, false, provider.lazy, false);
      if provider.useValue != Undefined {
        metadata := metadata.(instance := provider.useValue, loaded := true);
      } else if provider.useFactory.Some? {
        metadata := metadata.(factory := UseFactory(provider.inject, provider.useFactory.value));
      } else if provider.useClass.Some? {
        metadata := metadata.(factory := UseClass(provider.useClass.value));
      }
      providers := providers[provider.token := metadata];
      log := log + [Registered(provider.token)];
    }

    method Resolve(token: Token, requestId: string, stack: Stack, depth: nat) returns (out: Outcome)
      modifies this
      ensures Step(out, View()) == ContainerState.Resolve(classes, old(View()), token, requestId, stack, depth)
      decreases depth, 5
    {
      if Falsy(token) { return Returned(Undefined); }
      if depth == 0 { return Threw(StackOverflow); }
      if token in providers {
        out := ResolveFromMetadata(token, requestId, stack, depth);
      } else if token.Class? {
        out := AutoResolve(token, requestId, stack, depth);
      } else {
        out := Returned(Undefined);
      }
    }

    method AutoResolve(token: Token, requestId: string, stack: Stack, depth: nat) returns (out: Outcome)
      requires token !in providers && token.Class? && depth > 0
      modifies this
      ensures Step(out, View()) == ContainerState.Resolve(classes, old(View()), token, requestId, stack, depth)
      decreases depth, 4
    {
      var scope := classes(token).scope;
      providers := providers[token := Metadata(scope, Undefined, AutoClass(stack), false, false, false)];
      log := log + [Registered(token)];
      assert View() == AutoRegister(classes, old(View()), token, stack);
      out := ResolveFromMetadata(token, requestId, stack, depth);
    }

    method ResolveFromMetadata(token: Token, requestId: string, stack: Stack, depth: nat) returns (out: Outcome)
      requires !Falsy(token) && token in providers && depth > 0
      modifies this
      ensures Step(out, View()) == ContainerState.Resolve(classes, old(View()), token, requestId, stack, depth)
      decreases depth, 3
    {
      if stack.Passed? && stack.id in stacks && token in stacks[stack.id] {
        return Threw(CircularDependency(token));
      }
      SwitchIsResolve(classes, View(), token, requestId, stack, depth);
      if stack.Passed? && stack.id in stacks {
        stacks := stacks[stack.id := stacks[stack.id] + {token}];
      }
      assert View() == Push(old(View()), stack, token);
      match providers[token].scope {
        case Singleton => out := ResolveSingleton(token, requestId, depth);
        case Transient =>
          if providers[token].factory.NoFactory? {
            out := Returned(Undefined);
          } else {
            out := RunFactory(token, requestId, depth - 1);
          }
        case Request =>
          if requestId == "" {
            out := Threw(RequestIdRequired(token));
          } else {
            out := ResolveRequestScoped(token, requestId, depth);
          }
      }
      // finally
      if stack.Passed? && stack.id in stacks {
        stacks := stacks[stack.id := stacks[stack.id] - {token}];
      }
    }

    method ResolveSingleton(token: Token, requestId: string, depth: nat) returns (out: Outcome)
      requires token in providers && providers[token].scope == Singleton && depth > 0
      modifies this
      ensures Step(out, View()) == Switch(classes, old(View()), token, requestId, depth)
      decreases depth, 2
    {
      var metadata := providers[token];
      if metadata.instance != Undefined { return Returned(metadata.instance); }
      if metadata.isResolving { return Threw(AlreadyResolving(token)); }
      if metadata.factory.NoFactory? { return Returned(Undefined); }
      providers := providers[token := metadata.(isResolving := true)];
      out := RunFactory(token, requestId, depth - 1);
      StoreSingleton(token, requestId, out);
    }

    // The assignments after the factory call, and its `finally`.
    method StoreSingleton(token: Token, ghost requestId: string, out: Outcome)
      requires token in providers && providers[token].scope == Singleton
      modifies this
      ensures View() == Store(old(View()), token, requestId, out)
    {
      if out.Returned? {
        if providers[token].lazy && !providers[token].loaded {
          providers := providers[token := providers[token].(instance := out.v, loaded := true)];
        } else {
          providers := providers[token := providers[token].(instance := out.v)];
        }
      }
      providers := providers[token := providers[token].(isResolving := false)];
    }

    method ResolveRequestScoped(token: Token, requestId: string, depth: nat) returns (out: Outcome)
      requires token in providers && providers[token].scope == Request && requestId != "" && depth > 0
      modifies this
      ensures Step(out, View()) == Switch(classes, old(View()), token, requestId, depth)
      decreases depth, 2
    {
      if requestId !in requestScopedProviders {
        requestScopedProviders := requestScopedProviders[requestId := map[]];
      }
      assert requestScopedProviders == old(requestScopedProviders)[requestId := Scoped(old(View()), requestId)];
      if token in requestScopedProviders[requestId] {
        return Returned(requestScopedProviders[requestId][token]);
      }
      if providers[token].factory.NoFactory? { return Returned(Undefined); }
      out := RunFactory(token, requestId, depth - 1);
      if out.Returned? {
        requestScopedProviders :=
          requestScopedProviders[requestId := requestScopedProviders[requestId][token := out.v]];
      }
    }

    // Calls `metadata.factory(requestId)`.
    method RunFactory(token: Token, requestId: string, depth: nat) returns (out: Outcome)
      requires Builds(View(), token)
      modifies this
      ensures var p := PlanOf(classes, token, old(providers)[token].factory);
              Step(out, View()) ==
              Construct(p, token, requestId, ResolveAll(classes, old(View()), p.deps, requestId, p.stack, depth))
      ensures token in providers && MetaFrame(old(providers)[token], providers[token])
      ensures requestId in old(requestScopedProviders) ==> requestId in requestScopedProviders
      decreases depth, 7
    {
      ghost var p := PlanOf(classes, token, providers[token].factory);
      ResolveAllFrame(classes, View(), p.deps, requestId, p.stack, depth);
      var made: Produced;
      match providers[token].factory {
        case UseFactory(inject, make) =>
          var deps := ResolveEach(inject, requestId, NoStack, depth);
          if deps.AnyThrew? { return Threw(deps.e); }
          made := make(deps.vs);
        case UseClass(cls) =>
          var deps := ResolveEach(CtorTokens(classes(cls)), requestId, NoStack, depth);
          if deps.AnyThrew? { return Threw(deps.e); }
          made := classes(cls).construct(deps.vs);
        case AutoClass(stack) =>
          var deps := ResolveEach(CtorTokens(classes(token)), requestId, stack, depth);
          if deps.AnyThrew? { return Threw(deps.e); }
          made := classes(token).construct(deps.vs);
      }
      if made.Failed? { return Threw(FactoryError(made.code)); }
      log := log + [Built(token, requestId, made.v)];
      out := Returned(made.v);
    }

    // `tokens.map(t => this.resolve(t, requestId, stack))`
    method ResolveEach(tokens: seq<Token>, requestId: string, stack: Stack, depth: nat) returns (outs: Outcomes)
      modifies this
      ensures Steps(outs, View()) == ResolveAll(classes, old(View()), tokens, requestId, stack, depth)
      decreases depth, 6
    {
      var values: seq<Value> := [];
      ghost var total := ResolveAll(classes, View(), tokens, requestId, stack, depth);
      assert Prepend([], total) == total;
      assert tokens[0..] == tokens;
      for i := 0 to |tokens|
        invariant total == Prepend(values, ResolveAll(classes, View(), tokens[i..], requestId, stack, depth))
      {
        ghost var here := ResolveAll(classes, View(), tokens[i..], requestId, stack, depth);
        assert tokens[i..][0] == tokens[i] && tokens[i..][1..] == tokens[i + 1..];
        var one := Resolve(tokens[i], requestId, stack, depth);
        if one.Threw? { return AnyThrew(one.e); }
        ghost var rest := ResolveAll(classes, View(), tokens[i + 1..], requestId, stack, depth);
        if rest.outs.AllReturned? {
          assert values + ([one.v] + rest.outs.vs) == values + [one.v] + rest.outs.vs;
        }
        values := values + [one.v];
      }
      assert values + [] == values;
      outs := AllReturned(values);
    }

    method ClearRequestScope(requestId: string)
      modifies this
      ensures View() == Perform(classes, old(View()), OpClearRequest(requestId))
    {
      requestScopedProviders := requestScopedProviders - {requestId};
      log := log + [Cleared(requestId)];
    }

    method Clear()
      modifies this
      ensures View() == Perform(classes, old(View()), OpClear)
    {
      providers, requestScopedProviders := map[], map[];
      log := log + [ClearedAll];
    }
  }
}
