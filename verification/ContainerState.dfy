// The state of the dependency-injection container and what one `resolve` does to it,
// as functions on values.  The class in Container.dfy is proved against `Resolve`.
module ContainerState {

  datatype Scope = Singleton | Transient | Request

  // What may be used as an injection token.  `Absent` is `undefined`.
  datatype Token = Absent | Text(s: string) | Symbol(id: nat) | Function(id: nat) | Class(id: nat)

  predicate Falsy(t: Token) {
    t.Absent? || t == Text("")
  }

  datatype Value = Undefined | Object(kind: string, parts: seq<Value>)

  // A factory or a constructor either produces a value or throws.
  datatype Produced = Made(v: Value) | Failed(code: nat)

  datatype Error =
    | CircularDependency(t: Token)
    | AlreadyResolving(t: Token)
    | RequestIdRequired(t: Token)
    | FactoryError(code: nat)
    | StackOverflow

  datatype Outcome = Returned(v: Value) | Threw(e: Error)
  datatype Outcomes = AllReturned(vs: seq<Value>) | AnyThrew(e: Error)

  // Reflect metadata of a class, and its constructor.
  datatype ClassInfo = ClassInfo(scope: Scope, params: seq<Token>, inject: seq<Token>, construct: seq<Value> -> Produced)
  type Classes = Token -> ClassInfo

  // The resolution stack a caller passes to `resolve`: a handle to a set the caller owns.
  datatype Stack = NoStack | Passed(id: nat)

  // `AutoClass` is the closure made by `autoResolve`: it keeps the stack it was made with.
  datatype Recipe =
    | NoFactory
    | UseFactory(inject: seq<Token>, make: seq<Value> -> Produced)
    | UseClass(cls: Token)
    | AutoClass(stack: Stack)

  datatype Metadata = Metadata(
    scope: Scope, instance: Value, factory: Recipe, isResolving: bool, lazy: bool, loaded: bool)

  datatype Event =
    | Registered(t: Token)
    | Built(t: Token, r: string, v: Value)
    | Cleared(r: string)
    | ClearedAll

  // `log` is not in the program: it records registrations, completed factory runs and clears.
  datatype State = State(
    providers: map<Token, Metadata>,
    requests: map<string, map<Token, Value>>,
    stacks: map<nat, set<Token>>,
    log: seq<Event>)

  const EMPTY := State(map[], map[], map[], [])

  // --- Pieces of a resolution ---

  // The tokens a constructor call resolves: an injection token overrides the parameter type.
  function CtorTokens(c: ClassInfo): (ts: seq<Token>) {
    seq(|c.params|, i requires 0 <= i < |c.params| =>
      if i < |c.inject| && !Falsy(c.inject[i]) then c.inject[i] else c.params[i])
  }

  datatype Plan = Plan(deps: seq<Token>, stack: Stack, make: seq<Value> -> Produced)

  function PlanOf(classes: Classes, t: Token, f: Recipe): Plan
    requires !f.NoFactory?
  {
    match f
    case UseFactory(inject, make) => Plan(inject, NoStack, make)
    case UseClass(c) => Plan(CtorTokens(classes(c)), NoStack, classes(c).construct)
    case AutoClass(k) => Plan(CtorTokens(classes(t)), k, classes(t).construct)
  }

  function AutoMetadata(classes: Classes, t: Token, k: Stack): Metadata {
    Metadata(classes(t).scope, Undefined, AutoClass(k), false, false, false)
  }

  function SetMeta(s: State, t: Token, m: Metadata): State {
    s.(providers := s.providers[t := m])
  }

  function Register(s: State, t: Token, m: Metadata): State {
    s.(providers := s.providers[t := m], log := s.log + [Registered(t)])
  }

  predicate OnStack(s: State, k: Stack, t: Token) {
    k.Passed? && k.id in s.stacks && t in s.stacks[k.id]
  }

  function Push(s: State, k: Stack, t: Token): State {
    if k.Passed? && k.id in s.stacks then s.(stacks := s.stacks[k.id := s.stacks[k.id] + {t}]) else s
  }

  function Pop(s: State, k: Stack, t: Token): State {
    if k.Passed? && k.id in s.stacks then s.(stacks := s.stacks[k.id := s.stacks[k.id] - {t}]) else s
  }

  function Scoped(s: State, r: string): map<Token, Value> {
    if r in s.requests then s.requests[r] else map[]
  }

  // Either the resolution is decided without running a factory, or a factory must run.
  datatype Entry = Done(out: Outcome, st: State) | Build(p: Plan, st: State)

  function AutoRegister(classes: Classes, s: State, t: Token, k: Stack): State {
    if t !in s.providers && t.Class? then Register(s, t, AutoMetadata(classes, t, k)) else s
  }

  function Enter(classes: Classes, s: State, t: Token, r: string, k: Stack): (e: Entry) {
    var s0 := AutoRegister(classes, s, t, k);
    if t !in s0.providers then Done(Returned(Undefined), s0)
    else if OnStack(s0, k, t) then Done(Threw(CircularDependency(t)), s0)
    else EnterScope(classes, s0, t, r, k)
  }

  function EnterScope(classes: Classes, s: State, t: Token, r: string, k: Stack): (e: Entry)
    requires t in s.providers
  {
    var m := s.providers[t];
    match m.scope
    case Singleton =>
      if m.instance != Undefined then Done(Returned(m.instance), s)
      else if m.isResolving then Done(Threw(AlreadyResolving(t)), s)
      else if m.factory.NoFactory? then Done(Returned(Undefined), s)
      else Build(PlanOf(classes, t, m.factory), Push(SetMeta(s, t, m.(isResolving := true)), k, t))
    case Transient =>
      if m.factory.NoFactory? then Done(Returned(Undefined), s)
      else Build(PlanOf(classes, t, m.factory), Push(s, k, t))
    case Request =>
      if r == "" then Done(Threw(RequestIdRequired(t)), s)
      else
        var s1 := s.(requests := s.requests[r := Scoped(s, r)]);
        if t in s1.requests[r] then Done(Returned(s1.requests[r][t]), s1)
        else if m.factory.NoFactory? then Done(Returned(Undefined), s1)
        else Build(PlanOf(classes, t, m.factory), Push(s1, k, t))
  }

  // What happens once the factory has returned or thrown, the `finally` blocks included.
  function Leave(s: State, t: Token, r: string, k: Stack, out: Outcome): State {
    Pop(if t in s.providers then Store(s, t, r, out) else s, k, t)
  }

  function Store(s: State, t: Token, r: string, out: Outcome): State
    requires t in s.providers
  {
    var m := s.providers[t];
    match m.scope
    case Singleton =>
      (match out
       case Returned(v) => SetMeta(s, t, m.(instance := v, loaded := m.lazy || m.loaded, isResolving := false))
       case Threw(_) => SetMeta(s, t, m.(isResolving := false)))
    case Transient => s
    case Request =>
      (match out
       case Returned(v) => s.(requests := s.requests[r := Scoped(s, r)[t := v]])
       case Threw(_) => s)
  }

  // --- Resolution ---

  datatype Step = Step(out: Outcome, st: State)
  datatype Steps = Steps(outs: Outcomes, st: State)

  function Construct(p: Plan, t: Token, r: string, a: Steps): Step {
    match a.outs
    case AnyThrew(e) => Step(Threw(e), a.st)
    case AllReturned(vs) =>
      match p.make(vs)
      case Failed(code) => Step(Threw(FactoryError(code)), a.st)
      case Made(v) => Step(Returned(v), a.st.(log := a.st.log + [Built(t, r, v)]))
  }

  predicate Builds(s: State, t: Token) {
    t in s.providers && !s.providers[t].factory.NoFactory?
  }

  // `depth` is the call stack that is left; JavaScript throws when it is used up.
  function Resolve(classes: Classes, s: State, t: Token, r: string, k: Stack, depth: nat): (res: Step)
    decreases depth, 0
  {
    if Falsy(t) then Step(Returned(Undefined), s)
    else if depth == 0 then Step(Threw(StackOverflow), s)
    else
      match Enter(classes, s, t, r, k)
      case Done(out, st) => Step(out, st)
      case Build(p, st) =>
        var a := ResolveAll(classes, st, p.deps, r, p.stack, depth - 1);
        var f := Construct(p, t, r, a);
        Step(f.out, Leave(f.st, t, r, k, f.out))
  }

  function ResolveAll(classes: Classes, s: State, ts: seq<Token>, r: string, k: Stack, depth: nat): (res: Steps)
    ensures res.outs.AllReturned? ==> |res.outs.vs| == |ts|
    decreases depth, 1 + |ts|
  {
    if ts == [] then Steps(AllReturned([]), s)
    else
      var first := Resolve(classes, s, ts[0], r, k, depth);
      match first.out
      case Threw(e) => Steps(AnyThrew(e), first.st)
      case Returned(v) =>
        var rest := ResolveAll(classes, first.st, ts[1..], r, k, depth);
        match rest.outs
        case AnyThrew(e) => rest
        case AllReturned(vs) => Steps(AllReturned([v] + vs), rest.st)
  }

  // --- The dependency graph as it stands in a state ---

  function Deps(classes: Classes, s: State, t: Token): seq<Token> {
    if Falsy(t) then []
    else if t in s.providers then
      (if s.providers[t].factory.NoFactory? then [] else PlanOf(classes, t, s.providers[t].factory).deps)
    else if t.Class? then CtorTokens(classes(t))
    else []
  }

  function ScopeOf(classes: Classes, s: State, t: Token): Scope {
    if t in s.providers then s.providers[t].scope else classes(t).scope
  }

  // --- Whole histories ---

  datatype Op =
    | OpRegister(t: Token, m: Metadata)
    | OpResolve(t: Token, r: string, k: Stack, depth: nat)
    | OpStacks(stacks: map<nat, set<Token>>)
    | OpClearRequest(r: string)
    | OpClear

  // Metadata as `register` and `registerProvider` make it.
  predicate Fresh(m: Metadata) {
    && !m.isResolving
    && !m.factory.AutoClass?
    && (m.instance == Undefined || m.factory.NoFactory?)
  }

  function Perform(classes: Classes, s: State, op: Op): State {
    match op
    case OpRegister(t, m) => Register(s, t, m)
    case OpResolve(t, r, k, depth) => Resolve(classes, s, t, r, k, depth).st
    case OpStacks(stacks) => s.(stacks := stacks)
    case OpClearRequest(r) => s.(requests := s.requests - {r}, log := s.log + [Cleared(r)])
    case OpClear => s.(providers := map[], requests := map[], log := s.log + [ClearedAll])
  }

  function Run(classes: Classes, s: State, ops: seq<Op>): State
    decreases |ops|
  {
    if ops == [] then s else Perform(classes, Run(classes, s, ops[..|ops| - 1]), ops[|ops| - 1])
  }

  ghost predicate WellFormedOps(ops: seq<Op>) {
    forall i :: 0 <= i < |ops| && ops[i].OpRegister? ==> Fresh(ops[i].m)
  }
}
