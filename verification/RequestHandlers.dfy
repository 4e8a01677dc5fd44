// Route handlers running side by side over one container.  Each takes a request id, resolves with
// it (and without it, for guards and pipes), and clears the request in its `finally`.
module RequestHandlers {
  import opened ContainerState
  import opened ContainerFrame

  datatype Event =
    | Begin(r: string)
    | Resolves(r: string, t: Token, depth: nat)
    | ResolvesBare(t: Token, depth: nat)
    | End(r: string)

  datatype Server = Server(container: State, active: set<string>)

  // Generated ids are non-empty and not in use; a handler resolves and ends while it is active.
  ghost predicate Enabled(sv: Server, ev: Event) {
    match ev
    case Begin(r) => r != "" && r !in sv.active
    case Resolves(r, _, _) => r in sv.active
    case ResolvesBare(_, _) => true
    case End(r) => r in sv.active
  }

  ghost function Next(classes: Classes, sv: Server, ev: Event): Server {
    match ev
    case Begin(r) => sv.(active := sv.active + {r})
    case Resolves(r, t, depth) => sv.(container := Resolve(classes, sv.container, t, r, NoStack, depth).st)
    case ResolvesBare(t, depth) => sv.(container := Resolve(classes, sv.container, t, "", NoStack, depth).st)
    case End(r) => Server(Perform(classes, sv.container, OpClearRequest(r)), sv.active - {r})
  }

  ghost function After(classes: Classes, sv: Server, evs: seq<Event>): Server
    decreases |evs|
  {
    if evs == [] then sv else Next(classes, After(classes, sv, evs[..|evs| - 1]), evs[|evs| - 1])
  }

  ghost predicate Possible(classes: Classes, sv: Server, evs: seq<Event>) {
    forall i :: 0 <= i < |evs| ==> Enabled(After(classes, sv, evs[..i]), evs[i])
  }

  ghost predicate Touches(ev: Event, r: string) {
    (ev.Resolves? && ev.r == r) || (ev.End? && ev.r == r)
  }

  lemma BareReturn(classes: Classes, p: Plan, st: State, a: Steps, t: Token, k: Stack)
    requires t in st.providers && st.providers[t].scope != Request && Frame(classes, st, a.st, "")
    ensures var f := Construct(p, t, "", a); Leave(f.st, t, "", k, f.out).requests == a.st.requests
  {
    var f := Construct(p, t, "", a);
    assert MetaFrame(st.providers[t], a.st.providers[t]);
    LeaveOutsideRequests(f.st, t, "", k, f.out);
  }

  lemma BareEntry(classes: Classes, s: State, t: Token, k: Stack)
    ensures var e := Enter(classes, s, t, "", k);
            e.st.requests == s.requests && (e.Build? ==> t in e.st.providers && e.st.providers[t].scope != Request)
  {}

  // Without a request id no request map is even created.
  lemma {:induction false} BareKeepsRequests(classes: Classes, s: State, t: Token, k: Stack, depth: nat)
    requires "" !in s.requests
    ensures Resolve(classes, s, t, "", k, depth).st.requests == s.requests
    decreases depth, 1
  {
    if Falsy(t) || depth == 0 { return; }
    BareEntry(classes, s, t, k);
    if Enter(classes, s, t, "", k).Build? { BareBuild(classes, s, t, k, depth, depth - 1); }
  }

  lemma {:induction false} BareBuild(classes: Classes, s: State, t: Token, k: Stack, depth: nat, room: nat)
    requires "" !in s.requests
    requires !Falsy(t) && depth == room + 1 && Enter(classes, s, t, "", k).Build?
    ensures Resolve(classes, s, t, "", k, depth).st.requests == s.requests
    decreases depth, 0
  {
    var e := Enter(classes, s, t, "", k);
    BareEntry(classes, s, t, k);
    BareKeepsRequestsAll(classes, e.st, e.p.deps, e.p.stack, room);
    ResolveAllFrame(classes, e.st, e.p.deps, "", e.p.stack, room);
    BareReturn(classes, e.p, e.st, ResolveAll(classes, e.st, e.p.deps, "", e.p.stack, room), t, k);
    ResolveBuilds(classes, s, t, "", k, depth, room);
  }

  lemma LeaveOutsideRequests(s: State, t: Token, r: string, k: Stack, out: Outcome)
    requires t in s.providers ==> s.providers[t].scope != Request
    ensures Leave(s, t, r, k, out).requests == s.requests
  {}

  lemma {:induction false} BareKeepsRequestsAll(classes: Classes, s: State, ts: seq<Token>, k: Stack, depth: nat)
    requires "" !in s.requests
    ensures ResolveAll(classes, s, ts, "", k, depth).st.requests == s.requests
    decreases depth, 1 + |ts|
  {
    if ts != [] {
      BareKeepsRequests(classes, s, ts[0], k, depth);
      var first := Resolve(classes, s, ts[0], "", k, depth);
      if first.out.Returned? { BareKeepsRequestsAll(classes, first.st, ts[1..], k, depth); }
    }
  }

  // Main result: in every interleaving only active requests have a map, so a request's map is
  // gone as soon as its handler ends and until another handler begins with that id.
  lemma {:induction false} OnlyActiveRequestsHaveInstances(classes: Classes, sv: Server, evs: seq<Event>)
    requires sv.container.requests.Keys <= sv.active && "" !in sv.active
    requires Possible(classes, sv, evs)
    ensures After(classes, sv, evs).container.requests.Keys <= After(classes, sv, evs).active
    ensures "" !in After(classes, sv, evs).active
    ensures evs != [] && evs[|evs| - 1].End? ==>
              evs[|evs| - 1].r !in After(classes, sv, evs).container.requests
    decreases |evs|
  {
    if evs != [] {
      var before, ev := evs[..|evs| - 1], evs[|evs| - 1];
      forall i | 0 <= i < |before| ensures Enabled(After(classes, sv, before[..i]), before[i]) {
        assert before[..i] == evs[..i];
      }
      OnlyActiveRequestsHaveInstances(classes, sv, before);
      var mid := After(classes, sv, before);
      assert Enabled(mid, ev);
      match ev
      case Begin(_) =>
      case Resolves(r, t, depth) => ResolveFrame(classes, mid.container, t, r, NoStack, depth);
      case ResolvesBare(t, depth) => BareKeepsRequests(classes, mid.container, t, NoStack, depth);
      case End(_) =>
    }
  }

  // Isolation: however other handlers interleave, between two steps of r's own handler its
  // instances do not change.
  lemma {:induction false} RequestsAreIsolated(classes: Classes, sv: Server, evs: seq<Event>, r: string)
    requires r != "" && forall i :: 0 <= i < |evs| ==> !Touches(evs[i], r)
    ensures Scoped(After(classes, sv, evs).container, r) == Scoped(sv.container, r)
    decreases |evs|
  {
    if evs != [] {
      var before, ev := evs[..|evs| - 1], evs[|evs| - 1];
      RequestsAreIsolated(classes, sv, before, r);
      var mid := After(classes, sv, before).container;
      match ev
      case Begin(_) =>
      case Resolves(q, t, depth) => ResolveFrame(classes, mid, t, q, NoStack, depth);
      case ResolvesBare(t, depth) => ResolveFrame(classes, mid, t, "", NoStack, depth);
      case End(_) =>
    }
  }
}
