// Routes added with `addRoute` are written to the flat table only, and `match` never reads it.
// When does `match` still find what a scan of the flat table would find?
module AddedRoutes {
  import opened JsText
  import OrderedMap
  import opened RoutePaths
  import opened Router
  import opened Options

  // Whatever matches p matches e.
  ghost predicate Covers(e: string, p: string) {
    CoversParts(Split(e, '/'), Split(p, '/'))
  }

  ghost predicate CoversParts(ep: seq<string>, pp: seq<string>) {
    && |ep| == |pp|
    && forall i :: 0 <= i < |ep| ==> IsParam(ep[i]) || (!IsParam(pp[i]) && ep[i] == pp[i])
  }

  // An entry before the place of p takes every path that p would match.
  ghost predicate Shadowed(t: Table, p: string) {
    exists i :: 0 <= i < |t| && Covers(t[i].key, p) && !KeyIn(t[..i + 1], p)
  }

  ghost predicate KeyIn(t: Table, p: string) {
    exists i :: 0 <= i < |t| && t[i].key == p
  }

  // No request path matches p: a literal segment holds a question mark.
  ghost predicate Unreachable(p: string) {
    UnreachableParts(Split(p, '/'))
  }

  ghost predicate UnreachableParts(pp: seq<string>) {
    exists i :: 0 <= i < |pp| && !IsParam(pp[i]) && !Free(pp[i], '?')
  }

  // f is t with other handlers in some places, and more entries at the end.
  ghost predicate Extends(t: Table, f: Table) {
    |t| <= |f| && forall i :: 0 <= i < |t| ==> f[i].key == t[i].key
  }

  // No request shows that f holds h for p.
  ghost predicate Harmless(t: Table, p: string, h: Option<Handler>) {
    Shadowed(t, p) || OrderedMap.Get(t, p) == h || Unreachable(p)
  }

  // --- First matches by place ---

  ghost predicate FirstAt(t: Table, q: string, i: nat) {
    i < |t| && Matches(q, t[i].key) && NoneBefore(t, q, i)
  }

  ghost predicate NoneBefore(t: Table, q: string, n: nat)
    requires n <= |t|
  {
    forall i :: 0 <= i < n ==> !Matches(q, t[i].key)
  }

  lemma {:induction false} TailNone(t: Table, q: string, n: nat)
    requires 0 < n <= |t| && NoneBefore(t, q, n)
    ensures NoneBefore(t[1..], q, n - 1)
  {
    var tail := t[1..];
    forall k | 0 <= k < n - 1 ensures !Matches(q, tail[k].key) { assert tail[k] == t[k + 1]; }
  }

  lemma {:induction false} KeyThere(t: Table, n: nat, i: nat)
    requires i < n <= |t|
    ensures KeyIn(t[..n], t[i].key)
  {
    assert t[..n][i] == t[i];
  }

  lemma {:induction false} MatchAt(t: Table, q: string, i: nat)
    requires FirstAt(t, q, i)
    ensures FirstMatch(t, q) == Found(t[i].value, t[i].key)
  {
    if i > 0 {
      assert !Matches(q, t[0].key);
      TailNone(t, q, i);
      MatchAt(t[1..], q, i - 1);
    }
  }

  lemma {:induction false} NoMatch(t: Table, q: string)
    requires NoneBefore(t, q, |t|)
    ensures FirstMatch(t, q) == NotFound
  {
    if t != [] {
      TailNone(t, q, |t|);
      NoMatch(t[1..], q);
    }
  }

  lemma {:induction false} FindFirst(t: Table, q: string, n: nat) returns (i: nat)
    requires n <= |t| && !NoneBefore(t, q, n)
    ensures FirstAt(t, q, i)
  {
    if NoneBefore(t, q, n - 1) { i := n - 1; } else { i := FindFirst(t, q, n - 1); }
  }

  lemma {:induction false} GetFirst(t: Table, i: nat)
    requires i < |t| && !KeyIn(t[..i], t[i].key)
    ensures OrderedMap.Get(t, t[i].key) == Some(t[i].value)
  {
    if i > 0 {
      assert t[..i][0].key != t[i].key;
      var head := t[1..][..i - 1];
      forall k | 0 <= k < |head| ensures head[k].key != t[i].key { assert head[k] == t[..i][k + 1]; }
      GetFirst(t[1..], i - 1);
    }
  }

  lemma {:induction false} GetMissing(t: Table, p: string)
    ensures OrderedMap.Get(t, p) == None <==> !KeyIn(t, p)
  {
    OrderedMap.GetHas(t, p);
  }

  // The first match has the first entry of its key, and no shadow.
  lemma {:induction false} FirstIsUnshadowed(t: Table, q: string, i: nat)
    requires FirstAt(t, q, i)
    ensures OrderedMap.Get(t, t[i].key) == Some(t[i].value) && !Shadowed(t, t[i].key)
  {
    var p := t[i].key;
    GetFirst(t, i);
    if Shadowed(t, p) {
      var j :| 0 <= j < |t| && Covers(t[j].key, p) && !KeyIn(t[..j + 1], p);
      if i <= j { KeyThere(t, j + 1, i); }
      CoverMatches(t[j].key, p, q);
      assert false;
    }
  }

  lemma {:induction false} UnmatchedIsUnshadowed(t: Table, q: string, p: string)
    requires NoneBefore(t, q, |t|) && Matches(q, p)
    ensures !Shadowed(t, p) && OrderedMap.Get(t, p) == None
  {
    GetMissing(t, p);
    if Shadowed(t, p) {
      var j :| 0 <= j < |t| && Covers(t[j].key, p) && !KeyIn(t[..j + 1], p);
      CoverMatches(t[j].key, p, q);
      assert false;
    }
  }

  lemma {:induction false} CoverMatches(e: string, p: string, q: string)
    requires Covers(e, p) && Matches(q, p)
    ensures Matches(q, e)
  {}

  // --- Where the added routes change nothing ---

  lemma {:induction false} SameOnUrl(t: Table, f: Table, url: string)
    requires Extends(t, f) && forall i :: 0 <= i < |f| ==> Harmless(t, f[i].key, OrderedMap.Get(f, f[i].key))
    ensures FirstMatch(f, PathOfUrl(url)) == FirstMatch(t, PathOfUrl(url))
  {
    var q := PathOfUrl(url);
    if NoneBefore(f, q, |f|) {
      assert NoneBefore(t, q, |t|) by { forall i | 0 <= i < |t| ensures !Matches(q, t[i].key) { assert f[i].key == t[i].key; } }
      NoMatch(f, q);
      NoMatch(t, q);
    } else {
      var i := FindFirst(f, q, |f|);
      MatchAt(f, q, i);
      FirstIsUnshadowed(f, q, i);
      if Unreachable(f[i].key) { UnreachableUnmatched(f[i].key, url); }
      forall k | 0 <= k < i && k < |t| ensures !Matches(q, t[k].key) { assert f[k].key == t[k].key; }
      if i < |t| {
        assert FirstAt(t, q, i);
        MatchAt(t, q, i);
        FirstIsUnshadowed(t, q, i);
      } else {
        UnmatchedIsUnshadowed(t, q, f[i].key);
        assert false;
      }
    }
  }

  lemma {:induction false} PartsFree(s: string, sep: char, c: char)
    requires Free(s, c)
    ensures AllFree(Split(s, sep), c)
  {
    if s != "" {
      assert forall x :: x in s[1..] ==> x in s;
      PartsFree(s[1..], sep, c);
      assert Free(Split(s[1..], sep)[0], c) && s[0] in s;
    }
  }

  lemma {:induction false} UrlPathFree(url: string)
    ensures Free(PathOfUrl(url), '?')
  {
    SplitFree(url, '?');
    assert Free(Split(url, '?')[0], '?');
  }

  lemma {:induction false} UnreachableUnmatched(p: string, url: string)
    requires Unreachable(p)
    ensures !Matches(PathOfUrl(url), p)
  {
    UrlPathFree(url);
    PartsFree(PathOfUrl(url), '/', '?');
  }

  // --- A request that tells the difference otherwise ---

  ghost function LongerThanAll(t: Table): (n: nat)
    ensures forall i :: 0 <= i < |t| ==> |t[i].key| < n
  {
    if t == [] then 0
    else
      var n := LongerThanAll(t[1..]);
      assert forall i :: 1 <= i < |t| ==> t[i] == t[1..][i - 1];
      if |t[0].key| < n then n else |t[0].key| + 1
  }

  ghost function Segment(n: nat): (s: string)
    ensures |s| == n && Free(s, '/') && Free(s, '?')
  {
    seq(n, _ => 'x')
  }

  // p with that segment for every parameter.
  ghost function FilledParts(pp: seq<string>, segment: string): (parts: seq<string>)
    ensures |parts| == |pp|
    ensures forall i :: 0 <= i < |pp| ==> parts[i] == if IsParam(pp[i]) then segment else pp[i]
  {
    seq(|pp|, i requires 0 <= i < |pp| => if IsParam(pp[i]) then segment else pp[i])
  }

  lemma {:induction false} PartsShort(s: string, sep: char)
    ensures forall i :: 0 <= i < |Split(s, sep)| ==> |Split(s, sep)[i]| <= |s|
  {
    if s != "" { PartsShort(s[1..], sep); }
  }

  // Only entries that cover p match the filled path.
  lemma {:induction false} MatchedCovers(e: string, p: string, segment: string, q: string)
    requires |e| < |segment| && Split(q, '/') == FilledParts(Split(p, '/'), segment)
    requires Matches(q, e)
    ensures Covers(e, p)
  {
    PartsShort(e, '/');
  }

  lemma {:induction false} Differs(t: Table, f: Table, i: nat, segment: string, q: string)
    requires Extends(t, f) && i < |f| && !Harmless(t, f[i].key, OrderedMap.Get(f, f[i].key))
    requires forall k :: 0 <= k < |f| ==> |f[k].key| < |segment|
    requires Split(q, '/') == FilledParts(Split(f[i].key, '/'), segment)
    ensures FirstMatch(f, q) != FirstMatch(t, q)
  {
    var p := f[i].key;
    assert Matches(q, p);
    var n := FindFirst(f, q, i + 1);
    MatchAt(f, q, n);
    FirstIsUnshadowed(f, q, n);
    if n < |t| {
      assert NoneBefore(t, q, n) by { forall k | 0 <= k < n ensures !Matches(q, t[k].key) { assert f[k].key == t[k].key; } }
      assert FirstAt(t, q, n);
      MatchAt(t, q, n);
      FirstIsUnshadowed(t, q, n);
      MatchedCovers(t[n].key, p, segment, q);
      if t[n].key != p { FirstCoverShadows(t, q, p, n); }
    } else {
      assert NoneBefore(t, q, |t|) by {
        forall k | 0 <= k < |t| ensures !Matches(q, t[k].key) { assert f[k].key == t[k].key; }
      }
      NoMatch(t, q);
    }
  }

  lemma {:induction false} FirstCoverShadows(t: Table, q: string, p: string, n: nat)
    requires FirstAt(t, q, n) && Covers(t[n].key, p) && t[n].key != p && Matches(q, p)
    ensures Shadowed(t, p)
  {
    var head := t[..n + 1];
    forall k | 0 <= k < |head| ensures head[k].key != p {
      assert k < n ==> !Matches(q, t[k].key);
    }
  }

  lemma {:induction false} JoinFree(parts: seq<string>, sep: char, c: char)
    requires AllFree(parts, c) && sep != c
    ensures Free(Join(parts, sep), c)
  {
    if |parts| > 1 {
      forall i | 0 <= i < |parts[1..]| ensures Free(parts[1..][i], c) { assert parts[1..][i] == parts[i + 1]; }
      JoinFree(parts[1..], sep, c);
    }
  }

  // Every path that starts with a slash and holds no question mark is asked for by some URL.
  lemma {:induction false} PathIsAsked(q: string)
    requires q != "" && q[0] == '/' && Free(q, '?')
    ensures PathOfUrl(q + "/") == q
  {
    var url := q + "/";
    SplitJoin([url], '?');
    assert Join([url], '?') == url;
    assert url[..|url| - 1] == q;
  }

  lemma {:induction false} Witness(t: Table, p: string) returns (segment: string, url: string)
    requires p != "" && p[0] == '/' && !Unreachable(p)
    ensures forall i :: 0 <= i < |t| ==> |t[i].key| < |segment|
    ensures Split(PathOfUrl(url), '/') == FilledParts(Split(p, '/'), segment)
  {
    segment := Segment(LongerThanAll(t));
    var pp := Split(p, '/');
    var parts := FilledParts(pp, segment);
    SplitFree(p, '/');
    assert AllFree(parts, '/') && AllFree(parts, '?');
    var q := Join(parts, '/');
    SplitJoin(parts, '/');
    JoinFree(parts, '/', '?');
    assert pp == [[]] + Split(p[1..], '/');
    assert q[0] == '/';
    PathIsAsked(q);
    url := q + "/";
  }

  // --- Exactly when ---

  // `match` finds what a scan of the flat table for that method finds.
  ghost predicate AgreeOn(routes: Table, byMethod: map<string, Table>, m: string, url: string) {
    FirstMatch(TableOf(byMethod, m), PathOfUrl(url)) == Scan(routes, m, PathOfUrl(url))
  }

  // Calls of `addRoute`.
  datatype Added = Added(httpMethod: string, path: string, handler: Handler)

  ghost function AddAll(routes: Table, adds: seq<Added>): Table {
    if adds == [] then routes
    else
      var a := adds[|adds| - 1];
      OrderedMap.Set(AddAll(routes, adds[..|adds| - 1]), RouteKey(Upper(a.httpMethod), NormalizePath(a.path)), a.handler)
  }

  lemma {:induction false} SetExtends(t: Table, f: Table, p: string, h: Handler)
    requires Extends(t, f)
    ensures var f' := OrderedMap.Set(f, p, h);
            && Extends(t, f') && |f| <= |f'|
            && forall i :: 0 <= i < |f'| ==> f'[i].key == p || (i < |f| && f'[i].key == f[i].key)
  {
    if f != [] && f[0].key != p {
      var t' := if t == [] then [] else t[1..];
      assert Extends(t', f[1..]);
      SetExtends(t', f[1..], p, h);
      var f' := OrderedMap.Set(f, p, h);
      assert f' == [f[0]] + OrderedMap.Set(f[1..], p, h);
    }
  }

  // The flat table seen from one method, after the calls: the method's table extended, and every
  // path in it is one of that table or was added.
  lemma {:induction false} AddedExtends(routes: Table, byMethod: map<string, Table>, adds: seq<Added>, m: string)
    requires Agree(routes, byMethod) && Free(m, ' ')
    requires forall i :: 0 <= i < |adds| ==> Free(adds[i].httpMethod, ' ')
    ensures var t, f := TableOf(byMethod, m), Restrict(AddAll(routes, adds), m);
            && Extends(t, f)
            && forall i :: 0 <= i < |f| ==>
                 (i < |t| && OrderedMap.Get(f, f[i].key) == OrderedMap.Get(t, f[i].key)) || AddedTo(adds, m, f[i].key)
  {
    var t := TableOf(byMethod, m);
    if adds == [] {
      assert t == Restrict(routes, m);
    } else {
      var before, a := adds[..|adds| - 1], adds[|adds| - 1];
      AddedExtends(routes, byMethod, before, m);
      var f, p := Restrict(AddAll(routes, before), m), NormalizePath(a.path);
      AddedStep(routes, adds, m);
      if m == Upper(a.httpMethod) { SetExtends(t, f, p, a.handler); }
      var f' := Restrict(AddAll(routes, adds), m);
      forall i | 0 <= i < |f'| ensures
        (i < |t| && OrderedMap.Get(f', f'[i].key) == OrderedMap.Get(t, f'[i].key)) || AddedTo(adds, m, f'[i].key)
      {
        if m == Upper(a.httpMethod) && f'[i].key == p {
          assert adds[|adds| - 1] == a;
        } else {
          if m == Upper(a.httpMethod) { OrderedMap.GetSet(f, p, a.handler, f[i].key); }
          if AddedTo(before, m, f[i].key) { MoreAdded(adds, m, f[i].key); }
        }
      }
    }
  }

  ghost predicate AddedTo(adds: seq<Added>, m: string, p: string) {
    exists i :: 0 <= i < |adds| && IsCallFor(adds[i], m, p)
  }

  ghost predicate IsCallFor(a: Added, m: string, p: string) {
    Upper(a.httpMethod) == m && NormalizePath(a.path) == p
  }

  lemma {:induction false} MoreAdded(adds: seq<Added>, m: string, p: string)
    requires adds != [] && AddedTo(adds[..|adds| - 1], m, p)
    ensures AddedTo(adds, m, p)
  {
    var i :| 0 <= i < |adds| - 1 && IsCallFor(adds[..|adds| - 1][i], m, p);
    assert IsCallFor(adds[i], m, p);
  }

  // What one more call does to the flat table, seen from one method.
  lemma AddedStep(routes: Table, adds: seq<Added>, m: string)
    requires adds != [] && Free(m, ' ') && Free(adds[|adds| - 1].httpMethod, ' ')
    ensures var before, a := adds[..|adds| - 1], adds[|adds| - 1];
            var f := Restrict(AddAll(routes, before), m);
            Restrict(AddAll(routes, adds), m) ==
            if Upper(a.httpMethod) == m then OrderedMap.Set(f, NormalizePath(a.path), a.handler) else f
  {
    var before, a := adds[..|adds| - 1], adds[|adds| - 1];
    UpperFree(a.httpMethod);
    RestrictSet(AddAll(routes, before), Upper(a.httpMethod), NormalizePath(a.path), a.handler, m);
  }

  lemma {:induction false} AddedIsThere(routes: Table, adds: seq<Added>, m: string, p: string)
    requires AddedTo(adds, m, p) && Free(m, ' ')
    requires forall i :: 0 <= i < |adds| ==> Free(adds[i].httpMethod, ' ')
    ensures OrderedMap.Get(Restrict(AddAll(routes, adds), m), p).Some?
  {
    var before, a := adds[..|adds| - 1], adds[|adds| - 1];
    AddedStep(routes, adds, m);
    if !IsCallFor(a, m, p) {
      AddedBefore(adds, m, p);
      AddedIsThere(routes, before, m, p);
    }
    OrderedMap.GetSet(Restrict(AddAll(routes, before), m), NormalizePath(a.path), a.handler, p);
  }

  lemma AddedBefore(adds: seq<Added>, m: string, p: string)
    requires AddedTo(adds, m, p) && !IsCallFor(adds[|adds| - 1], m, p)
    ensures AddedTo(adds[..|adds| - 1], m, p)
  {
    var i :| 0 <= i < |adds| && IsCallFor(adds[i], m, p);
    assert adds[..|adds| - 1][i] == adds[i];
  }

  // For the path of every call: an earlier route shadows it, the flat table holds for it what the
  // method's table holds, or no request can reach it.
  ghost predicate AllHarmless(routes: Table, byMethod: map<string, Table>, adds: seq<Added>, m: string) {
    forall p :: AddedTo(adds, m, p) ==>
      Harmless(TableOf(byMethod, m), p, OrderedMap.Get(Restrict(AddAll(routes, adds), m), p))
  }

  // Main result.  After any calls of `addRoute` on tables that agree, `match` finds what a scan of
  // the flat table finds, for every URL of a method, exactly when every call for that method was
  // harmless.
  lemma {:induction false} AddedRoutesAreUnseen(routes: Table, byMethod: map<string, Table>, adds: seq<Added>, m: string)
    requires Agree(routes, byMethod) && Free(m, ' ')
    requires forall i :: 0 <= i < |adds| ==> Free(adds[i].httpMethod, ' ')
    ensures (forall url: string :: AgreeOn(AddAll(routes, adds), byMethod, m, url)) <==>
            AllHarmless(routes, byMethod, adds, m)
  {
    var t, f := TableOf(byMethod, m), Restrict(AddAll(routes, adds), m);
    AddedExtends(routes, byMethod, adds, m);
    forall url: string
      ensures AgreeOn(AddAll(routes, adds), byMethod, m, url) <==>
              FirstMatch(f, PathOfUrl(url)) == FirstMatch(t, PathOfUrl(url))
    {
      ScanIsFirstMatch(AddAll(routes, adds), m, PathOfUrl(url));
    }
    if AllHarmless(routes, byMethod, adds, m) {
      forall i | 0 <= i < |f| ensures Harmless(t, f[i].key, OrderedMap.Get(f, f[i].key)) {}
      forall url: string ensures AgreeOn(AddAll(routes, adds), byMethod, m, url) { SameOnUrl(t, f, url); }
    } else {
      var p :| AddedTo(adds, m, p) && !Harmless(t, p, OrderedMap.Get(f, p));
      var url := HarmShows(routes, adds, t, m, p);
      assert !AgreeOn(AddAll(routes, adds), byMethod, m, url);
    }
  }

  lemma {:induction false} HarmShows(routes: Table, adds: seq<Added>, t: Table, m: string, p: string) returns (url: string)
    requires var f := Restrict(AddAll(routes, adds), m);
             Extends(t, f) && AddedTo(adds, m, p) && !Harmless(t, p, OrderedMap.Get(f, p))
    requires Free(m, ' ') && forall i :: 0 <= i < |adds| ==> Free(adds[i].httpMethod, ' ')
    ensures FirstMatch(Restrict(AddAll(routes, adds), m), PathOfUrl(url)) != FirstMatch(t, PathOfUrl(url))
  {
    var f := Restrict(AddAll(routes, adds), m);
    AddedIsThere(routes, adds, m, p);
    GetMissing(f, p);
    var i :| 0 <= i < |f| && f[i].key == p;
    var segment, u := Witness(f, p);
    url := u;
    Differs(t, f, i, segment, PathOfUrl(url));
  }

  // The tables themselves stay equal in fewer cases.
  lemma {:induction false} TablesStayEqual(routes: Table, byMethod: map<string, Table>, m: string, path: string, h: Handler)
    requires Agree(routes, byMethod) && Free(m, ' ')
    ensures Agree(OrderedMap.Set(routes, RouteKey(m, path), h), byMethod) <==>
            OrderedMap.Get(TableOf(byMethod, m), path) == Some(h)
  {
    var routes', t := OrderedMap.Set(routes, RouteKey(m, path), h), TableOf(byMethod, m);
    forall n: string | Free(n, ' ')
      ensures Restrict(routes', n) == if n == m then OrderedMap.Set(t, path, h) else TableOf(byMethod, n)
    {
      RestrictSet(routes, m, path, h, n);
      assert TableOf(byMethod, n) == Restrict(routes, n);
    }
    OrderedMap.GetSet(t, path, h, path);
    if OrderedMap.Get(t, path) == Some(h) { SetSame(t, path, h); }
    if Agree(routes', byMethod) { assert t == Restrict(routes', m); }
  }

  lemma {:induction false} SetSame(t: Table, p: string, h: Handler)
    requires OrderedMap.Get(t, p) == Some(h)
    ensures OrderedMap.Set(t, p, h) == t
  {
    if t[0].key != p { SetSame(t[1..], p, h); }
  }

  // A single added route: its own request is not found.
  lemma {:induction false} AddedRouteIsMissed(h: Handler)
    ensures !AgreeOn(OrderedMap.Set([], RouteKey("GET", "/a"), h), map[], "GET", "/a")
  {
    var none: Table := [];
    SplitJoin(["/a"], '?');
    assert Join(["/a"], '?') == "/a" && PathOfUrl("/a") == "/a";
    assert Free("GET", ' ');
    RestrictSet(none, "GET", "/a", h, "GET");
    ScanIsFirstMatch(OrderedMap.Set(none, RouteKey("GET", "/a"), h), "GET", "/a");
    assert TableOf(map[], "GET") == none && Restrict(none, "GET") == none;
    assert OrderedMap.Set(none, "/a", h) == [OrderedMap.Entry("/a", h)];
    assert Matches("/a", "/a");
    MatchAt([OrderedMap.Entry("/a", h)], "/a", 0);
  }

  // An added route that is shadowed: the tables differ, and no request shows it.
  lemma {:induction false} ShadowedRouteIsHarmless(g: Handler, h: Handler)
    ensures var t: Table := [OrderedMap.Entry("/:x", g)];
            Harmless(t, "/a", Some(h)) && OrderedMap.Set(t, "/a", h) != t
  {
    SplitJoin(["", "a"], '/');
    assert Join(["", "a"], '/') == "/a";
    SplitJoin(["", ":x"], '/');
    assert Join(["", ":x"], '/') == "/:x";
    var t: Table := [OrderedMap.Entry("/:x", g)];
    assert CoversParts(["", ":x"], ["", "a"]);
    assert Covers(t[0].key, "/a") && t[..1] == t && !KeyIn(t, "/a");
  }
}
