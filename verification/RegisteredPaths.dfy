// Under which path a controller's route is registered, and which requests reach it.
module RegisteredPaths {
  import opened JsText
  import opened RoutePaths
  import opened Router
  import OrderedMap
  import opened Options

  ghost predicate AllSpace(s: string) {
    forall i :: 0 <= i < |s| ==> IsSpace(s[i])
  }

  ghost predicate AllSlash(s: string) {
    forall i :: 0 <= i < |s| ==> s[i] == '/'
  }

  ghost predicate NoSlashEnds(s: string) {
    s != "" ==> s[0] != '/' && s[|s| - 1] != '/'
  }

  ghost predicate NoSpaceEnds(s: string) {
    s != "" ==> !IsSpace(s[0]) && !IsSpace(s[|s| - 1])
  }

  // A declared path is `core` with slashes around it, and white space around those.
  ghost predicate HasCore(declared: string, core: string) {
    exists w1, s1, s2, w2 :: IsWrapped(declared, w1, s1, core, s2, w2)
  }

  ghost predicate IsWrapped(declared: string, w1: string, s1: string, core: string, s2: string, w2: string) {
    && declared == w1 + (s1 + core + s2) + w2
    && AllSpace(w1) && AllSpace(w2) && AllSlash(s1) && AllSlash(s2)
    && NoSlashEnds(core) && NoSpaceEnds(s1 + core + s2)
  }

  lemma {:induction false} TrimLeftOf(w: string, t: string)
    requires AllSpace(w) && (t != "" ==> !IsSpace(t[0]))
    ensures TrimLeft(w + t) == t
  {
    if w == "" {
      assert w + t == t;
    } else {
      assert (w + t)[1..] == w[1..] + t;
      TrimLeftOf(w[1..], t);
    }
  }

  lemma {:induction false} TrimRightOf(t: string, w: string)
    requires AllSpace(w) && (t != "" ==> !IsSpace(t[|t| - 1]))
    ensures TrimRight(t + w) == t
    decreases |w|
  {
    if w == "" {
      assert t + w == t;
    } else {
      assert (t + w)[..|t + w| - 1] == t + w[..|w| - 1];
      TrimRightOf(t, w[..|w| - 1]);
    }
  }

  lemma {:induction false} StripLeftOf(w: string, t: string)
    requires AllSlash(w) && (t != "" ==> t[0] != '/')
    ensures StripLeft(w + t) == t
  {
    if w == "" {
      assert w + t == t;
    } else {
      assert (w + t)[1..] == w[1..] + t;
      StripLeftOf(w[1..], t);
    }
  }

  lemma {:induction false} StripRightOf(t: string, w: string)
    requires AllSlash(w) && (t != "" ==> t[|t| - 1] != '/')
    ensures StripRight(t + w) == t
    decreases |w|
  {
    if w == "" {
      assert t + w == t;
    } else {
      assert (t + w)[..|t + w| - 1] == t + w[..|w| - 1];
      StripRightOf(t, w[..|w| - 1]);
    }
  }

  lemma CleanIsCore(declared: string, core: string)
    requires HasCore(declared, core)
    ensures Clean(declared) == core
  {
    var w1, s1, s2, w2 :| IsWrapped(declared, w1, s1, core, s2, w2);
    var m := s1 + core + s2;
    TrimSpaces(w1, m, w2);
    assert declared == w1 + m + w2;
    StripSlashes(s1, core, s2);
  }

  lemma TrimSpaces(w1: string, m: string, w2: string)
    requires AllSpace(w1) && AllSpace(w2) && NoSpaceEnds(m)
    ensures TrimRight(TrimLeft(w1 + m + w2)) == m
  {
    assert w1 + m + w2 == w1 + (m + w2);
    if m == "" {
      assert m + w2 == w2 && w1 + w2 == (w1 + w2) + "";
      TrimLeftOf(w1 + w2, "");
    } else {
      TrimLeftOf(w1, m + w2);
      TrimRightOf(m, w2);
    }
  }

  lemma StripSlashes(s1: string, core: string, s2: string)
    requires AllSlash(s1) && AllSlash(s2) && NoSlashEnds(core)
    ensures StripRight(StripLeft(s1 + core + s2)) == core
  {
    assert s1 + core + s2 == s1 + (core + s2);
    if core == "" {
      assert core + s2 == s2 && s1 + s2 == (s1 + s2) + "";
      StripLeftOf(s1 + s2, "");
    } else {
      StripLeftOf(s1, core + s2);
      StripRightOf(core, s2);
    }
  }

  // Every declared path has a core.
  lemma {:induction false} EveryPathHasCore(declared: string) returns (core: string)
    ensures HasCore(declared, core)
  {
    var w1, t := SpaceLeft(declared);
    var m, w2 := SpaceRight(t);
    assert m != "" ==> m[0] == t[0];
    var s1, u := SlashLeft(m);
    var s2;
    core, s2 := SlashRight(u);
    assert core != "" ==> core[0] == u[0];
    assert s1 + core + s2 == m;
    assert IsWrapped(declared, w1, s1, core, s2, w2);
  }

  lemma {:induction false} SpaceLeft(s: string) returns (w: string, t: string)
    ensures s == w + t && AllSpace(w) && (t != "" ==> !IsSpace(t[0]))
  {
    if s != "" && IsSpace(s[0]) {
      w, t := SpaceLeft(s[1..]);
      w := [s[0]] + w;
    } else {
      w, t := "", s;
    }
  }

  lemma {:induction false} SpaceRight(s: string) returns (t: string, w: string)
    ensures s == t + w && AllSpace(w) && (t != "" ==> !IsSpace(t[|t| - 1]))
  {
    if s != "" && IsSpace(s[|s| - 1]) {
      t, w := SpaceRight(s[..|s| - 1]);
      w := w + [s[|s| - 1]];
    } else {
      t, w := s, "";
    }
  }

  lemma {:induction false} SlashLeft(s: string) returns (w: string, t: string)
    ensures s == w + t && AllSlash(w) && (t != "" ==> t[0] != '/')
  {
    if s != "" && s[0] == '/' {
      w, t := SlashLeft(s[1..]);
      w := [s[0]] + w;
    } else {
      w, t := "", s;
    }
  }

  lemma {:induction false} SlashRight(s: string) returns (t: string, w: string)
    ensures s == t + w && AllSlash(w) && (t != "" ==> t[|t| - 1] != '/')
  {
    if s != "" && s[|s| - 1] == '/' {
      t, w := SlashRight(s[..|s| - 1]);
      w := w + [s[|s| - 1]];
    } else {
      t, w := s, "";
    }
  }

  // The controller's path comes first, then the route's; empty ones leave no slash behind.
  ghost function Joined(b: string, r: string): string {
    if b != "" && r != "" then "/" + b + "/" + r
    else if b != "" then "/" + b
    else if r != "" then "/" + r
    else "/"
  }

  // Main result: where a route is registered, for any declared paths.
  lemma {:induction false} RegisteredUnder(base: string, path: string, b: string, r: string)
    requires HasCore(base, b) && HasCore(path, r)
    ensures FullPath(base, path) == Joined(b, r)
  {
    CleanIsCore(base, b);
    CleanIsCore(path, r);
    CoreHasNoEnds(base, b);
    CoreHasNoEnds(path, r);
    if b != "" && r != "" {
      BothParts(b, r);
    } else if b + r != "" {
      NormalizeInner(if b != "" then b else r);
    }
  }

  lemma BothParts(b: string, r: string)
    requires b != "" && r != "" && NoSlashEnds(b) && NoSlashEnds(r)
    ensures NormalizePath(b + "/" + r) == "/" + b + "/" + r
  {
    assert (b + "/" + r)[|b + "/" + r| - 1] == r[|r| - 1];
    NormalizeInner(b + "/" + r);
    assert "/" + (b + "/" + r) == "/" + b + "/" + r;
  }

  lemma CoreHasNoEnds(declared: string, core: string)
    requires HasCore(declared, core)
    ensures NoSlashEnds(core)
  {
    var w1, s1, s2, w2 :| IsWrapped(declared, w1, s1, core, s2, w2);
  }

  // --- Which path a URL asks for ---

  // What follows the first question mark does not count, nor does one slash at the end; a missing
  // slash in front is added.
  lemma {:induction false} PathOfUrlIs(p: string, query: string)
    requires p != "" && p[0] == '/' && p[|p| - 1] != '/' && Free(p, '?')
    ensures PathOfUrl(p) == PathOfUrl(p + "/") == p && (p[1] != '/' ==> PathOfUrl(p[1..]) == p)
    ensures PathOfUrl(p + "?" + query) == PathOfUrl(p + "/?" + query) == p
    ensures PathOfUrl("") == PathOfUrl("/") == PathOfUrl("/?" + query) == PathOfUrl("?" + query) == "/"
  {
    BeforeQuery(p, query);
    BeforeQuery(p + "/", query);
    assert (p + "/")[..|p + "/"| - 1] == p;
    assert p + "/?" + query == (p + "/") + "?" + query;
    if p[1] != '/' { SlashInFront(p); }
    RootUrls(query);
  }

  lemma SlashInFront(p: string)
    requires |p| > 1 && p[0] == '/' && p[1] != '/' && p[|p| - 1] != '/' && Free(p, '?')
    ensures PathOfUrl(p[1..]) == p
  {
    BeforeQuery(p[1..], "");
    assert "/" + p[1..] == p && p[1..][|p[1..]| - 1] == p[|p| - 1];
  }

  lemma RootUrls(query: string)
    ensures PathOfUrl("") == PathOfUrl("/") == PathOfUrl("/?" + query) == PathOfUrl("?" + query) == "/"
  {
    BeforeQuery("/", query);
    BeforeQuery("", query);
    assert "/?" + query == "/" + "?" + query && "?" + query == "" + "?" + query;
  }

  lemma BeforeQuery(p: string, query: string)
    requires Free(p, '?')
    ensures Split(p, '?')[0] == p && Split(p + "?" + query, '?')[0] == p
  {
    SplitPrefix(p, "", '?');
    assert p + "" == p && Split("", '?') == [""];
    var rest := "?" + query;
    SplitPrefix(p, rest, '?');
    assert p + "?" + query == p + rest;
    assert Split(rest, '?')[0] == "";
  }

  // A segment that begins with a colon stands for any segment and names it; another one for itself.
  lemma {:induction false} SegmentsAsDeclared(part: string, segment: string)
    ensures MatchParts([segment], [":" + part]) && ParamsTo([segment], [":" + part], 1) == map[part := Some(segment)]
    ensures part == "" || part[0] != ':' ==>
              (MatchParts([segment], [part]) <==> segment == part) && ParamsTo([segment], [part], 1) == map[]
  {
    assert (":" + part)[1..] == part;
    assert ParamsTo([segment], [part], 0) == map[] && ParamsTo([segment], [":" + part], 0) == map[];
  }

  // --- From declaration to request ---

  lemma {:induction false} JoinEnd(parts: seq<string>, sep: char)
    requires parts != []
    ensures var last, s := parts[|parts| - 1], Join(parts, sep);
            && (last != "" ==> s != "" && s[|s| - 1] == last[|last| - 1])
            && (last == "" && |parts| > 1 ==> s != "" && s[|s| - 1] == sep)
  {
    if |parts| > 1 { JoinEnd(parts[1..], sep); }
  }

  lemma LastPart(s: string)
    requires s != "" && s[|s| - 1] != '/'
    ensures var parts := Split(s, '/'); parts[|parts| - 1] != ""
  {
    JoinSplit(s, '/');
    JoinEnd(Split(s, '/'), '/');
  }

  // A filled path is one that normalising leaves alone.
  lemma FilledIsPath(full: string, values: map<string, string>)
    requires full != "" && full[0] == '/' && (full == "/" || full[|full| - 1] != '/')
    requires forall k :: k in values ==> values[k] != "" && Free(values[k], '/')
    ensures var url := Fill(full, Defined(values));
            url != "" && url[0] == '/' && (url == "/" || url[|url| - 1] != '/')
  {
    var rest := Split(full[1..], '/');
    var parts := FillParts(Split(full, '/'), Defined(values));
    assert Split(full, '/') == [""] + rest;
    assert parts[0] == "" && parts == [""] + parts[1..];
    if full == "/" {
      assert Split("", '/') == [""] && parts == ["", ""] && ["", ""][1..] == [""];
      assert Join([""], '/') == "" && Join(parts, '/') == "/";
    } else {
      LastPart(full);
      SplitFree(full, '/');
      var last := parts[|parts| - 1];
      assert last != "" && Free(last, '/');
      assert last[|last| - 1] in last;
      JoinEnd(parts, '/');
    }
  }

  // Main result: a controller with one route, on a router without routes for that method, answers
  // every URL made by filling that route, and gets the values back.
  lemma {:induction false} DeclaredRouteIsFound(
    byMethod: map<string, Table>, c: Controller, b: string, r: string, values: map<string, string>)
    requires |c.routes| == 1 && HasCore(c.path, b) && HasCore(c.routes[0].path, r)
    requires TableOf(byMethod, Upper(c.routes[0].httpMethod)) == []
    requires Binds(Split(Joined(b, r), '/'), values) && Free(Fill(Joined(b, r), Defined(values)), '?')
    requires forall k :: k in values ==> values[k] != "" && Free(values[k], '/')
    ensures var full, m := Joined(b, r), Upper(c.routes[0].httpMethod);
            var path := PathOfUrl(Fill(full, Defined(values)));
            && FirstMatch(TableOf(RegisteredByMethod(byMethod, c, 1), m), path) == Found(c.routes[0].handler, full)
            && (forall k :: k in Params(path, full) ==> k in values && Params(path, full)[k] == Some(values[k]))
            && (forall i :: 0 <= i < |Split(full, '/')| && IsParam(Split(full, '/')[i]) ==>
                  ParamName(Split(full, '/')[i]) in Params(path, full))
  {
    var full, m := Joined(b, r), Upper(c.routes[0].httpMethod);
    var url := Fill(full, Defined(values));
    RegisteredUnder(c.path, c.routes[0].path, b, r);
    FullPathIsNormal(c.path, c.routes[0].path);
    FilledIsPath(full, values);
    BeforeQuery(url, "");
    FilledPathsMatch(full, values);
    var empty: Table := [];
    assert OrderedMap.Set(empty, full, c.routes[0].handler) == [OrderedMap.Entry(full, c.routes[0].handler)];
    assert RegisteredByMethod(byMethod, c, 0) == byMethod;
  }

  // So `users` and `:id` give /users/:id, and so do `/users/` and ` /:id`.
  lemma {:induction false} BarePaths(b: string, r: string)
    requires NoSlashEnds(b) && NoSpaceEnds(b) && NoSlashEnds(r) && NoSpaceEnds(r) && b != "" && r != ""
    ensures FullPath(b, r) == FullPath("/" + b + "/", " /" + r) == "/" + b + "/" + r
  {
    BareCore(b);
    BareCore(r);
    RegisteredUnder(b, r, b, r);
    RegisteredUnder("/" + b + "/", " /" + r, b, r);
  }

  lemma BareCore(b: string)
    requires NoSlashEnds(b) && NoSpaceEnds(b)
    ensures HasCore(b, b) && HasCore("/" + b + "/", b) && HasCore(" /" + b, b)
  {
    assert b == "" + ("" + b + "") + "" && IsWrapped(b, "", "", b, "", "");
    assert "/" + b + "/" == "" + ("/" + b + "/") + "" && IsWrapped("/" + b + "/", "", "/", b, "/", "");
    assert " /" + b == " " + ("/" + b + "") + "" && IsWrapped(" /" + b, " ", "/", b, "", "");
  }

  // Methods may be written in any case.
  lemma {:induction false} MethodsInCapitals()
    ensures Upper("get") == Upper("Get") == "GET" && Upper("delete") == "DELETE"
  {}
}
