// Route paths: matching a request path against a route, and the parameters it binds.
module RoutePaths {
  import opened JsText
  import opened Options

  predicate IsParam(part: string) {
    part != "" && part[0] == ':'
  }

  function ParamName(part: string): string
    requires IsParam(part)
  {
    part[1..]
  }

  predicate MatchParts(pathParts: seq<string>, routeParts: seq<string>) {
    && |pathParts| == |routeParts|
    && forall i :: 0 <= i < |routeParts| ==> IsParam(routeParts[i]) || routeParts[i] == pathParts[i]
  }

  // The record `extractParams` fills: a later parameter of the same name overwrites; one beyond
  // the end of the path is undefined.
  function ParamsTo(pathParts: seq<string>, routeParts: seq<string>, n: nat): map<string, Option<string>>
    requires n <= |routeParts|
  {
    if n == 0 then map[]
    else
      var before := ParamsTo(pathParts, routeParts, n - 1);
      if IsParam(routeParts[n - 1]) then
        before[ParamName(routeParts[n - 1]) := if n - 1 < |pathParts| then Some(pathParts[n - 1]) else None]
      else before
  }

  ghost function Params(path: string, route: string): map<string, Option<string>> {
    ParamsTo(Split(path, '/'), Split(route, '/'), |Split(route, '/')|)
  }

  ghost predicate Matches(path: string, route: string) {
    MatchParts(Split(path, '/'), Split(route, '/'))
  }

  // As written.
  method MatchPath(path: string, routePath: string) returns (ok: bool)
    ensures ok == Matches(path, routePath)
  {
    var pathParts, routeParts := Split(path, '/'), Split(routePath, '/');
    if |pathParts| != |routeParts| { return false; }
    for i := 0 to |routeParts|
      invariant forall j :: 0 <= j < i ==> IsParam(routeParts[j]) || routeParts[j] == pathParts[j]
    {
      if !IsParam(routeParts[i]) && routeParts[i] != pathParts[i] { return false; }
    }
    return true;
  }

  method ExtractParams(path: string, routePath: string) returns (params: map<string, Option<string>>)
    ensures params == Params(path, routePath)
  {
    var pathParts, routeParts := Split(path, '/'), Split(routePath, '/');
    params := map[];
    for i := 0 to |routeParts|
      invariant params == ParamsTo(pathParts, routeParts, i)
    {
      if IsParam(routeParts[i]) {
        params := params[routeParts[i][1..] := if i < |pathParts| then Some(pathParts[i]) else None];
      }
    }
  }

  // --- Filling a route is the inverse ---

  // A parameter without a value is left standing.
  function FillPart(part: string, params: map<string, Option<string>>): string {
    if IsParam(part) && ParamName(part) in params && params[ParamName(part)].Some? then params[ParamName(part)].value
    else part
  }

  function FillParts(routeParts: seq<string>, params: map<string, Option<string>>): (parts: seq<string>)
    ensures |parts| == |routeParts|
  {
    seq(|routeParts|, i requires 0 <= i < |routeParts| => FillPart(routeParts[i], params))
  }

  function Fill(route: string, params: map<string, Option<string>>): string {
    Join(FillParts(Split(route, '/'), params), '/')
  }

  ghost predicate DistinctParams(routeParts: seq<string>) {
    forall i, j :: 0 <= i < j < |routeParts| && IsParam(routeParts[i]) && IsParam(routeParts[j]) ==>
      ParamName(routeParts[i]) != ParamName(routeParts[j])
  }

  // The last parameter of a name decides; with distinct names there is only one.
  lemma {:induction false} ParamsLookup(pathParts: seq<string>, routeParts: seq<string>, n: nat, i: nat)
    requires i < n <= |routeParts| && DistinctParams(routeParts) && IsParam(routeParts[i])
    ensures ParamName(routeParts[i]) in ParamsTo(pathParts, routeParts, n)
    ensures ParamsTo(pathParts, routeParts, n)[ParamName(routeParts[i])] ==
            if i < |pathParts| then Some(pathParts[i]) else None
  {
    if i < n - 1 { ParamsLookup(pathParts, routeParts, n - 1, i); }
  }

  ghost predicate SlashFree(params: map<string, Option<string>>) {
    forall k :: k in params && params[k].Some? ==> Free(params[k].value, '/')
  }

  lemma {:induction false} ParamsSlashFree(pathParts: seq<string>, routeParts: seq<string>, n: nat)
    requires n <= |routeParts| && AllFree(pathParts, '/')
    ensures SlashFree(ParamsTo(pathParts, routeParts, n))
  {
    if n > 0 { ParamsSlashFree(pathParts, routeParts, n - 1); }
  }

  lemma FillPartsFree(routeParts: seq<string>, params: map<string, Option<string>>)
    requires AllFree(routeParts, '/') && SlashFree(params)
    ensures AllFree(FillParts(routeParts, params), '/')
  {}

  // Main result: for a route with distinct parameter names, a path matches exactly when filling
  // the route with the extracted parameters gives the path back.
  lemma {:induction false} MatchesIffFilled(path: string, route: string)
    requires DistinctParams(Split(route, '/'))
    ensures Matches(path, route) <==> Fill(route, Params(path, route)) == path
  {
    var pp, rp := Split(path, '/'), Split(route, '/');
    var params := Params(path, route);
    var filled := FillParts(rp, params);
    SplitFree(path, '/');
    SplitFree(route, '/');
    ParamsSlashFree(pp, rp, |rp|);
    FillPartsFree(rp, params);
    JoinSplit(path, '/');
    JoinInjective(filled, pp, '/');
    if |pp| == |rp| {
      forall i | 0 <= i < |rp| ensures filled[i] == if IsParam(rp[i]) then pp[i] else rp[i] {
        if IsParam(rp[i]) { ParamsLookup(pp, rp, |rp|, i); }
      }
      if Matches(path, route) { assert filled == pp; }
      if filled == pp { assert MatchParts(pp, rp); }
    }
  }

  ghost predicate Binds(routeParts: seq<string>, values: map<string, string>) {
    forall i :: 0 <= i < |routeParts| && IsParam(routeParts[i]) ==> ParamName(routeParts[i]) in values
  }

  ghost function Defined(values: map<string, string>): map<string, Option<string>> {
    map k | k in values :: Some(values[k])
  }

  lemma {:induction false} ParamsRecovered(pathParts: seq<string>, routeParts: seq<string>, values: map<string, string>, n: nat)
    requires n <= |routeParts| && Binds(routeParts, values)
    requires pathParts == FillParts(routeParts, Defined(values))
    ensures forall k :: k in ParamsTo(pathParts, routeParts, n) ==>
              k in values && ParamsTo(pathParts, routeParts, n)[k] == Some(values[k])
    ensures forall i :: 0 <= i < n && IsParam(routeParts[i]) ==> ParamName(routeParts[i]) in ParamsTo(pathParts, routeParts, n)
  {
    if n > 0 { ParamsRecovered(pathParts, routeParts, values, n - 1); }
  }

  // Main result: a path made by filling a route with slash-free values matches the route, and
  // exactly those values come back, one for each parameter name.
  lemma {:induction false} FilledPathsMatch(route: string, values: map<string, string>)
    requires Binds(Split(route, '/'), values)
    requires forall k :: k in values ==> Free(values[k], '/')
    ensures var path := Fill(route, Defined(values));
            && Matches(path, route)
            && (forall k :: k in Params(path, route) ==> k in values && Params(path, route)[k] == Some(values[k]))
            && (forall i :: 0 <= i < |Split(route, '/')| && IsParam(Split(route, '/')[i]) ==>
                  ParamName(Split(route, '/')[i]) in Params(path, route))
  {
    var rp := Split(route, '/');
    var parts := FillParts(rp, Defined(values));
    SplitFree(route, '/');
    FillPartsFree(rp, Defined(values));
    SplitJoin(parts, '/');
    ParamsRecovered(parts, rp, values, |rp|);
  }

  ghost predicate RoundTrips(path: string, route: string) {
    Matches(path, route) <==> Fill(route, Params(path, route)) == path
  }

  // A matching path with "0" for parameter i and "1" for every other one.
  ghost function Marked(routeParts: seq<string>, i: nat): (parts: seq<string>)
    ensures |parts| == |routeParts|
  {
    seq(|routeParts|, k requires 0 <= k < |routeParts| =>
      if !IsParam(routeParts[k]) then routeParts[k] else if k == i then "0" else "1")
  }

  lemma {:induction false} LaterOverwrites(routeParts: seq<string>, i: nat, j: nat, n: nat)
    requires i < j < n <= |routeParts| && IsParam(routeParts[i]) && IsParam(routeParts[j])
    requires ParamName(routeParts[i]) == ParamName(routeParts[j])
    ensures var params := ParamsTo(Marked(routeParts, i), routeParts, n);
            ParamName(routeParts[i]) in params && params[ParamName(routeParts[i])] == Some("1")
  {
    if j < n - 1 { LaterOverwrites(routeParts, i, j, n - 1); }
  }

  lemma {:induction false} RepeatedNameLosesAValue(route: string, i: nat, j: nat)
    requires var rp := Split(route, '/');
             i < j < |rp| && IsParam(rp[i]) && IsParam(rp[j]) && ParamName(rp[i]) == ParamName(rp[j])
    ensures !RoundTrips(Join(Marked(Split(route, '/'), i), '/'), route)
  {
    var rp := Split(route, '/');
    var pp := Marked(rp, i);
    SplitFree(route, '/');
    SplitJoin(pp, '/');
    assert MatchParts(pp, rp);
    var params := ParamsTo(pp, rp, |rp|);
    ParamsSlashFree(pp, rp, |rp|);
    FillPartsFree(rp, params);
    LaterOverwrites(rp, i, j, |rp|);
    assert FillParts(rp, params)[i] == "1" && pp[i] == "0";
    JoinInjective(FillParts(rp, params), pp, '/');
  }

  // And only such routes: matching is the same as being filled back, for every path, exactly when
  // no parameter name is repeated.
  lemma {:induction false} RoundTripsIffDistinct(route: string)
    ensures DistinctParams(Split(route, '/')) <==> forall path: string :: RoundTrips(path, route)
  {
    var rp := Split(route, '/');
    if DistinctParams(rp) {
      forall path: string ensures RoundTrips(path, route) { MatchesIffFilled(path, route); }
    } else {
      var i: nat, j: nat :| i < j < |rp| && IsParam(rp[i]) && IsParam(rp[j]) && ParamName(rp[i]) == ParamName(rp[j]);
      RepeatedNameLosesAValue(route, i, j);
    }
  }

  // --- Normal forms ---

  // `normalizePath`
  function NormalizePath(path: string): string {
    var p := if |path| > 1 && path[|path| - 1] == '/' then path[..|path| - 1] else path;
    if p != "" && p[0] == '/' then p else "/" + p
  }

  function StripLeft(s: string): string {
    if s != "" && s[0] == '/' then StripLeft(s[1..]) else s
  }

  function StripRight(s: string): string {
    if s != "" && s[|s| - 1] == '/' then StripRight(s[..|s| - 1]) else s
  }

  // White space and line ends, as `trim` takes them.
  predicate IsSpace(c: char) {
    || c == ' ' || '\U{9}' <= c <= '\U{d}' || c == '\U{a0}' || c == '\U{1680}' || '\U{2000}' <= c <= '\U{200a}'
    || c == '\U{2028}' || c == '\U{2029}' || c == '\U{202f}' || c == '\U{205f}' || c == '\U{3000}' || c == '\U{feff}'
  }

  function TrimLeft(s: string): string {
    if s != "" && IsSpace(s[0]) then TrimLeft(s[1..]) else s
  }

  function TrimRight(s: string): string {
    if s != "" && IsSpace(s[|s| - 1]) then TrimRight(s[..|s| - 1]) else s
  }

  // `trim().replace(/^\/+|\/+$/g, '')`
  function Clean(s: string): string {
    StripRight(StripLeft(TrimRight(TrimLeft(s))))
  }

  function FullPath(base: string, path: string): string {
    var b, r := Clean(base), Clean(path);
    NormalizePath(if b == "" && r == "" then "/" else if b == "" then r else if r == "" then b else b + "/" + r)
  }

  lemma {:induction false} StripLeftStart(s: string)
    ensures StripLeft(s) == "" || StripLeft(s)[0] != '/'
  {
    if s != "" && s[0] == '/' { StripLeftStart(s[1..]); }
  }

  lemma {:induction false} StripRightEnds(s: string)
    ensures StripRight(s) == "" || StripRight(s)[|StripRight(s)| - 1] != '/'
    ensures StripRight(s) <= s
  {
    if s != "" && s[|s| - 1] == '/' { StripRightEnds(s[..|s| - 1]); }
  }

  lemma CleanHasNoEnds(s: string)
    ensures Clean(s) == "" || (Clean(s)[0] != '/' && Clean(s)[|Clean(s)| - 1] != '/')
  {
    var t := TrimRight(TrimLeft(s));
    StripLeftStart(t);
    StripRightEnds(StripLeft(t));
  }

  // Every registered path starts with a slash, ends with none unless it is "/", and is not
  // changed by normalising it again.
  lemma {:induction false} FullPathIsNormal(base: string, path: string)
    ensures var p := FullPath(base, path);
            && p != "" && p[0] == '/' && (p == "/" || p[|p| - 1] != '/')
            && NormalizePath(p) == p
  {
    CleanHasNoEnds(base);
    CleanHasNoEnds(path);
    var b, r := Clean(base), Clean(path);
    if b != "" && r != "" { assert (b + "/" + r)[|b + "/" + r| - 1] == r[|r| - 1]; }
    var joined := if b == "" then r else if r == "" then b else b + "/" + r;
    if joined != "" { NormalizeInner(joined); }
  }

  // A path without slashes at its ends gets one in front.
  lemma NormalizeInner(p: string)
    requires p != "" && p[0] != '/' && p[|p| - 1] != '/'
    ensures NormalizePath(p) == "/" + p && NormalizePath("/" + p) == "/" + p
    ensures ("/" + p)[|"/" + p| - 1] != '/'
  {
    assert ("/" + p)[|"/" + p| - 1] == p[|p| - 1];
  }
}
