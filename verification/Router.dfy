// The router's two route tables: one flat, keyed "METHOD path", and one per method, which is the
// one `match` reads.
module Router {
  import opened JsText
  import OrderedMap
  import opened RoutePaths
  import opened Options

  // A route handler, by identity.
  type Handler = nat
  type Table = seq<OrderedMap.Entry<string, Handler>>

  datatype Route = Route(httpMethod: string, path: string, handler: Handler)
  datatype Controller = Controller(path: string, routes: seq<Route>)
  datatype Found = NotFound | Found(handler: Handler, routePath: string)

  function Upper(s: string): (u: string)
    ensures |u| == |s|
  {
    seq(|s|, i requires 0 <= i < |s| => if 'a' <= s[i] <= 'z' then s[i] - 'a' + 'A' else s[i])
  }

  // `${method} ${path}`
  function RouteKey(httpMethod: string, path: string): string {
    httpMethod + " " + path
  }

  predicate StartsWith(s: string, prefix: string) {
    |prefix| <= |s| && s[..|prefix|] == prefix
  }

  predicate IsOf(key: string, httpMethod: string) {
    StartsWith(key, httpMethod + " ")
  }

  function PathOf(key: string, httpMethod: string): string
    requires IsOf(key, httpMethod)
  {
    key[|httpMethod| + 1..]
  }

  // The flat table, seen from one method.
  ghost function Restrict(routes: Table, httpMethod: string): Table {
    if routes == [] then []
    else
      var rest := Restrict(routes[1..], httpMethod);
      if IsOf(routes[0].key, httpMethod) then
        [OrderedMap.Entry(PathOf(routes[0].key, httpMethod), routes[0].value)] + rest
      else rest
  }

  ghost function FirstMatch(table: Table, path: string): Found {
    if table == [] then NotFound
    else if Matches(path, table[0].key) then Found(table[0].value, table[0].key)
    else FirstMatch(table[1..], path)
  }

  // What a scan of the flat table for one method finds.
  ghost function Scan(routes: Table, httpMethod: string, path: string): Found {
    if routes == [] then NotFound
    else if IsOf(routes[0].key, httpMethod) && Matches(path, PathOf(routes[0].key, httpMethod)) then
      Found(routes[0].value, PathOf(routes[0].key, httpMethod))
    else Scan(routes[1..], httpMethod, path)
  }

  lemma {:induction false} ScanIsFirstMatch(routes: Table, httpMethod: string, path: string)
    ensures FirstMatch(Restrict(routes, httpMethod), path) == Scan(routes, httpMethod, path)
  {
    if routes != [] {
      ScanIsFirstMatch(routes[1..], httpMethod, path);
      var rest := Restrict(routes[1..], httpMethod);
      if IsOf(routes[0].key, httpMethod) {
        var e := OrderedMap.Entry(PathOf(routes[0].key, httpMethod), routes[0].value);
        assert ([e] + rest)[1..] == rest;
      }
    }
  }

  // Methods without spaces: a key belongs to one method only.
  lemma KeyOfOneMethod(m: string, path: string, n: string)
    requires Free(m, ' ') && Free(n, ' ')
    ensures IsOf(RouteKey(m, path), n) <==> m == n
    ensures PathOf(RouteKey(m, path), m) == path
  {
    var key := RouteKey(m, path);
    assert key[..|m| + 1] == m + " ";
    if IsOf(key, n) {
      assert forall i :: 0 <= i < |n| ==> key[i] == (n + " ")[i] == n[i];
      assert forall i :: 0 <= i < |m| ==> key[i] == m[i];
      assert key[|n|] == (n + " ")[|n|] == ' ' && key[|m|] == ' ';
      assert forall i :: 0 <= i < |m| ==> key[i] != ' ';
      assert forall i :: 0 <= i < |n| ==> key[i] != ' ';
      assert |m| == |n|;
    }
  }

  lemma {:induction false} RestrictSet(routes: Table, m: string, path: string, h: Handler, n: string)
    requires Free(m, ' ') && Free(n, ' ')
    ensures Restrict(OrderedMap.Set(routes, RouteKey(m, path), h), n) ==
            if n == m then OrderedMap.Set(Restrict(routes, n), path, h) else Restrict(routes, n)
  {
    var key := RouteKey(m, path);
    KeyOfOneMethod(m, path, n);
    if routes == [] {
      RestrictFirst(OrderedMap.Entry(key, h), [], n);
      assert [OrderedMap.Entry(key, h)] == [OrderedMap.Entry(key, h)] + [];
    } else {
      var first, tail := routes[0], routes[1..];
      assert routes == [first] + tail;
      RestrictFirst(first, tail, n);
      if first.key == key {
        RestrictFirst(OrderedMap.Entry(key, h), tail, n);
        if n == m { SetFirst(path, first.value, Restrict(tail, n), path, h); }
      } else {
        RestrictSet(tail, m, path, h, n);
        RestrictFirst(first, OrderedMap.Set(tail, key, h), n);
        if IsOf(first.key, n) {
          assert first.key == (n + " ") + PathOf(first.key, n);
          SetFirst(PathOf(first.key, n), first.value, Restrict(tail, n), path, h);
        }
      }
    }
  }

  ghost function RestrictEntry(e: OrderedMap.Entry<string, Handler>, httpMethod: string): Table {
    if IsOf(e.key, httpMethod) then [OrderedMap.Entry(PathOf(e.key, httpMethod), e.value)] else []
  }

  lemma RestrictFirst(e: OrderedMap.Entry<string, Handler>, rest: Table, httpMethod: string)
    ensures Restrict([e] + rest, httpMethod) == RestrictEntry(e, httpMethod) + Restrict(rest, httpMethod)
  {
    assert ([e] + rest)[1..] == rest;
  }

  lemma SetFirst(key: string, value: Handler, rest: Table, path: string, h: Handler)
    ensures OrderedMap.Set([OrderedMap.Entry(key, value)] + rest, path, h) ==
            if key == path then [OrderedMap.Entry(key, h)] + rest
            else [OrderedMap.Entry(key, value)] + OrderedMap.Set(rest, path, h)
  {
    assert ([OrderedMap.Entry(key, value)] + rest)[1..] == rest;
  }

  ghost function TableOf(byMethod: map<string, Table>, httpMethod: string): Table {
    if httpMethod in byMethod then byMethod[httpMethod] else []
  }

  ghost predicate Agree(routes: Table, byMethod: map<string, Table>) {
    forall m: string :: Free(m, ' ') ==> TableOf(byMethod, m) == Restrict(routes, m)
  }

  lemma {:induction false} AgreeOnRegister(routes: Table, byMethod: map<string, Table>, m: string, path: string, h: Handler)
    requires Agree(routes, byMethod) && Free(m, ' ')
    ensures Agree(OrderedMap.Set(routes, RouteKey(m, path), h),
                  byMethod[m := OrderedMap.Set(TableOf(byMethod, m), path, h)])
  {
    var routes' := OrderedMap.Set(routes, RouteKey(m, path), h);
    var byMethod' := byMethod[m := OrderedMap.Set(TableOf(byMethod, m), path, h)];
    forall n: string | Free(n, ' ') ensures TableOf(byMethod', n) == Restrict(routes', n) {
      RestrictSet(routes, m, path, h, n);
      assert TableOf(byMethod, n) == Restrict(routes, n);
    }
  }

  lemma UpperFree(m: string)
    requires Free(m, ' ')
    ensures Free(Upper(m), ' ')
  {
    forall i | 0 <= i < |m| ensures Upper(m)[i] != ' ' { assert m[i] in m; }
  }

  // --- As written ---

  class Router {
    var routes: Table
    var routesByMethod: map<string, Table>

    // The tables agree as long as every route came from a controller.
    ghost predicate Indexed()
      reads this
    {
      Agree(routes, routesByMethod)
    }

    constructor ()
      ensures Indexed() && routes == []
    {
      routes := [];
      routesByMethod := map["GET" := [], "POST" := [], "PUT" := [], "DELETE" := [], "PATCH" := []];
    }

    // HTTP methods are single words where the tables are to agree.
    method RegisterController(controller: Controller)
      modifies this
      ensures routes == Registered(old(routes), controller, |controller.routes|)
      ensures routesByMethod == RegisteredByMethod(old(routesByMethod), controller, |controller.routes|)
      ensures old(Indexed()) && WordMethods(controller) ==> Indexed()
    {
      for i := 0 to |controller.routes|
        invariant routes == Registered(old(routes), controller, i)
        invariant routesByMethod == RegisteredByMethod(old(routesByMethod), controller, i)
        invariant old(Indexed()) && WordMethods(controller) ==> Indexed()
      {
        RegisterRoute(controller.path, controller.routes[i]);
      }
    }

    // The body of that loop.
    method RegisterRoute(base: string, route: Route)
      modifies this
      ensures routes == WithRoute(old(routes), base, route)
      ensures routesByMethod == WithRouteByMethod(old(routesByMethod), base, route)
      ensures old(Indexed()) && Free(route.httpMethod, ' ') ==> Indexed()
    {
      var fullPath := FullPath(base, route.path);
      var methodUpper := Upper(route.httpMethod);
      if Free(route.httpMethod, ' ') { UpperFree(route.httpMethod); }
      SetRoute(methodUpper, fullPath, route.handler);
    }

    // The part of `registerController` that writes one route to both tables.
    method SetRoute(methodUpper: string, fullPath: string, handler: Handler)
      modifies this
      ensures routes == OrderedMap.Set(old(routes), RouteKey(methodUpper, fullPath), handler)
      ensures routesByMethod ==
              old(routesByMethod)[methodUpper := OrderedMap.Set(TableOf(old(routesByMethod), methodUpper), fullPath, handler)]
      ensures old(Indexed()) && Free(methodUpper, ' ') ==> Indexed()
    {
      if Indexed() && Free(methodUpper, ' ') { AgreeOnRegister(routes, routesByMethod, methodUpper, fullPath, handler); }
      routes := OrderedMap.Set(routes, RouteKey(methodUpper, fullPath), handler);
      if methodUpper !in routesByMethod {
        routesByMethod := routesByMethod[methodUpper := []];
      }
      routesByMethod := routesByMethod[methodUpper := OrderedMap.Set(routesByMethod[methodUpper], fullPath, handler)];
    }

    // `addRoute`: only the flat table.
    method AddRoute(httpMethod: string, path: string, handler: Handler)
      modifies this
      ensures routesByMethod == old(routesByMethod)
      ensures routes == OrderedMap.Set(old(routes), RouteKey(Upper(httpMethod), NormalizePath(path)), handler)
    {
      routes := OrderedMap.Set(routes, RouteKey(Upper(httpMethod), NormalizePath(path)), handler);
    }

    // Main result: the first match in the per-method table is found; as long as the tables agree,
    // that is what a first-match scan of the flat table, restricted to that method, would find;
    // and the parameters are those of that route.
    method Match(httpMethod: string, url: string) returns (found: Found, params: map<string, Option<string>>)
      ensures found == FirstMatch(TableOf(routesByMethod, httpMethod), PathOfUrl(url))
      ensures Indexed() && Free(httpMethod, ' ') ==> found == Scan(routes, httpMethod, PathOfUrl(url))
      ensures params == if found.Found? then Params(PathOfUrl(url), found.routePath) else map[]
    {
      found, params := NotFound, map[];
      var path := PathOfUrl(url);
      ScanIsFirstMatch(routes, httpMethod, path);
      if Indexed() && Free(httpMethod, ' ') {
        assert TableOf(routesByMethod, httpMethod) == Restrict(routes, httpMethod);
      }
      if httpMethod !in routesByMethod { return; }
      var table := routesByMethod[httpMethod];
      assert table[0..] == table;
      for i := 0 to |table|
        invariant FirstMatch(table, path) == FirstMatch(table[i..], path)
      {
        assert table[i..][0] == table[i] && table[i..][1..] == table[i + 1..];
        var ok := MatchPath(path, table[i].key);
        if ok {
          params := ExtractParams(path, table[i].key);
          found := Found(table[i].value, table[i].key);
          return;
        }
      }
    }
  }

  // `normalizePath(url.split('?')[0] || '/')`
  function PathOfUrl(url: string): string {
    var first := Split(url, '?')[0];
    NormalizePath(if first == "" then "/" else first)
  }

  ghost function WithRoute(routes: Table, base: string, r: Route): Table {
    OrderedMap.Set(routes, RouteKey(Upper(r.httpMethod), FullPath(base, r.path)), r.handler)
  }

  ghost function WithRouteByMethod(byMethod: map<string, Table>, base: string, r: Route): map<string, Table> {
    var m := Upper(r.httpMethod);
    byMethod[m := OrderedMap.Set(TableOf(byMethod, m), FullPath(base, r.path), r.handler)]
  }

  // The flat table after the first n routes of a controller.
  ghost function Registered(routes: Table, c: Controller, n: nat): Table
    requires n <= |c.routes|
  {
    if n == 0 then routes else WithRoute(Registered(routes, c, n - 1), c.path, c.routes[n - 1])
  }

  // The per-method tables after the first n routes of a controller.
  ghost function RegisteredByMethod(byMethod: map<string, Table>, c: Controller, n: nat): map<string, Table>
    requires n <= |c.routes|
  {
    if n == 0 then byMethod else WithRouteByMethod(RegisteredByMethod(byMethod, c, n - 1), c.path, c.routes[n - 1])
  }

  ghost predicate WordMethods(c: Controller) {
    forall i :: 0 <= i < |c.routes| ==> Free(c.routes[i].httpMethod, ' ')
  }
}
