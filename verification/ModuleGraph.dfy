// The module import graph: two depth-first collectors that share a visited set, and an
// initialiser that has none.
module ModuleGraph {
  import opened Collections
  import opened Graphs

  // A module is a class, or the object a `forRoot()` returns.
  datatype Module = ModuleClass(id: nat) | DynamicModule(ref: nat, cls: nat)

  // An entry of a `controllers` list.
  datatype Entry = ControllerClass(id: nat) | UseClassEntry(id: nat) | NotAClass

  // `getModuleMetadata`; a missing list is an empty one.
  datatype Metadata = Metadata(imports: seq<Module>, providers: nat, controllers: seq<Entry>)
  type Modules = Module -> Metadata

  datatype ModuleRef = ModuleRef(moduleType: Module, isDynamic: bool)

  function RefOf(m: Module): ModuleRef {
    ModuleRef(m, m.DynamicModule?)
  }

  function Imports(g: Modules): Module -> seq<Module> {
    m => g(m).imports
  }

  function ControllerClasses(entries: seq<Entry>): seq<nat> {
    if entries == [] then []
    else (match entries[0]
          case ControllerClass(id) => [id]
          case UseClassEntry(id) => [id]
          case NotAClass => []) + ControllerClasses(entries[1..])
  }

  lemma ImportsWithin(g: Modules, U: set<Module>, m: Module)
    requires Closed(Imports(g), U) && m in U
    ensures Within(g(m).imports, U)
  {
    forall i | 0 <= i < |g(m).imports| ensures g(m).imports[i] in U {
      assert g(m).imports[i] in Imports(g)(m);
    }
  }

  // --- The collectors, as functions of the visited set ---

  datatype Visit<T> = Visit(out: seq<T>, visited: set<Module>)

  // Each module before its imports.
  ghost function ModulesFrom(g: Modules, U: set<Module>, m: Module, visited: set<Module>): (r: Visit<Module>)
    requires Closed(Imports(g), U) && m in U
    ensures visited <= r.visited
    decreases U - visited, 0
  {
    if m in visited then Visit([], visited)
    else
      ImportsWithin(g, U, m);
      var rest := ModulesAll(g, U, g(m).imports, visited + {m});
      Visit([m] + rest.out, rest.visited)
  }

  ghost function ModulesAll(g: Modules, U: set<Module>, ms: seq<Module>, visited: set<Module>): (r: Visit<Module>)
    requires Closed(Imports(g), U) && Within(ms, U)
    ensures visited <= r.visited
    decreases U - visited, 1 + |ms|
  {
    if ms == [] then Visit([], visited)
    else
      var first := ModulesFrom(g, U, ms[0], visited);
      var rest := ModulesAll(g, U, ms[1..], first.visited);
      Visit(first.out + rest.out, rest.visited)
  }

  // The controllers of the imports before the module's own.
  ghost function Controllers(g: Modules, U: set<Module>, m: Module, visited: set<Module>): (r: Visit<nat>)
    requires Closed(Imports(g), U) && m in U
    ensures visited <= r.visited
    decreases U - visited, 0
  {
    if m in visited then Visit([], visited)
    else
      ImportsWithin(g, U, m);
      var rest := ControllersAll(g, U, g(m).imports, visited + {m});
      Visit(rest.out + ControllerClasses(g(m).controllers), rest.visited)
  }

  ghost function ControllersAll(g: Modules, U: set<Module>, ms: seq<Module>, visited: set<Module>): (r: Visit<nat>)
    requires Closed(Imports(g), U) && Within(ms, U)
    ensures visited <= r.visited
    decreases U - visited, 1 + |ms|
  {
    if ms == [] then Visit([], visited)
    else
      var first := Controllers(g, U, ms[0], visited);
      var rest := ControllersAll(g, U, ms[1..], first.visited);
      Visit(first.out + rest.out, rest.visited)
  }

  ghost function Elements<T>(xs: seq<T>): set<T> {
    set x | x in xs
  }

  // A traversal reports exactly the modules it newly visits, each once, and visits their imports.
  ghost predicate Explores(g: Modules, visited: set<Module>, r: Visit<Module>) {
    && Distinct(r.out)
    && Elements(r.out) == r.visited - visited
    && (forall a, b :: a in r.visited - visited && b in g(a).imports ==> b in r.visited)
  }

  lemma DistinctConcat<T>(a: seq<T>, b: seq<T>)
    requires Distinct(a) && Distinct(b) && Elements(a) !! Elements(b)
    ensures Distinct(a + b) && Elements(a + b) == Elements(a) + Elements(b)
  {
    forall i, j | 0 <= i < j < |a + b| ensures (a + b)[i] != (a + b)[j] {
      if i < |a| <= j {
        assert (a + b)[i] in Elements(a) && (a + b)[j] in Elements(b);
      }
    }
    forall x ensures x in Elements(a + b) <==> x in Elements(a) + Elements(b) {}
  }

  lemma {:induction false} ModulesExplore(g: Modules, U: set<Module>, m: Module, visited: set<Module>)
    requires Closed(Imports(g), U) && m in U
    ensures Explores(g, visited, ModulesFrom(g, U, m, visited)) && m in ModulesFrom(g, U, m, visited).visited
    decreases U - visited, 0
  {
    if m !in visited {
      ImportsWithin(g, U, m);
      var rest := ModulesAll(g, U, g(m).imports, visited + {m});
      ModulesAllExplore(g, U, g(m).imports, visited + {m});
      DistinctConcat([m], rest.out);
      assert Elements([m]) == {m};
    }
  }

  lemma {:induction false} ModulesAllExplore(g: Modules, U: set<Module>, ms: seq<Module>, visited: set<Module>)
    requires Closed(Imports(g), U) && Within(ms, U)
    ensures Explores(g, visited, ModulesAll(g, U, ms, visited))
    ensures forall x :: x in ms ==> x in ModulesAll(g, U, ms, visited).visited
    decreases U - visited, 1 + |ms|
  {
    if ms != [] {
      var first := ModulesFrom(g, U, ms[0], visited);
      ModulesExplore(g, U, ms[0], visited);
      ModulesAllExplore(g, U, ms[1..], first.visited);
      DistinctConcat(first.out, ModulesAll(g, U, ms[1..], first.visited).out);
      assert forall x :: x in ms ==> x == ms[0] || x in ms[1..];
    }
  }

  lemma {:induction false} ModulesReachable(g: Modules, U: set<Module>, m: Module, visited: set<Module>, x: Module)
    requires Closed(Imports(g), U) && m in U && x in ModulesFrom(g, U, m, visited).out
    ensures Reachable(Imports(g), m, x)
    decreases U - visited, 0
  {
    if x == m {
      ReachableSelf(Imports(g), m);
    } else {
      ImportsWithin(g, U, m);
      var i := ModulesAllReachable(g, U, g(m).imports, visited + {m}, x);
      ReachableStep(Imports(g), m, g(m).imports[i], x);
    }
  }

  lemma {:induction false} ModulesAllReachable(g: Modules, U: set<Module>, ms: seq<Module>, visited: set<Module>, x: Module)
    returns (i: nat)
    requires Closed(Imports(g), U) && Within(ms, U)
    requires x in ModulesAll(g, U, ms, visited).out
    ensures i < |ms| && Reachable(Imports(g), ms[i], x)
    decreases U - visited, 1 + |ms|
  {
    var first := ModulesFrom(g, U, ms[0], visited);
    if x in first.out {
      ModulesReachable(g, U, ms[0], visited, x);
      i := 0;
    } else {
      i := ModulesAllReachable(g, U, ms[1..], first.visited, x);
      i := i + 1;
    }
  }

  // Main result: on any finite graph, cycles included, the collector reports the modules
  // reachable from the root, each once.
  lemma {:induction false} CollectsReachable(g: Modules, U: set<Module>, m: Module)
    requires Closed(Imports(g), U) && m in U
    ensures var out := ModulesFrom(g, U, m, {}).out;
            Distinct(out) && forall x :: x in out <==> Reachable(Imports(g), m, x)
  {
    var r := ModulesFrom(g, U, m, {});
    ModulesExplore(g, U, m, {});
    assert Elements(r.out) == r.visited;
    assert Closed(Imports(g), r.visited);
    forall x ensures x in r.out <==> Reachable(Imports(g), m, x) {
      if x in r.out { ModulesReachable(g, U, m, {}, x); }
      if Reachable(Imports(g), m, x) {
        var p: seq<Module> :| Connects(Imports(g), p, m, x);
        PathStaysClosed(Imports(g), r.visited, p);
        assert x in Elements(r.out);
      }
    }
  }

  // The controllers of a list of modules, concatenated.
  ghost function ControllersOf(g: Modules, ms: seq<Module>): seq<nat> {
    if ms == [] then [] else ControllerClasses(g(ms[0]).controllers) + ControllersOf(g, ms[1..])
  }

  lemma {:induction false} ControllersOfConcat(g: Modules, a: seq<Module>, b: seq<Module>)
    ensures ControllersOf(g, a + b) == ControllersOf(g, a) + ControllersOf(g, b)
  {
    if a == [] {
      assert a + b == b;
    } else {
      assert (a + b)[1..] == a[1..] + b;
      ControllersOfConcat(g, a[1..], b);
    }
  }

  // Main result: both collectors visit the same modules, and the controllers collected
  // imports-first are a permutation of those of the modules collected module-first.
  lemma {:induction false} CollectorsAgree(g: Modules, U: set<Module>, m: Module, visited: set<Module>)
    requires Closed(Imports(g), U) && m in U
    ensures var a, b := ModulesFrom(g, U, m, visited), Controllers(g, U, m, visited);
            a.visited == b.visited && multiset(b.out) == multiset(ControllersOf(g, a.out))
    decreases U - visited, 0
  {
    if m !in visited {
      ImportsWithin(g, U, m);
      CollectorsAgreeAll(g, U, g(m).imports, visited + {m});
      var rest := ModulesAll(g, U, g(m).imports, visited + {m});
      assert ([m] + rest.out)[1..] == rest.out;
    }
  }

  lemma {:induction false} CollectorsAgreeAll(g: Modules, U: set<Module>, ms: seq<Module>, visited: set<Module>)
    requires Closed(Imports(g), U) && Within(ms, U)
    ensures var a, b := ModulesAll(g, U, ms, visited), ControllersAll(g, U, ms, visited);
            a.visited == b.visited && multiset(b.out) == multiset(ControllersOf(g, a.out))
    decreases U - visited, 1 + |ms|
  {
    if ms != [] {
      CollectorsAgree(g, U, ms[0], visited);
      var first := ModulesFrom(g, U, ms[0], visited);
      CollectorsAgreeAll(g, U, ms[1..], first.visited);
      ControllersOfConcat(g, first.out, ModulesAll(g, U, ms[1..], first.visited).out);
    }
  }

  // --- The collectors as written: a shared set object, arrays that are pushed to ---

  class VisitedSet {
    var items: set<Module>

    constructor ()
      ensures items == {}
    {
      items := {};
    }
  }

  method CollectModules(g: Modules, ghost U: set<Module>, m: Module, visited: VisitedSet) returns (results: seq<ModuleRef>)
    requires Closed(Imports(g), U) && m in U
    modifies visited
    ensures var r := ModulesFrom(g, U, m, old(visited.items));
            && visited.items == r.visited && results == Refs(r.out)
            && forall n :: 0 <= n < |results| ==>
                 results[n].moduleType == r.out[n] && results[n].isDynamic == r.out[n].DynamicModule?
    decreases U - visited.items, 0
  {
    if m in visited.items { return []; }
    visited.items := visited.items + {m};
    ImportsWithin(g, U, m);
    results := [RefOf(m)];
    var rest := CollectModulesOfImports(g, U, g(m).imports, visited);
    results := results + rest;
  }

  method CollectModulesOfImports(g: Modules, ghost U: set<Module>, imports: seq<Module>, visited: VisitedSet)
    returns (results: seq<ModuleRef>)
    requires Closed(Imports(g), U) && Within(imports, U)
    modifies visited
    ensures var r := ModulesAll(g, U, imports, old(visited.items));
            visited.items == r.visited && results == Refs(r.out)
    decreases U - visited.items, 1
  {
    results := [];
    ghost var done: seq<Module> := [];
    ghost var start := visited.items;
    assert imports[0..] == imports;
    for i := 0 to |imports|
      invariant start <= visited.items && results == Refs(done)
      invariant ModulesAll(g, U, imports, start) == After(done, ModulesAll(g, U, imports[i..], visited.items))
    {
      NextImport(g, U, imports[i..], visited.items, done);
      assert imports[i..][1..] == imports[i + 1..];
      ghost var first := ModulesFrom(g, U, imports[i], visited.items).out;
      var sub := CollectModules(g, U, imports[i], visited);
      results := results + sub;
      done := done + first;
    }
  }

  lemma NextImport(g: Modules, U: set<Module>, ms: seq<Module>, visited: set<Module>, done: seq<Module>)
    requires Closed(Imports(g), U) && Within(ms, U) && ms != []
    ensures var first := ModulesFrom(g, U, ms[0], visited);
            After(done, ModulesAll(g, U, ms, visited)) == After(done + first.out, ModulesAll(g, U, ms[1..], first.visited))
  {
    var first := ModulesFrom(g, U, ms[0], visited);
    var rest := ModulesAll(g, U, ms[1..], first.visited);
    assert done + (first.out + rest.out) == (done + first.out) + rest.out;
  }

  ghost function After<T>(done: seq<T>, rest: Visit<T>): Visit<T> {
    Visit(done + rest.out, rest.visited)
  }

  ghost function Refs(ms: seq<Module>): seq<ModuleRef> {
    seq(|ms|, i requires 0 <= i < |ms| => RefOf(ms[i]))
  }

  method CollectControllers(g: Modules, ghost U: set<Module>, m: Module, visited: VisitedSet) returns (controllers: seq<nat>)
    requires Closed(Imports(g), U) && m in U
    modifies visited
    ensures Visit(controllers, visited.items) == Controllers(g, U, m, old(visited.items))
    decreases U - visited.items, 0
  {
    if m in visited.items { return []; }
    visited.items := visited.items + {m};
    ImportsWithin(g, U, m);
    controllers := CollectControllersOfImports(g, U, g(m).imports, visited);
    var own := OwnControllers(g(m).controllers);
    controllers := controllers + own;
  }

  method CollectControllersOfImports(g: Modules, ghost U: set<Module>, imports: seq<Module>, visited: VisitedSet)
    returns (controllers: seq<nat>)
    requires Closed(Imports(g), U) && Within(imports, U)
    modifies visited
    ensures Visit(controllers, visited.items) == ControllersAll(g, U, imports, old(visited.items))
    decreases U - visited.items, 1
  {
    controllers := [];
    ghost var start := visited.items;
    assert imports[0..] == imports;
    for i := 0 to |imports|
      invariant start <= visited.items
      invariant ControllersAll(g, U, imports, start) == After(controllers, ControllersAll(g, U, imports[i..], visited.items))
    {
      assert imports[i..][0] == imports[i] && imports[i..][1..] == imports[i + 1..];
      ghost var first := Controllers(g, U, imports[i], visited.items);
      ghost var rest := ControllersAll(g, U, imports[i + 1..], first.visited);
      var sub := CollectControllers(g, U, imports[i], visited);
      assert controllers + (first.out + rest.out) == (controllers + first.out) + rest.out;
      controllers := controllers + sub;
    }
  }

  method OwnControllers(entries: seq<Entry>) returns (controllers: seq<nat>)
    ensures controllers == ControllerClasses(entries)
  {
    controllers := [];
    assert entries[0..] == entries;
    for i := 0 to |entries|
      invariant controllers + ControllerClasses(entries[i..]) == ControllerClasses(entries)
    {
      assert entries[i..][0] == entries[i] && entries[i..][1..] == entries[i + 1..];
      var cls := entries[i];
      if !cls.NotAClass? {
        controllers := controllers + [cls.id];
      }
    }
  }
}
