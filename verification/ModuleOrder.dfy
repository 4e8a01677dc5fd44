// The order in which the two collectors report modules and controllers.
module ModuleOrder {
  import opened Collections
  import opened Graphs
  import opened ModuleGraph

  ghost predicate HasImporter(g: Modules, out: seq<Module>, j: nat)
    requires j < |out|
  {
    exists i :: 0 <= i < j && out[j] in g(out[i]).imports
  }

  // Every module but those of ms comes after one that imports it.
  ghost predicate AfterImporters(g: Modules, ms: seq<Module>, out: seq<Module>) {
    forall j: nat :: j < |out| ==> out[j] in ms || HasImporter(g, out, j)
  }

  // Main result: the root comes first, and every other module after one that imports it.
  lemma {:induction false} ModulesAfterImporter(g: Modules, U: set<Module>, m: Module, visited: set<Module>)
    requires Closed(Imports(g), U) && m in U && m !in visited
    ensures var out := ModulesFrom(g, U, m, visited).out;
            out != [] && out[0] == m && AfterImporters(g, [m], out)
    decreases U - visited, 0
  {
    ImportsWithin(g, U, m);
    AllAfterImporter(g, U, g(m).imports, visited + {m});
    ImporterBelow(g, m, ModulesAll(g, U, g(m).imports, visited + {m}).out);
  }

  lemma {:induction false} ImporterBelow(g: Modules, m: Module, rest: seq<Module>)
    requires AfterImporters(g, g(m).imports, rest)
    ensures AfterImporters(g, [m], [m] + rest)
  {
    var out := [m] + rest;
    forall j: nat | j < |out| && out[j] !in [m] ensures HasImporter(g, out, j) {
      assert out[j] == rest[j - 1];
      if rest[j - 1] in g(m).imports {
        assert out[j] in g(out[0]).imports;
      } else {
        var i :| 0 <= i < j - 1 && rest[j - 1] in g(rest[i]).imports;
        assert out[j] in g(out[i + 1]).imports;
      }
    }
  }

  lemma {:induction false} AllAfterImporter(g: Modules, U: set<Module>, ms: seq<Module>, visited: set<Module>)
    requires Closed(Imports(g), U) && Within(ms, U)
    ensures AfterImporters(g, ms, ModulesAll(g, U, ms, visited).out)
    decreases U - visited, 1 + |ms|
  {
    if ms != [] {
      var first := ModulesFrom(g, U, ms[0], visited);
      if ms[0] !in visited { ModulesAfterImporter(g, U, ms[0], visited); }
      AllAfterImporter(g, U, ms[1..], first.visited);
      ImporterInConcat(g, ms, first.out, ModulesAll(g, U, ms[1..], first.visited).out);
    }
  }

  lemma {:induction false} ImporterInConcat(g: Modules, ms: seq<Module>, a: seq<Module>, b: seq<Module>)
    requires ms != [] && AfterImporters(g, [ms[0]], a) && AfterImporters(g, ms[1..], b)
    ensures AfterImporters(g, ms, a + b)
  {
    forall j: nat | j < |a + b| && (a + b)[j] !in ms ensures HasImporter(g, a + b, j) {
      if j < |a| {
        var i :| 0 <= i < j && a[j] in g(a[i]).imports;
        assert (a + b)[j] in g((a + b)[i]).imports;
      } else {
        assert (a + b)[j] == b[j - |a|];
        var i :| 0 <= i < j - |a| && b[j - |a|] in g(b[i]).imports;
        assert (a + b)[j] in g((a + b)[i + |a|]).imports;
      }
    }
  }

  // An import comes before the module, unless it was there already or leads back to the module.
  ghost predicate ImportsEarlier(g: Modules, visited: set<Module>, order: seq<Module>) {
    forall i: nat, b :: i < |order| && b in g(order[i]).imports ==>
      b in visited || b in order[..i] || Reachable(Imports(g), b, order[i])
  }

  // The controllers are those of `order`, which has the newly visited modules, each once.
  ghost predicate Reports(g: Modules, visited: set<Module>, r: Visit<nat>, order: seq<Module>) {
    && r.out == ControllersOf(g, order) && Distinct(order) && Elements(order) == r.visited - visited
    && ImportsEarlier(g, visited, order)
  }

  lemma {:induction false} ControllersReport(g: Modules, U: set<Module>, m: Module, visited: set<Module>)
    returns (order: seq<Module>)
    requires Closed(Imports(g), U) && m in U
    ensures Reports(g, visited, Controllers(g, U, m, visited), order)
    ensures m in Controllers(g, U, m, visited).visited
    ensures forall x :: x in order ==> Reachable(Imports(g), m, x)
    decreases U - visited, 0
  {
    order := [];
    if m !in visited {
      ImportsWithin(g, U, m);
      var rest := ControllersAllReport(g, U, g(m).imports, visited + {m});
      order := rest + [m];
      LastReported(g, U, m, visited, rest);
    }
  }

  lemma LastReported(g: Modules, U: set<Module>, m: Module, visited: set<Module>, rest: seq<Module>)
    requires Closed(Imports(g), U) && m in U && m !in visited && Within(g(m).imports, U)
    requires var all := ControllersAll(g, U, g(m).imports, visited + {m});
             Reports(g, visited + {m}, all, rest) && forall x :: x in g(m).imports ==> x in all.visited
    requires forall x :: x in rest ==> exists j :: 0 <= j < |g(m).imports| && Reachable(Imports(g), g(m).imports[j], x)
    ensures Reports(g, visited, Controllers(g, U, m, visited), rest + [m])
    ensures forall x :: x in rest + [m] ==> Reachable(Imports(g), m, x)
  {
    LastControllers(g, rest, m);
    DistinctConcat(rest, [m]);
    assert Elements([m]) == {m};
    ReachableSelf(Imports(g), m);
    forall x | x in rest ensures Reachable(Imports(g), m, x) {
      var j :| 0 <= j < |g(m).imports| && Reachable(Imports(g), g(m).imports[j], x);
      ReachableStep(Imports(g), m, g(m).imports[j], x);
    }
    EarlierWithLast(g, visited, rest, m);
  }

  lemma LastControllers(g: Modules, rest: seq<Module>, m: Module)
    ensures ControllersOf(g, rest + [m]) == ControllersOf(g, rest) + ControllerClasses(g(m).controllers)
  {
    ControllersOfConcat(g, rest, [m]);
    assert ControllersOf(g, [m]) == ControllerClasses(g(m).controllers) + ControllersOf(g, []);
  }

  lemma {:induction false} EarlierWithLast(g: Modules, visited: set<Module>, rest: seq<Module>, m: Module)
    requires ImportsEarlier(g, visited + {m}, rest)
    requires forall x :: x in g(m).imports ==> x in visited || x == m || x in rest
    requires forall x :: x in rest ==> Reachable(Imports(g), m, x)
    requires Reachable(Imports(g), m, m)
    ensures ImportsEarlier(g, visited, rest + [m])
  {
    var order := rest + [m];
    forall i: nat, b | i < |order| && b in g(order[i]).imports
      ensures b in visited || b in order[..i] || Reachable(Imports(g), b, order[i])
    {
      if i < |rest| {
        assert order[..i] == rest[..i] && order[i] == rest[i] && rest[i] in rest;
        assert b in visited + {m} || b in rest[..i] || Reachable(Imports(g), b, rest[i]);
      } else {
        assert order[..i] == rest;
      }
    }
  }

  lemma {:induction false} ControllersAllReport(g: Modules, U: set<Module>, ms: seq<Module>, visited: set<Module>)
    returns (order: seq<Module>)
    requires Closed(Imports(g), U) && Within(ms, U)
    ensures Reports(g, visited, ControllersAll(g, U, ms, visited), order)
    ensures forall x :: x in ms ==> x in ControllersAll(g, U, ms, visited).visited
    ensures forall x :: x in order ==> exists j :: 0 <= j < |ms| && Reachable(Imports(g), ms[j], x)
    decreases U - visited, 1 + |ms|
  {
    order := [];
    if ms != [] {
      var first := Controllers(g, U, ms[0], visited);
      var a := ControllersReport(g, U, ms[0], visited);
      var b := ControllersAllReport(g, U, ms[1..], first.visited);
      order := a + b;
      var rest := ControllersAll(g, U, ms[1..], first.visited);
      ReportsConcat(g, visited, first, rest, a, b);
      assert forall x :: x in ms ==> x == ms[0] || x in ms[1..];
      forall x | x in order ensures exists j :: 0 <= j < |ms| && Reachable(Imports(g), ms[j], x) {
        if x in b {
          var j :| 0 <= j < |ms[1..]| && Reachable(Imports(g), ms[1..][j], x);
          assert Reachable(Imports(g), ms[j + 1], x);
        }
      }
    }
  }

  lemma {:induction false} ReportsConcat(
    g: Modules, visited: set<Module>, first: Visit<nat>, rest: Visit<nat>, a: seq<Module>, b: seq<Module>)
    requires Reports(g, visited, first, a) && Reports(g, first.visited, rest, b)
    requires visited <= first.visited <= rest.visited
    ensures Reports(g, visited, Visit(first.out + rest.out, rest.visited), a + b)
  {
    ControllersOfConcat(g, a, b);
    DistinctConcat(a, b);
    var order := a + b;
    forall i: nat, x | i < |order| && x in g(order[i]).imports
      ensures x in visited || x in order[..i] || Reachable(Imports(g), x, order[i])
    {
      if i < |a| {
        assert order[..i] == a[..i];
      } else {
        assert order[..i] == a + b[..i - |a|];
        if x in first.visited && x !in visited { assert x in Elements(a); }
      }
    }
  }

  // Main result: the controllers are those of the reachable modules, each module's once and in one
  // piece, and after those of its imports, except imports that lead back to it.
  lemma {:induction false} ControllersImportsFirst(g: Modules, U: set<Module>, m: Module) returns (order: seq<Module>)
    requires Closed(Imports(g), U) && m in U
    ensures Controllers(g, U, m, {}).out == ControllersOf(g, order) && Distinct(order)
    ensures forall x :: x in order <==> Reachable(Imports(g), m, x)
    ensures ImportsEarlier(g, {}, order)
  {
    order := ControllersReport(g, U, m, {});
    CollectorsAgree(g, U, m, {});
    ModulesExplore(g, U, m, {});
    CollectsReachable(g, U, m);
    var out := ModulesFrom(g, U, m, {}).out;
    forall x ensures x in order <==> x in out { assert x in Elements(order) <==> x in Elements(out); }
  }

  // `out` are the classes that the entries are or name in `useClass`, `at` their places.
  ghost predicate ListsClasses(entries: seq<Entry>, out: seq<nat>, at: seq<nat>) {
    && |out| == |at|
    && (forall n :: 0 <= n < |at| ==>
          at[n] < |entries| && (entries[at[n]] == ControllerClass(out[n]) || entries[at[n]] == UseClassEntry(out[n])))
    && (forall m, n :: 0 <= m < n < |at| ==> at[m] < at[n])
    && (forall i :: 0 <= i < |entries| && entries[i] != NotAClass ==> i in at)
  }

  // The controllers of one module, in the order of its entries.
  lemma {:induction false} ControllerEntries(entries: seq<Entry>) returns (at: seq<nat>)
    ensures ListsClasses(entries, ControllerClasses(entries), at)
  {
    at := [];
    if entries != [] {
      var init, e := entries[..|entries| - 1], entries[|entries| - 1];
      at := ControllerEntries(init);
      ListsNext(init, e, ControllerClasses(init), at);
      ClassesAppend(init, e);
      assert entries == init + [e];
      if e != NotAClass { at := at + [|init|]; }
    }
  }

  ghost function ClassIn(e: Entry): seq<nat> {
    if e == NotAClass then [] else [e.id]
  }

  lemma ClassesFirst(e: Entry, rest: seq<Entry>)
    ensures ControllerClasses([e] + rest) == ClassIn(e) + ControllerClasses(rest)
  {
    assert ([e] + rest)[1..] == rest;
  }

  lemma {:induction false} ClassesAppend(entries: seq<Entry>, e: Entry)
    ensures ControllerClasses(entries + [e]) == ControllerClasses(entries) + ClassIn(e)
  {
    if entries == [] {
      ClassesFirst(e, []);
      assert entries + [e] == [e] + [];
    } else {
      var x, t := entries[0], entries[1..];
      ClassesAppend(t, e);
      ClassesFirst(x, t);
      ClassesFirst(x, t + [e]);
      Regroup(ClassIn(x), ControllerClasses(t), ClassIn(e));
      assert entries == [x] + t && entries + [e] == [x] + (t + [e]);
    }
  }

  lemma {:induction false} ListsNext(entries: seq<Entry>, e: Entry, out: seq<nat>, at: seq<nat>)
    requires ListsClasses(entries, out, at)
    ensures if e == NotAClass then ListsClasses(entries + [e], out, at)
            else ListsClasses(entries + [e], out + [e.id], at + [|entries|])
  {
    if e != NotAClass {
      var more := at + [|entries|];
      assert more[|at|] == |entries|;
      forall i | 0 <= i < |entries + [e]| && (entries + [e])[i] != NotAClass ensures i in more {
        assert i < |entries| ==> i in at;
      }
    }
  }
}
