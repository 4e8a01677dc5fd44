// `Array.prototype.sort` is stable, so its result is determined by the keys alone:
// it is sorted, and elements with equal keys stay in their order.
module Sorting {

  ghost predicate SortedBy<T(!new)>(key: T -> real, xs: seq<T>) {
    forall i, j :: 0 <= i < j < |xs| ==> key(xs[i]) <= key(xs[j])
  }

  function Insert<T>(key: T -> real, x: T, xs: seq<T>): (ys: seq<T>)
    ensures |ys| == |xs| + 1
  {
    if xs == [] || key(xs[|xs| - 1]) <= key(x) then xs + [x]
    else Insert(key, x, xs[..|xs| - 1]) + [xs[|xs| - 1]]
  }

  function StableSort<T>(key: T -> real, xs: seq<T>): (ys: seq<T>)
    ensures |ys| == |xs|
  {
    if xs == [] then [] else Insert(key, xs[|xs| - 1], StableSort(key, xs[..|xs| - 1]))
  }

  // The elements satisfying p, in order.
  ghost function Select<T>(p: T -> bool, xs: seq<T>): seq<T> {
    if xs == [] then [] else Select(p, xs[..|xs| - 1]) + if p(xs[|xs| - 1]) then [xs[|xs| - 1]] else []
  }

  ghost function HasKey<T>(key: T -> real, v: real): T -> bool {
    x => key(x) == v
  }

  ghost predicate IsStableSort<T(!new)>(key: T -> real, xs: seq<T>, ys: seq<T>) {
    SortedBy(key, ys) && forall v: real :: Select(HasKey(key, v), ys) == Select(HasKey(key, v), xs)
  }

  lemma {:induction false} SelectConcat<T>(p: T -> bool, a: seq<T>, b: seq<T>)
    ensures Select(p, a + b) == Select(p, a) + Select(p, b)
    decreases |b|
  {
    if b == [] {
      assert a + b == a;
    } else {
      assert (a + b)[..|a + b| - 1] == a + b[..|b| - 1];
      SelectConcat(p, a, b[..|b| - 1]);
    }
  }

  lemma {:induction false} SelectMember<T>(p: T -> bool, xs: seq<T>, x: T)
    ensures x in Select(p, xs) <==> x in xs && p(x)
  {
    if xs != [] {
      SelectMember(p, xs[..|xs| - 1], x);
      assert xs == xs[..|xs| - 1] + [xs[|xs| - 1]];
    }
  }

  lemma {:induction false} InsertElements<T>(key: T -> real, x: T, xs: seq<T>)
    ensures multiset(Insert(key, x, xs)) == multiset(xs) + multiset{x}
  {
    if !(xs == [] || key(xs[|xs| - 1]) <= key(x)) {
      InsertElements(key, x, xs[..|xs| - 1]);
      assert xs == xs[..|xs| - 1] + [xs[|xs| - 1]];
    }
  }

  lemma {:induction false} InsertSorted<T(!new)>(key: T -> real, x: T, xs: seq<T>)
    requires SortedBy(key, xs)
    ensures SortedBy(key, Insert(key, x, xs))
  {
    if !(xs == [] || key(xs[|xs| - 1]) <= key(x)) {
      var init, last := xs[..|xs| - 1], xs[|xs| - 1];
      InsertSorted(key, x, init);
      InsertBelow(key, x, init, last);
      SortedAppend(key, Insert(key, x, init), last);
    }
  }

  lemma InsertBelow<T(!new)>(key: T -> real, x: T, init: seq<T>, last: T)
    requires key(x) <= key(last) && forall i :: 0 <= i < |init| ==> key(init[i]) <= key(last)
    ensures forall i :: 0 <= i < |Insert(key, x, init)| ==> key(Insert(key, x, init)[i]) <= key(last)
  {
    InsertElements(key, x, init);
    var ys := Insert(key, x, init);
    forall i | 0 <= i < |ys| ensures key(ys[i]) <= key(last) {
      assert ys[i] in multiset(ys);
      if ys[i] != x { assert ys[i] in init; }
    }
  }

  lemma SortedAppend<T(!new)>(key: T -> real, ys: seq<T>, last: T)
    requires SortedBy(key, ys) && forall i :: 0 <= i < |ys| ==> key(ys[i]) <= key(last)
    ensures SortedBy(key, ys + [last])
  {}

  lemma {:induction false} InsertSelect<T>(key: T -> real, x: T, xs: seq<T>, v: real)
    ensures Select(HasKey(key, v), Insert(key, x, xs)) == Select(HasKey(key, v), xs + [x])
  {
    if !(xs == [] || key(xs[|xs| - 1]) <= key(x)) {
      var p := HasKey(key, v);
      var init, last := xs[..|xs| - 1], xs[|xs| - 1];
      InsertSelect(key, x, init, v);
      SelectConcat(p, Insert(key, x, init), [last]);
      SelectConcat(p, init, [x]);
      SelectConcat(p, init, [last]);
      SelectConcat(p, xs, [x]);
      assert xs == init + [last];
      assert [x][..0] == [] && [last][..0] == [];
      assert Select(p, [x]) == [] || Select(p, [last]) == [];
    }
  }

  lemma {:induction false} StableSortIsStable<T(!new)>(key: T -> real, xs: seq<T>)
    ensures IsStableSort(key, xs, StableSort(key, xs))
  {
    if xs != [] {
      var init, last := xs[..|xs| - 1], xs[|xs| - 1];
      assert xs == init + [last];
      StableSortIsStable(key, init);
      var ys := StableSort(key, init);
      InsertSorted(key, last, ys);
      forall v: real ensures Select(HasKey(key, v), StableSort(key, xs)) == Select(HasKey(key, v), xs) {
        InsertSelect(key, last, ys, v);
        SelectConcat(HasKey(key, v), ys, [last]);
        SelectConcat(HasKey(key, v), init, [last]);
      }
    }
  }

  lemma {:induction false} StableSortElements<T>(key: T -> real, xs: seq<T>)
    ensures multiset(StableSort(key, xs)) == multiset(xs)
  {
    if xs != [] {
      assert xs == xs[..|xs| - 1] + [xs[|xs| - 1]];
      StableSortElements(key, xs[..|xs| - 1]);
      InsertElements(key, xs[|xs| - 1], StableSort(key, xs[..|xs| - 1]));
    }
  }

  lemma SelectLast<T>(p: T -> bool, xs: seq<T>)
    requires xs != [] && p(xs[|xs| - 1])
    ensures Select(p, xs) != [] && Select(p, xs)[|Select(p, xs)| - 1] == xs[|xs| - 1]
  {}

  lemma SelectedIsCommon<T>(p: T -> bool, ys: seq<T>, zs: seq<T>, y: T)
    requires Select(p, ys) == Select(p, zs) && y in ys && p(y)
    ensures y in zs
  {
    SelectMember(p, ys, y);
    SelectMember(p, zs, y);
  }

  lemma LastIsGreatest<T(!new)>(key: T -> real, zs: seq<T>, y: T)
    requires SortedBy(key, zs) && y in zs
    ensures key(y) <= key(zs[|zs| - 1])
  {
    var i :| 0 <= i < |zs| && zs[i] == y;
  }

  lemma LastIsReached<T(!new)>(key: T -> real, ys: seq<T>, zs: seq<T>)
    requires SortedBy(key, zs) && ys != []
    requires Select(HasKey(key, key(ys[|ys| - 1])), ys) == Select(HasKey(key, key(ys[|ys| - 1])), zs)
    ensures zs != [] && key(ys[|ys| - 1]) <= key(zs[|zs| - 1])
  {
    var y := ys[|ys| - 1];
    SelectedIsCommon(HasKey(key, key(y)), ys, zs, y);
    LastIsGreatest(key, zs, y);
  }

  lemma SameLast<T(!new)>(key: T -> real, ys: seq<T>, zs: seq<T>)
    requires SortedBy(key, ys) && SortedBy(key, zs) && ys != []
    requires forall v: real :: Select(HasKey(key, v), ys) == Select(HasKey(key, v), zs)
    ensures zs != [] && zs[|zs| - 1] == ys[|ys| - 1]
  {
    var p := HasKey(key, key(ys[|ys| - 1]));
    assert Select(p, ys) == Select(p, zs);
    LastIsReached(key, ys, zs);
    assert Select(HasKey(key, key(zs[|zs| - 1])), ys) == Select(HasKey(key, key(zs[|zs| - 1])), zs);
    LastIsReached(key, zs, ys);
    SelectLast(p, ys);
    SelectLast(p, zs);
  }

  // There is only one stable sort.
  lemma {:induction false} StableSortUnique<T(!new)>(key: T -> real, ys: seq<T>, zs: seq<T>)
    requires SortedBy(key, ys) && SortedBy(key, zs)
    requires forall v: real :: Select(HasKey(key, v), ys) == Select(HasKey(key, v), zs)
    ensures ys == zs
    decreases |ys|
  {
    if ys == [] {
      if zs != [] { SameLast(key, zs, ys); }
    } else {
      SameLast(key, ys, zs);
      var y := ys[|ys| - 1];
      var a, b := ys[..|ys| - 1], zs[..|zs| - 1];
      forall v: real ensures Select(HasKey(key, v), a) == Select(HasKey(key, v), b) {
        var p := HasKey(key, v);
        assert Select(p, ys) == Select(p, a) + if p(y) then [y] else [];
        assert Select(p, zs) == Select(p, b) + if p(y) then [y] else [];
        assert |Select(p, a)| == |Select(p, b)|;
        assert Select(p, a) == Select(p, ys)[..|Select(p, a)|];
        assert Select(p, b) == Select(p, zs)[..|Select(p, b)|];
      }
      StableSortUnique(key, a, b);
      assert ys == a + [y] && zs == b + [y];
    }
  }

  // Sorting after every push gives what one sort at the end gives.
  lemma {:induction false} SortAfterPush<T(!new)>(key: T -> real, xs: seq<T>, x: T)
    ensures StableSort(key, StableSort(key, xs) + [x]) == StableSort(key, xs + [x])
  {
    var ys := StableSort(key, xs);
    StableSortIsStable(key, xs);
    StableSortIsStable(key, ys + [x]);
    StableSortIsStable(key, xs + [x]);
    forall v: real
      ensures Select(HasKey(key, v), StableSort(key, ys + [x])) == Select(HasKey(key, v), StableSort(key, xs + [x]))
    {
      SelectConcat(HasKey(key, v), ys, [x]);
      SelectConcat(HasKey(key, v), xs, [x]);
    }
    StableSortUnique(key, StableSort(key, ys + [x]), StableSort(key, xs + [x]));
  }

  lemma {:induction false} InsertKeepsSelection<T(!new)>(key: T -> real, p: T -> bool, x: T, xs: seq<T>)
    requires p(x) ==> forall y :: y in xs && p(y) ==> key(y) <= key(x)
    ensures Select(p, Insert(key, x, xs)) == Select(p, xs) + if p(x) then [x] else []
  {
    if xs == [] || key(xs[|xs| - 1]) <= key(x) {
      assert (xs + [x])[..|xs|] == xs;
    } else {
      var init, last := xs[..|xs| - 1], xs[|xs| - 1];
      InsertKeepsSelection(key, p, x, init);
      var ys := Insert(key, x, init);
      assert (ys + [last])[..|ys|] == ys;
    }
  }

  // Elements that arrive in key order leave in the order they arrived, whatever lies between.
  lemma {:induction false} SortKeepsSelection<T(!new)>(key: T -> real, p: T -> bool, xs: seq<T>)
    requires forall i, j :: 0 <= i < j < |xs| && p(xs[i]) && p(xs[j]) ==> key(xs[i]) <= key(xs[j])
    ensures Select(p, StableSort(key, xs)) == Select(p, xs)
  {
    if xs != [] {
      var init, last := xs[..|xs| - 1], xs[|xs| - 1];
      SortKeepsSelection(key, p, init);
      StableSortElements(key, init);
      var ys := StableSort(key, init);
      forall y | y in ys && p(y) && p(last) ensures key(y) <= key(last) {
        assert y in multiset(ys) && y in init;
      }
      InsertKeepsSelection(key, p, last, ys);
    }
  }

  // --- Where each element comes from ---

  // ys[i] is element at[i] of xs, no element twice; smaller keys come first, and of equal ones the
  // one that came first.
  ghost predicate Places<T(!new)>(key: T -> real, xs: seq<T>, ys: seq<T>, at: seq<nat>) {
    && |ys| == |at|
    && (forall i :: 0 <= i < |at| ==> at[i] < |xs| && ys[i] == xs[at[i]])
    && (forall i, j :: 0 <= i < j < |at| ==> Before(key, xs, at[i], at[j]))
  }

  ghost predicate Before<T(!new)>(key: T -> real, xs: seq<T>, a: nat, b: nat) {
    a < |xs| && b < |xs| && (key(xs[a]) < key(xs[b]) || (key(xs[a]) == key(xs[b]) && a < b))
  }

  ghost predicate HasAll(at: seq<nat>, n: nat) {
    forall i :: 0 <= i < n ==> i in at
  }

  lemma {:induction false} InsertPlaces<T(!new)>(key: T -> real, xs: seq<T>, ys: seq<T>, at: seq<nat>, n: nat)
    returns (at': seq<nat>)
    requires Places(key, xs, ys, at) && n < |xs| && forall i :: 0 <= i < |at| ==> at[i] < n
    ensures Places(key, xs, Insert(key, xs[n], ys), at')
    ensures forall i :: i in at' <==> i in at || i == n
  {
    if ys == [] || key(ys[|ys| - 1]) <= key(xs[n]) {
      at' := at + [n];
      forall i | 0 <= i < |at| ensures Before(key, xs, at[i], n) {
        if i < |at| - 1 { assert Before(key, xs, at[i], at[|at| - 1]); }
      }
      PlacesAppend(key, xs, ys, at, n);
    } else {
      var init, last := at[..|at| - 1], at[|at| - 1];
      var rest := InsertPlaces(key, xs, ys[..|ys| - 1], init, n);
      at' := rest + [last];
      forall a | a in rest ensures Before(key, xs, a, last) {
        if a != n { EndsLast(key, xs, ys, at, a); }
      }
      PlacesAppend(key, xs, Insert(key, xs[n], ys[..|ys| - 1]), rest, last);
      assert at == init + [last];
    }
  }

  lemma EndsLast<T(!new)>(key: T -> real, xs: seq<T>, ys: seq<T>, at: seq<nat>, a: nat)
    requires at != [] && Places(key, xs, ys, at) && a in at[..|at| - 1]
    ensures Before(key, xs, a, at[|at| - 1])
  {
    var j :| 0 <= j < |at| - 1 && at[j] == a;
  }

  lemma PlacesAppend<T(!new)>(key: T -> real, xs: seq<T>, ys: seq<T>, at: seq<nat>, last: nat)
    requires Places(key, xs, ys, at) && last < |xs|
    requires forall i :: 0 <= i < |at| ==> Before(key, xs, at[i], last)
    ensures Places(key, xs, ys + [xs[last]], at + [last])
  {}

  // The sort, characterised by positions.
  lemma {:induction false} StableSortPlaces<T(!new)>(key: T -> real, xs: seq<T>) returns (at: seq<nat>)
    ensures Places(key, xs, StableSort(key, xs), at) && HasAll(at, |xs|)
  {
    if xs == [] {
      at := [];
    } else {
      var init := xs[..|xs| - 1];
      var before := StableSortPlaces(key, init);
      PlacesInMore(key, init, xs, StableSort(key, init), before);
      at := InsertPlaces(key, xs, StableSort(key, init), before, |xs| - 1);
    }
  }

  lemma PlacesInMore<T(!new)>(key: T -> real, init: seq<T>, xs: seq<T>, ys: seq<T>, at: seq<nat>)
    requires init <= xs && Places(key, init, ys, at)
    ensures Places(key, xs, ys, at) && forall i :: 0 <= i < |at| ==> at[i] < |init|
  {
    forall i, j | 0 <= i < j < |at| ensures Before(key, xs, at[i], at[j]) { assert Before(key, init, at[i], at[j]); }
  }

  // at lists the positions of the elements that satisfy p, in order, and ys those elements.
  ghost predicate Keeps<T(!new)>(p: T -> bool, xs: seq<T>, ys: seq<T>, at: seq<nat>) {
    && |ys| == |at|
    && (forall n :: 0 <= n < |at| ==> at[n] < |xs| && ys[n] == xs[at[n]] && p(ys[n]))
    && (forall m, n :: 0 <= m < n < |at| ==> at[m] < at[n])
    && (forall i :: 0 <= i < |xs| && p(xs[i]) ==> i in at)
  }

  lemma KeepsNext<T(!new)>(p: T -> bool, xs: seq<T>, x: T, ys: seq<T>, at: seq<nat>)
    requires Keeps(p, xs, ys, at)
    ensures if p(x) then Keeps(p, xs + [x], ys + [x], at + [|xs|]) else Keeps(p, xs + [x], ys, at)
  {
    if p(x) {
      forall i | 0 <= i < |xs + [x]| && p((xs + [x])[i]) ensures i in at + [|xs|] {
        assert (at + [|xs|])[|at|] == |xs|;
        assert i < |xs| ==> i in at;
      }
    }
  }

  lemma {:induction false} SelectKeeps<T(!new)>(p: T -> bool, xs: seq<T>) returns (at: seq<nat>)
    ensures Keeps(p, xs, Select(p, xs), at)
  {
    at := [];
    if xs != [] {
      var init, x := xs[..|xs| - 1], xs[|xs| - 1];
      at := SelectKeeps(p, init);
      KeepsNext(p, init, x, Select(p, init), at);
      assert xs == init + [x];
      if p(x) { at := at + [|init|]; }
    }
  }
}
