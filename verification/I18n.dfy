// Translation trees: listing their keys and looking keys up.
module I18n {
  import opened Collections
  import opened JsText
  import opened Options

  // A translation is a text or an object; the entries of an object in enumeration order.
  datatype Node = Leaf(text: string) | Branch(entries: seq<Entry>)
  datatype Entry = Entry(key: string, node: Node)

  function Field(entries: seq<Entry>, key: string): Option<Node> {
    if entries == [] then None
    else if entries[0].key == key then Some(entries[0].node)
    else Field(entries[1..], key)
  }

  // An object with a `one` or an `other` form.
  predicate IsPlural(n: Node) {
    n.Branch? && (Field(n.entries, "one").Some? || Field(n.entries, "other").Some?)
  }

  predicate IsNamespace(n: Node) {
    n.Branch? && !IsPlural(n)
  }

  // --- Listing ---

  function FullKey(prefix: string, key: string): string {
    if prefix != "" then prefix + "." + key else key
  }

  function Flatten(entries: seq<Entry>, prefix: string): seq<string> {
    if entries == [] then []
    else
      var e := entries[0];
      (if IsNamespace(e.node) then Flatten(e.node.entries, FullKey(prefix, e.key)) else [FullKey(prefix, e.key)])
      + Flatten(entries[1..], prefix)
  }

  ghost function FlattenEntry(e: Entry, prefix: string): seq<string> {
    if IsNamespace(e.node) then Flatten(e.node.entries, FullKey(prefix, e.key)) else [FullKey(prefix, e.key)]
  }

  lemma FlattenStep(entries: seq<Entry>, prefix: string, i: nat)
    requires i < |entries|
    ensures Flatten(entries[i..], prefix) == FlattenEntry(entries[i], prefix) + Flatten(entries[i + 1..], prefix)
  {
    assert entries[i..][0] == entries[i] && entries[i..][1..] == entries[i + 1..];
  }

  lemma PushStep(entries: seq<Entry>, prefix: string, i: nat, keys: seq<string>)
    requires i < |entries| && keys + Flatten(entries[i..], prefix) == Flatten(entries, prefix)
    ensures (keys + FlattenEntry(entries[i], prefix)) + Flatten(entries[i + 1..], prefix) == Flatten(entries, prefix)
  {
    FlattenStep(entries, prefix, i);
  }

  // As written: a recursive loop that pushes.
  method FlattenKeys(entries: seq<Entry>, prefix: string) returns (keys: seq<string>)
    ensures keys == Flatten(entries, prefix)
    decreases entries
  {
    keys := [];
    assert entries[0..] == entries;
    for i := 0 to |entries|
      invariant keys + Flatten(entries[i..], prefix) == Flatten(entries, prefix)
    {
      PushStep(entries, prefix, i, keys);
      var v := entries[i].node;
      var fullKey := if prefix != "" then prefix + "." + entries[i].key else entries[i].key;
      var pushed: seq<string>;
      if IsNamespace(v) {
        pushed := FlattenKeys(v.entries, fullKey);
      } else {
        pushed := [fullKey];
      }
      keys := keys + pushed;
    }
  }

  // --- Looking up ---

  function Walk(n: Node, parts: seq<string>): Option<Node>
    decreases |parts|
  {
    if parts == [] then Some(n)
    else if n.Leaf? then None
    else
      match Field(n.entries, parts[0])
      case None => None
      case Some(child) => Walk(child, parts[1..])
  }

  function Lookup(map_: Option<seq<Entry>>, key: string): Option<Node> {
    match map_
    case None => None
    case Some(entries) => Walk(Branch(entries), Split(key, '.'))
  }

  // As written: one step of the node for each part; None stands for `undefined`.
  method ResolveInMap(key: string, map_: Option<seq<Entry>>) returns (found: Option<Node>)
    ensures found == Lookup(map_, key)
  {
    if map_.None? { return None; }
    var parts := Split(key, '.');
    var node: Option<Node> := Some(Branch(map_.value));
    assert parts[0..] == parts;
    for i := 0 to |parts|
      invariant if node.Some? then Walk(node.value, parts[i..]) == Lookup(map_, key)
                else Lookup(map_, key) == None
    {
      if node.None? || node.value.Leaf? { return None; }
      assert parts[i..][0] == parts[i] && parts[i..][1..] == parts[i + 1..];
      node := Field(node.value.entries, parts[i]);
    }
    return node;
  }

  // `resolve`: the locale first, then the fallback locale if it is another one.
  datatype Store = Store(locales: map<string, seq<Entry>>, fallback: string)

  function MapOf(store: Store, locale: string): Option<seq<Entry>> {
    if locale in store.locales then Some(store.locales[locale]) else None
  }

  function Resolve(store: Store, key: string, locale: string): Option<Node> {
    match Lookup(MapOf(store, locale), key)
    case Some(n) => Some(n)
    case None =>
      if store.fallback != "" && store.fallback != locale then Lookup(MapOf(store, store.fallback), key) else None
  }

  function GetKeys(store: Store, locale: string): seq<string> {
    match MapOf(store, locale)
    case None => []
    case Some(entries) => Flatten(entries, "")
  }

  predicate Has(store: Store, key: string, locale: string) {
    Resolve(store, key, locale).Some?
  }

  // --- What a tree must be like ---

  ghost predicate DistinctKeys(entries: seq<Entry>) {
    forall i, j :: 0 <= i < j < |entries| ==> entries[i].key != entries[j].key
  }

  // Objects have no key twice; segments are not empty and hold no dot.
  ghost predicate Tidy(n: Node) {
    n.Branch? ==>
      && DistinctKeys(n.entries)
      && forall i :: 0 <= i < |n.entries| ==>
           n.entries[i].key != "" && Free(n.entries[i].key, '.') && Tidy(n.entries[i].node)
  }

  // --- The paths a listing should hold ---

  // `parts` leads from n through namespaces to `end`, which is a text or a plural.
  ghost predicate LeadsTo(n: Node, parts: seq<string>, end: Node)
    decreases |parts|
  {
    && parts != [] && n.Branch?
    && Field(n.entries, parts[0]).Some?
    && var child := Field(n.entries, parts[0]).value;
       if IsNamespace(child) then LeadsTo(child, parts[1..], end) else |parts| == 1 && child == end
  }

  lemma {:induction false} FieldAt(entries: seq<Entry>, i: nat)
    requires DistinctKeys(entries) && i < |entries|
    ensures Field(entries, entries[i].key) == Some(entries[i].node)
  {
    if i > 0 {
      assert entries[0].key != entries[i].key;
      forall a, b | 0 <= a < b < |entries[1..]| ensures entries[1..][a].key != entries[1..][b].key {
        assert entries[1..][a] == entries[a + 1] && entries[1..][b] == entries[b + 1];
      }
      FieldAt(entries[1..], i - 1);
    }
  }

  lemma {:induction false} FieldIndex(entries: seq<Entry>, key: string) returns (i: nat)
    requires Field(entries, key).Some?
    ensures i < |entries| && entries[i].key == key && entries[i].node == Field(entries, key).value
  {
    if entries[0].key == key {
      i := 0;
    } else {
      i := FieldIndex(entries[1..], key);
      i := i + 1;
    }
  }

  lemma {:induction false} LeadsToWalks(n: Node, parts: seq<string>, end: Node)
    requires LeadsTo(n, parts, end)
    ensures Walk(n, parts) == Some(end) && (end.Leaf? || IsPlural(end))
    decreases |parts|
  {
    var child := Field(n.entries, parts[0]).value;
    if IsNamespace(child) {
      LeadsToWalks(child, parts[1..], end);
    } else {
      assert parts[1..] == [];
    }
  }

  lemma {:induction false} LeadsToFree(n: Node, parts: seq<string>, end: Node)
    requires Tidy(n) && LeadsTo(n, parts, end)
    ensures AllFree(parts, '.') && parts[0] != ""
    decreases |parts|
  {
    var i := FieldIndex(n.entries, parts[0]);
    assert Tidy(n.entries[i].node);
    if IsNamespace(n.entries[i].node) {
      LeadsToFree(n.entries[i].node, parts[1..], end);
      forall j | 0 <= j < |parts| ensures Free(parts[j], '.') {
        if j > 0 { assert parts[j] == parts[1..][j - 1]; }
      }
    }
  }

  // The key a path is listed under.
  function PathKey(prefix: string, parts: seq<string>): string {
    FullKey(prefix, Join(parts, '.'))
  }

  lemma PathKeyStep(prefix: string, key: string, rest: seq<string>)
    requires key != "" && rest != []
    ensures PathKey(FullKey(prefix, key), rest) == PathKey(prefix, [key] + rest)
  {
    assert ([key] + rest)[1..] == rest;
    assert (prefix + "." + key) + "." + Join(rest, '.') == prefix + "." + (key + ['.'] + Join(rest, '.'));
  }

  lemma TidyParts(entries: seq<Entry>)
    requires Tidy(Branch(entries)) && entries != []
    ensures entries[0].key != "" && Free(entries[0].key, '.') && Tidy(entries[0].node)
    ensures Tidy(Branch(entries[1..])) && Field(entries[1..], entries[0].key).None?
  {
    var tail := entries[1..];
    forall a, b | 0 <= a < b < |tail| ensures tail[a].key != tail[b].key {
      assert tail[a] == entries[a + 1] && tail[b] == entries[b + 1];
    }
    forall i | 0 <= i < |tail| ensures tail[i].key != "" && Free(tail[i].key, '.') && Tidy(tail[i].node) {
      assert tail[i] == entries[i + 1];
    }
    if Field(tail, entries[0].key).Some? {
      var i := FieldIndex(tail, entries[0].key);
      assert false;
    }
  }

  // Every listed key is the key of a path to a text or a plural.
  lemma {:induction false} ListedIsPath(entries: seq<Entry>, prefix: string, key: string)
    returns (parts: seq<string>, end: Node)
    requires Tidy(Branch(entries)) && key in Flatten(entries, prefix)
    ensures LeadsTo(Branch(entries), parts, end) && key == PathKey(prefix, parts)
    decreases entries
  {
    TidyParts(entries);
    var e := entries[0];
    if key in Flatten(entries[1..], prefix) {
      parts, end := ListedIsPath(entries[1..], prefix, key);
      assert parts[0] != e.key;
    } else if IsNamespace(e.node) {
      parts, end := ListedIsPath(e.node.entries, FullKey(prefix, e.key), key);
      PathKeyStep(prefix, e.key, parts);
      assert ([e.key] + parts)[1..] == parts;
      parts := [e.key] + parts;
    } else {
      parts, end := [e.key], e.node;
    }
  }

  // Every such path is listed.
  lemma {:induction false} PathIsListed(entries: seq<Entry>, prefix: string, parts: seq<string>, end: Node)
    requires Tidy(Branch(entries)) && LeadsTo(Branch(entries), parts, end)
    ensures PathKey(prefix, parts) in Flatten(entries, prefix)
    decreases entries
  {
    TidyParts(entries);
    var e := entries[0];
    if parts[0] != e.key {
      PathIsListed(entries[1..], prefix, parts, end);
    } else if IsNamespace(e.node) {
      PathIsListed(e.node.entries, FullKey(prefix, e.key), parts[1..], end);
      assert parts == [e.key] + parts[1..];
      PathKeyStep(prefix, e.key, parts[1..]);
    } else {
      assert parts == [e.key];
    }
  }

  lemma PathKeyInjective(prefix: string, p: seq<string>, q: seq<string>)
    requires p != [] && q != [] && AllFree(p, '.') && AllFree(q, '.')
    requires PathKey(prefix, p) == PathKey(prefix, q)
    ensures p == q
  {
    if prefix != "" {
      var a, b := Join(p, '.'), Join(q, '.');
      assert (prefix + "." + a)[|prefix| + 1..] == a && (prefix + "." + b)[|prefix| + 1..] == b;
    }
    JoinInjective(p, q, '.');
  }

  // The keys of different entries differ.
  lemma HeadKeysDiffer(entries: seq<Entry>, prefix: string, x: string, y: string)
    requires Tidy(Branch(entries)) && entries != []
    requires x in Flatten([entries[0]], prefix) && y in Flatten(entries[1..], prefix)
    ensures x != y
  {
    TidyParts(entries);
    var one := [entries[0]];
    assert Tidy(Branch(one));
    var p, end := ListedIsPath(one, prefix, x);
    var q, end' := ListedIsPath(entries[1..], prefix, y);
    var i := FieldIndex(one, p[0]);
    assert q[0] != entries[0].key;
    LeadsToFree(Branch(one), p, end);
    LeadsToFree(Branch(entries[1..]), q, end');
    if x == y { PathKeyInjective(prefix, p, q); }
  }

  lemma {:induction false} FlattenDistinct(entries: seq<Entry>, prefix: string)
    requires Tidy(Branch(entries))
    ensures Distinct(Flatten(entries, prefix))
    decreases entries
  {
    if entries != [] {
      TidyParts(entries);
      var e := entries[0];
      var head := if IsNamespace(e.node) then Flatten(e.node.entries, FullKey(prefix, e.key)) else [FullKey(prefix, e.key)];
      var tail := Flatten(entries[1..], prefix);
      if IsNamespace(e.node) { FlattenDistinct(e.node.entries, FullKey(prefix, e.key)); }
      FlattenDistinct(entries[1..], prefix);
      assert Flatten([e], prefix) == head by {
        assert [e][1..] == [];
        assert head + [] == head;
      }
      var all := head + tail;
      forall i, j | 0 <= i < j < |all| ensures all[i] != all[j] {
        if i < |head| <= j { HeadKeysDiffer(entries, prefix, all[i], all[j]); }
      }
    }
  }

  // What a key is listed for.
  ghost predicate ListedFor(entries: seq<Entry>, key: string, end: Node) {
    LeadsTo(Branch(entries), Split(key, '.'), end)
  }

  // Main result: `getKeys` lists without repetition exactly the paths to texts and plurals, and
  // looking a listed key up gives what it was listed for.
  lemma {:induction false} KeysAndLookupInvert(entries: seq<Entry>, key: string)
    requires Tidy(Branch(entries))
    ensures Distinct(Flatten(entries, ""))
    ensures key in Flatten(entries, "") <==> exists end :: ListedFor(entries, key, end)
    ensures forall end :: ListedFor(entries, key, end) ==>
              Lookup(Some(entries), key) == Some(end) && (end.Leaf? || IsPlural(end))
  {
    FlattenDistinct(entries, "");
    if key in Flatten(entries, "") {
      var parts, end := ListedIsPath(entries, "", key);
      LeadsToFree(Branch(entries), parts, end);
      SplitJoin(parts, '.');
      assert ListedFor(entries, key, end);
    }
    forall end | ListedFor(entries, key, end)
      ensures key in Flatten(entries, "")
      ensures Lookup(Some(entries), key) == Some(end) && (end.Leaf? || IsPlural(end))
    {
      PathIsListed(entries, "", Split(key, '.'), end);
      JoinSplit(key, '.');
      LeadsToWalks(Branch(entries), Split(key, '.'), end);
    }
  }

  // Hence every key of a locale exists in it, whatever the fallback is.
  lemma {:induction false} ListedKeysExist(store: Store, locale: string, key: string)
    requires locale in store.locales && Tidy(Branch(store.locales[locale]))
    requires key in GetKeys(store, locale)
    ensures Has(store, key, locale)
    ensures Resolve(store, key, locale) == Lookup(Some(store.locales[locale]), key)
    ensures var n := Resolve(store, key, locale).value; n.Leaf? || IsPlural(n)
  {
    KeysAndLookupInvert(store.locales[locale], key);
  }

  // Main result: a key exists in a locale when it resolves there or in the fallback; the locale's
  // own translation counts first, also where it is a namespace.
  lemma {:induction false} FallbackDecides(store: Store, locale: string, key: string)
    requires locale in store.locales && store.fallback in store.locales
    requires Tidy(Branch(store.locales[locale])) && Tidy(Branch(store.locales[store.fallback]))
    ensures key in GetKeys(store, locale) ==> exists end :: ListedFor(store.locales[locale], key, end) && Resolve(store, key, locale) == Some(end)
    ensures store.fallback != "" && key in GetKeys(store, store.fallback) ==>
              && Has(store, key, locale)
              && (Lookup(Some(store.locales[locale]), key).None? ==>
                    exists end :: ListedFor(store.locales[store.fallback], key, end) && Resolve(store, key, locale) == Some(end))
    ensures Has(store, key, locale) <==>
            || Lookup(Some(store.locales[locale]), key).Some?
            || (store.fallback != "" && Lookup(Some(store.locales[store.fallback]), key).Some?)
  {
    KeysAndLookupInvert(store.locales[locale], key);
    KeysAndLookupInvert(store.locales[store.fallback], key);
  }

  // Without the locale or the fallback only the other one counts, and nothing without both.
  lemma {:induction false} MissingLocales(store: Store, locale: string, key: string)
    ensures locale !in store.locales && store.fallback != "" && store.fallback in store.locales ==>
              Resolve(store, key, locale) == Lookup(Some(store.locales[store.fallback]), key)
    ensures locale in store.locales && (store.fallback == "" || store.fallback !in store.locales) ==>
              Resolve(store, key, locale) == Lookup(Some(store.locales[locale]), key)
    ensures locale !in store.locales && (store.fallback == "" || store.fallback !in store.locales) ==>
              !Has(store, key, locale) && GetKeys(store, locale) == []
  {}

  // Either form makes a plural; an object without both is a namespace.
  lemma {:induction false} PluralForms(form: string, text: string)
    requires form != "" && Free(form, '.')
    ensures Flatten([Entry("n", Branch([Entry(form, Leaf(text))]))], "") ==
            if form == "one" || form == "other" then ["n"] else ["n." + form]
  {
    var forms := [Entry(form, Leaf(text))];
    var entries := [Entry("n", Branch(forms))];
    assert forms[1..] == [] && entries[1..] == [];
    assert Field([], "one") == None && Field([], "other") == None;
    assert FullKey("n", form) == "n." + form;
    assert Flatten(forms, "n") == ["n." + form];
  }

  // A proper part of the path already ends at a plural.
  ghost predicate ThroughPlural(n: Node, parts: seq<string>)
    decreases |parts|
  {
    && |parts| >= 2 && n.Branch? && Field(n.entries, parts[0]).Some?
    && var child := Field(n.entries, parts[0]).value;
       IsPlural(child) || ThroughPlural(child, parts[1..])
  }

  lemma {:induction false} WalksUnlisted(n: Node, parts: seq<string>, end: Node)
    requires n.Branch? && parts != [] && Walk(n, parts) == Some(end)
    ensures LeadsTo(n, parts, end) <==> !IsNamespace(end) && !ThroughPlural(n, parts)
    decreases |parts|
  {
    var child := Field(n.entries, parts[0]).value;
    if |parts| == 1 {
      assert parts[1..] == [];
    } else if IsNamespace(child) {
      WalksUnlisted(child, parts[1..], end);
    }
  }

  // Main result: which keys exist without being listed.  Those of namespaces, and those of what
  // lies inside a plural.
  lemma {:induction false} UnlistedKeysExist(entries: seq<Entry>, key: string)
    requires Tidy(Branch(entries)) && Lookup(Some(entries), key).Some?
    ensures key !in Flatten(entries, "") <==>
            IsNamespace(Lookup(Some(entries), key).value) || ThroughPlural(Branch(entries), Split(key, '.'))
  {
    var end := Lookup(Some(entries), key).value;
    KeysAndLookupInvert(entries, key);
    WalksUnlisted(Branch(entries), Split(key, '.'), end);
    if key in Flatten(entries, "") {
      var listed :| ListedFor(entries, key, listed);
      assert listed == end;
    } else {
      assert !ListedFor(entries, key, end);
    }
  }

  // Both kinds occur.
  lemma {:induction false} UnlistedKeysWitness()
    ensures var entries := [Entry("a", Branch([Entry("b", Leaf("x"))])), Entry("n", Branch([Entry("one", Leaf("y"))]))];
            && Flatten(entries, "") == ["a.b", "n"]
            && Lookup(Some(entries), "a") == Some(entries[0].node)
            && Lookup(Some(entries), "n.one") == Some(Leaf("y"))
  {
    var entries := [Entry("a", Branch([Entry("b", Leaf("x"))])), Entry("n", Branch([Entry("one", Leaf("y"))]))];
    TwoListed(entries[0], entries[1]);
    NestedWitness("a", "b", "x");
    PluralWitness("n", "y");
    assert "a" + "." + "b" == "a.b" && ["a.b"] + ["n"] == ["a.b", "n"];
    SplitJoin(["a"], '.');
    WalkOne(Branch(entries), "a");
    assert Join(["n", "one"], '.') == "n.one";
    SplitJoin(["n", "one"], '.');
    WalkTwo(Branch(entries), "n", "one", Leaf("y"));
  }

  lemma TwoListed(a: Entry, b: Entry)
    ensures Flatten([a, b], "") == FlattenEntry(a, "") + FlattenEntry(b, "")
  {
    FlattenStep([a, b], "", 0);
    FlattenStep([a, b], "", 1);
    assert [a, b][0..] == [a, b] && [a, b][2..] == [];
  }

  lemma WalkOne(n: Node, key: string)
    requires n.Branch?
    ensures Walk(n, [key]) == Field(n.entries, key)
  {
    assert [key][1..] == [];
  }

  lemma NestedWitness(key: string, inner: string, text: string)
    requires key != "" && inner != "one" && inner != "other"
    ensures FlattenEntry(Entry(key, Branch([Entry(inner, Leaf(text))])), "") == [key + "." + inner]
  {
    var below := [Entry(inner, Leaf(text))];
    assert below[1..] == [] && Field([], "one") == None && Field([], "other") == None;
    assert Flatten(below, key) == [key + "." + inner];
  }

  lemma PluralWitness(key: string, text: string)
    ensures FlattenEntry(Entry(key, Branch([Entry("one", Leaf(text))])), "") == [key]
  {}

  lemma WalkTwo(n: Node, key: string, inner: string, end: Node)
    requires n.Branch? && Field(n.entries, key).Some?
    requires var child := Field(n.entries, key).value; child.Branch? && Field(child.entries, inner) == Some(end)
    ensures Walk(n, [key, inner]) == Some(end)
  {
    assert [key, inner][1..] == [inner] && [inner][1..] == [];
    assert Walk(Field(n.entries, key).value, [inner]) == Some(end);
  }
}
