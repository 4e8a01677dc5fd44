// Placeholder substitution: `{word}` replaced from a set of variables, as the prompt templates
// and the translations both do it.
module Template {
  import opened Collections
  import opened Options

  type Vars = map<string, string>

  // `\w`
  predicate IsWordChar(c: char) {
    'a' <= c <= 'z' || 'A' <= c <= 'Z' || '0' <= c <= '9' || c == '_'
  }

  function WordLength(s: string): (n: nat)
    ensures n <= |s|
    ensures forall i :: 0 <= i < n ==> IsWordChar(s[i])
    ensures n < |s| ==> !IsWordChar(s[n])
  {
    if s == "" || !IsWordChar(s[0]) then 0 else 1 + WordLength(s[1..])
  }

  predicate IsWord(key: string) {
    key != "" && forall i :: 0 <= i < |key| ==> IsWordChar(key[i])
  }

  // The key of the placeholder at the start of s, if there is one: `{(\w+)}`.
  function PlaceholderAt(s: string): (key: Option<string>)
    ensures key.Some? ==> IsWord(key.value) && |key.value| + 2 <= |s| && s == Shown(key.value) + s[|key.value| + 2..]
  {
    if s == "" || s[0] != '{' then None
    else
      var n := WordLength(s[1..]);
      if n > 0 && n + 1 < |s| && s[n + 1] == '}' then
        assert s == "{" + s[1..n + 1] + "}" + s[n + 2..];
        Some(s[1..n + 1])
      else None
  }

  function Shown(key: string): string {
    "{" + key + "}"
  }

  // `replace(/\{(\w+)\}/g, ...)`: left to right, text that was put in is not scanned again.
  function Substitute(s: string, vars: Vars): string
    decreases |s|
  {
    if s == "" then ""
    else
      match PlaceholderAt(s)
      case Some(key) => (if key in vars then vars[key] else Shown(key)) + Substitute(s[|key| + 2..], vars)
      case None => [s[0]] + Substitute(s[1..], vars)
  }

  // `match(/\{(\w+)\}/g)`: the keys of the placeholders, in order.
  function Placeholders(s: string): seq<string>
    decreases |s|
  {
    if s == "" then []
    else
      match PlaceholderAt(s)
      case Some(key) => [key] + Placeholders(s[|key| + 2..])
      case None => Placeholders(s[1..])
  }

  // Every opening brace starts a placeholder.
  ghost predicate WellFormed(s: string)
    decreases |s|
  {
    s != "" ==>
      match PlaceholderAt(s)
      case Some(key) => WellFormed(s[|key| + 2..])
      case None => s[0] != '{' && WellFormed(s[1..])
  }

  // A brace that starts no placeholder is never followed, after word characters only, by one: text
  // put in there could close the brace.
  ghost predicate Guarded(s: string)
    decreases |s|
  {
    s != "" ==>
      match PlaceholderAt(s)
      case Some(key) => Guarded(s[|key| + 2..])
      case None => (s[0] == '{' ==> PlaceholderAt(AfterWord(s)).None?) && Guarded(s[1..])
  }

  // What follows the first character and the word characters after it.
  ghost function AfterWord(s: string): string
    requires s != ""
  {
    s[1..][WordLength(s[1..])..]
  }

  ghost predicate BraceFree(vars: Vars) {
    forall k :: k in vars ==> '{' !in vars[k]
  }

  // No brace in v starts a placeholder, whatever text comes behind v.
  ghost predicate Inert(v: string) {
    v != "" ==> (v[0] == '{' ==> Breaks(v[1..])) && Inert(v[1..])
  }

  // Behind the word characters at its start v goes on, and not with what would end a placeholder.
  ghost predicate Breaks(v: string) {
    var n := WordLength(v);
    n < |v| && (v[n] == '}' ==> n == 0)
  }

  // Only words are keys of placeholders.
  ghost predicate InertValues(vars: Vars) {
    forall k :: k in vars && IsWord(k) ==> Inert(vars[k])
  }

  // Both sets, the first one deciding.
  ghost function Union(first: Vars, second: Vars): Vars {
    second + first
  }

  // --- Scanning text that was put together ---

  lemma {:induction false} WordLengthOf(key: string, rest: string)
    requires IsWord(key) && rest != "" && !IsWordChar(rest[0])
    ensures WordLength(key + rest) == |key|
  {
    var s := key + rest;
    if |key| > 1 {
      assert s[1..] == key[1..] + rest;
      WordLengthOf(key[1..], rest);
    } else {
      assert s[1..] == rest;
    }
  }

  // A placeholder is found where it stands.
  lemma ShownIsFound(key: string, rest: string)
    requires IsWord(key)
    ensures PlaceholderAt(Shown(key) + rest) == Some(key)
    ensures (Shown(key) + rest)[|key| + 2..] == rest
  {
    var s := Shown(key) + rest;
    assert s[1..] == key + ("}" + rest);
    WordLengthOf(key, "}" + rest);
    assert s[1..|key| + 1] == key;
  }

  lemma PlainChar(c: char, t: string, vars: Vars)
    requires c != '{'
    ensures Substitute([c] + t, vars) == [c] + Substitute(t, vars)
    ensures Placeholders([c] + t) == Placeholders(t)
    ensures WellFormed(t) ==> WellFormed([c] + t)
    ensures Guarded([c] + t) <==> Guarded(t)
  {
    assert ([c] + t)[1..] == t;
  }

  lemma {:induction false} PlainPrefix(v: string, t: string, vars: Vars)
    requires '{' !in v
    ensures Substitute(v + t, vars) == v + Substitute(t, vars)
    ensures Placeholders(v + t) == Placeholders(t)
    ensures WellFormed(t) ==> WellFormed(v + t)
    ensures Guarded(v + t) <==> Guarded(t)
  {
    if v == "" {
      assert v + t == t;
    } else {
      var c, w := v[0], v[1..];
      assert c in v && v == [c] + w;
      PlainPrefix(w, t, vars);
      PlainChar(c, w + t, vars);
      Regroup([c], w, t);
      Regroup([c], w, Substitute(t, vars));
    }
  }

  lemma {:induction false} BraceFreeIsInert(v: string)
    requires '{' !in v
    ensures Inert(v)
  {
    if v != "" { BraceFreeIsInert(v[1..]); }
  }

  lemma {:induction false} InertTail(v: string, n: nat)
    requires Inert(v) && n <= |v|
    ensures Inert(v[n..])
  {
    if n > 0 { InertTail(v[1..], n - 1); }
  }

  lemma {:induction false} WordLengthStays(w: string, t: string)
    requires WordLength(w) < |w|
    ensures WordLength(w + t) == WordLength(w)
  {
    assert (w + t)[0] == w[0] && (w + t)[1..] == w[1..] + t;
    if IsWordChar(w[0]) { WordLengthStays(w[1..], t); }
  }

  lemma BraceThen(t: string)
    ensures AfterWord("{" + t) == t[WordLength(t)..]
    ensures Breaks(t) ==> PlaceholderAt("{" + t).None?
  {
    var s := "{" + t;
    assert s[1..] == t;
    assert WordLength(t) < |t| ==> s[WordLength(t) + 1] == t[WordLength(t)];
  }

  lemma BreaksStays(w: string, t: string)
    requires Breaks(w)
    ensures Breaks(w + t) && WordLength(w + t) == WordLength(w)
    ensures PlaceholderAt("{" + (w + t)).None?
  {
    WordLengthStays(w, t);
    BraceThen(w + t);
  }

  // Inert text stays text.
  lemma {:induction false} InertPrefix(v: string, t: string, vars: Vars)
    requires Inert(v)
    ensures Substitute(v + t, vars) == v + Substitute(t, vars)
    ensures Placeholders(v + t) == Placeholders(t)
    ensures Guarded(v + t) <==> Guarded(t)
  {
    if v == "" {
      assert v + t == t;
    } else {
      var c, w := v[0], v[1..];
      assert v == [c] + w;
      InertPrefix(w, t, vars);
      if c == '{' { InertBrace(w, t, vars); } else { PlainChar(c, w + t, vars); }
      Regroup([c], w, t);
      Regroup([c], w, Substitute(t, vars));
    }
  }

  lemma InertBrace(w: string, t: string, vars: Vars)
    requires Breaks(w) && Inert(w)
    ensures Substitute("{" + (w + t), vars) == "{" + Substitute(w + t, vars)
    ensures Placeholders("{" + (w + t)) == Placeholders(w + t)
    ensures Guarded("{" + (w + t)) <==> Guarded(w + t)
  {
    BreaksStays(w, t);
    StrayPrefix(w + t, vars);
    BraceThen(w + t);
    NoneAfterWord(w, t, WordLength(w));
    GuardedStray(w + t);
  }

  lemma NoneInside(u: string, t: string)
    requires u != "" && Inert(u)
    ensures PlaceholderAt(u + t).None?
  {
    if u[0] == '{' {
      BreaksStays(u[1..], t);
      assert "{" + (u[1..] + t) == u + t;
    }
  }

  lemma NoneAfterWord(w: string, t: string, n: nat)
    requires Inert(w) && n < |w|
    ensures PlaceholderAt((w + t)[n..]).None?
  {
    InertTail(w, n);
    NoneInside(w[n..], t);
    DropConcat(w, t, n);
  }

  lemma DropConcat(w: string, t: string, n: nat)
    requires n <= |w|
    ensures (w + t)[n..] == w[n..] + t
  {}

  lemma GuardedStray(t: string)
    requires PlaceholderAt("{" + t).None? && PlaceholderAt(AfterWord("{" + t)).None?
    ensures Guarded("{" + t) <==> Guarded(t)
  {
    assert ("{" + t)[1..] == t;
  }

  lemma ShownPrefix(key: string, t: string, vars: Vars)
    requires IsWord(key)
    ensures Substitute(Shown(key) + t, vars) == (if key in vars then vars[key] else Shown(key)) + Substitute(t, vars)
    ensures Placeholders(Shown(key) + t) == [key] + Placeholders(t)
    ensures WellFormed(t) ==> WellFormed(Shown(key) + t)
    ensures Guarded(Shown(key) + t) <==> Guarded(t)
  {
    ShownIsFound(key, t);
  }

  lemma StrayPrefix(t: string, vars: Vars)
    requires PlaceholderAt("{" + t).None?
    ensures Substitute("{" + t, vars) == "{" + Substitute(t, vars)
    ensures Placeholders("{" + t) == Placeholders(t)
  {
    assert ("{" + t)[1..] == t;
  }

  lemma {:induction false} WordsThen(w: string, t: string)
    requires forall i :: 0 <= i < |w| ==> IsWordChar(w[i])
    ensures WordLength(w + t) == |w| + WordLength(t)
  {
    if w == "" {
      assert w + t == t;
    } else {
      assert (w + t)[1..] == w[1..] + t;
      WordsThen(w[1..], t);
    }
  }

  // A brace that starts no placeholder and is not followed by one starts none after a render.
  lemma StrayStays(s: string, vars: Vars)
    requires s != "" && s[0] == '{' && PlaceholderAt(s).None? && PlaceholderAt(AfterWord(s)).None?
    ensures PlaceholderAt("{" + Substitute(s[1..], vars)).None?
    ensures AfterWord("{" + Substitute(s[1..], vars)) == Substitute(AfterWord(s), vars)
  {
    var n := WordLength(s[1..]);
    var w, u := s[1..][..n], AfterWord(s);
    assert s[1..] == w + u;
    assert '{' !in w;
    PlainPrefix(w, u, vars);
    var t := Substitute(u, vars);
    assert WordLength(t) == 0 && (t != "" ==> t[0] == u[0]) by {
      if u != "" { assert t[0] == u[0] == s[n + 1]; }
    }
    OpenWord(w, t);
  }

  lemma OpenWord(w: string, t: string)
    requires forall i :: 0 <= i < |w| ==> IsWordChar(w[i])
    requires WordLength(t) == 0 && (t == "" || t[0] != '}' || w == "")
    ensures PlaceholderAt("{" + (w + t)).None? && AfterWord("{" + (w + t)) == t
  {
    WordsThen(w, t);
    BraceThen(w + t);
    DropConcat(w, t, |w|);
    if t != "" { assert (w + t)[|w|] == t[0]; }
  }

  // --- Laws ---

  ghost predicate Disjoint(keys: seq<string>, vars: Vars) {
    forall i :: 0 <= i < |keys| ==> keys[i] !in vars
  }

  lemma DisjointStep(key: string, keys: seq<string>, vars: Vars)
    requires Disjoint([key] + keys, vars)
    ensures key !in vars && Disjoint(keys, vars)
  {
    assert ([key] + keys)[0] == key;
    forall i | 0 <= i < |keys| ensures keys[i] !in vars { assert ([key] + keys)[i + 1] == keys[i]; }
  }

  // A set of variables that binds no placeholder changes nothing; in particular the empty one.
  lemma {:induction false} UnboundIsIdentity(s: string, vars: Vars)
    requires Disjoint(Placeholders(s), vars)
    ensures Substitute(s, vars) == s
    decreases |s|
  {
    if s != "" {
      match PlaceholderAt(s)
      case Some(key) =>
        DisjointStep(key, Placeholders(s[|key| + 2..]), vars);
        UnboundIsIdentity(s[|key| + 2..], vars);
      case None =>
        UnboundIsIdentity(s[1..], vars);
        assert s == [s[0]] + s[1..];
    }
  }

  ghost function Open(keys: seq<string>, vars: Vars): seq<string> {
    if keys == [] then []
    else (if keys[0] in vars then [] else [keys[0]]) + Open(keys[1..], vars)
  }

  // Main result: rendering with one set of variables and then with another is rendering once with
  // both, the first deciding.  The placeholders left after a render are those it did not bind.
  lemma {:induction false} RenderTwice(s: string, a: Vars, b: Vars)
    requires Guarded(s) && InertValues(a)
    ensures Composes(s, a, b)
    ensures Guarded(Substitute(s, a)) && (WellFormed(s) && BraceFree(a) ==> WellFormed(Substitute(s, a)))
    ensures Placeholders(Substitute(s, a)) == Open(Placeholders(s), a)
    decreases |s|
  {
    if s != "" {
      match PlaceholderAt(s)
      case Some(key) =>
        RenderTwice(s[|key| + 2..], a, b);
        RenderShown(s, key, a, b);
        OpenStep(key, Placeholders(s[|key| + 2..]), a);
      case None =>
        RenderTwice(s[1..], a, b);
        if s[0] == '{' {
          RenderStray(s, a, b);
        } else {
          PlainPrefix([s[0]], Substitute(s[1..], a), b);
        }
    }
  }

  lemma RenderShown(s: string, key: string, a: Vars, b: Vars)
    requires s != "" && PlaceholderAt(s) == Some(key) && InertValues(a)
    requires var rest := s[|key| + 2..]; Composes(rest, a, b) && Guarded(Substitute(rest, a))
    ensures Composes(s, a, b) && Guarded(Substitute(s, a))
    ensures var rest := s[|key| + 2..];
            && (WellFormed(Substitute(rest, a)) && BraceFree(a) ==> WellFormed(Substitute(s, a)))
            && Placeholders(Substitute(s, a)) ==
               (if key in a then [] else [key]) + Placeholders(Substitute(rest, a))
  {
    var t := Substitute(s[|key| + 2..], a);
    if key in a {
      InertPrefix(a[key], t, b);
      if BraceFree(a) { PlainPrefix(a[key], t, b); }
    } else {
      ShownPrefix(key, t, b);
    }
  }

  lemma OpenStep(key: string, keys: seq<string>, vars: Vars)
    ensures Open([key] + keys, vars) == (if key in vars then [] else [key]) + Open(keys, vars)
  {
    assert ([key] + keys)[1..] == keys;
  }

  ghost predicate Composes(s: string, a: Vars, b: Vars) {
    Substitute(Substitute(s, a), b) == Substitute(s, Union(a, b))
  }

  lemma RenderStray(s: string, a: Vars, b: Vars)
    requires s != "" && s[0] == '{' && PlaceholderAt(s).None? && Guarded(s)
    requires Composes(s[1..], a, b) && Guarded(Substitute(s[1..], a))
    ensures Composes(s, a, b) && Guarded(Substitute(s, a))
    ensures Placeholders(Substitute(s, a)) == Placeholders(Substitute(s[1..], a))
  {
    var t := Substitute(s[1..], a);
    assert Substitute(s, a) == "{" + t;
    StrayStays(s, a);
    StrayPrefix(t, b);
    assert ("{" + t)[1..] == t;
    var u := AfterWord(s);
    if u != "" && u[0] == '{' {
      GuardedAfterWord(s);
      StrayStays(u, a);
    }
  }

  lemma GuardedAfterWord(s: string)
    requires s != "" && Guarded(s[1..])
    ensures Guarded(AfterWord(s))
  {
    var w := s[1..][..WordLength(s[1..])];
    assert s[1..] == w + AfterWord(s);
    PlainPrefix(w, AfterWord(s), map[]);
  }

  lemma {:induction false} WellFormedIsGuarded(s: string)
    requires WellFormed(s)
    ensures Guarded(s)
    decreases |s|
  {
    if s != "" {
      match PlaceholderAt(s)
      case Some(key) => WellFormedIsGuarded(s[|key| + 2..]);
      case None => WellFormedIsGuarded(s[1..]);
    }
  }

  // Keys are made of letters, digits and underscores.
  lemma {:induction false} WordsAsDeclared(c: char)
    ensures 'a' <= c <= 'z' || 'A' <= c <= 'Z' || '0' <= c <= '9' || c == '_' <==>
            PlaceholderAt("{" + [c] + "}") == Some([c])
  {
    if IsWordChar(c) {
      assert "{" + [c] + "}" == Shown([c]) + "";
      ShownIsFound([c], "");
    } else {
      assert ("{" + [c] + "}")[1..][0] == c;
    }
  }

  // --- Exactly when it holds ---

  // Main result: the law holds for all inert values exactly for guarded templates ...
  lemma {:induction false} ComposesIffGuarded(s: string)
    ensures Guarded(s) <==> forall a: Vars, b: Vars :: InertValues(a) ==> Composes(s, a, b)
  {
    if Guarded(s) {
      forall a: Vars, b: Vars | InertValues(a) ensures Composes(s, a, b) { RenderTwice(s, a, b); }
    } else {
      var a: Vars := map key | key in Placeholders(s) :: "x}";
      BraceFreeIsInert("x}");
      var made := StrayMakesPlaceholder(s, a);
      MadeIsFilled(s, a, made);
      assert InertValues(a) && !Composes(s, a, map[made := ""]);
    }
  }

  // ... and for all guarded templates exactly for inert values.
  lemma {:induction false} ComposesIffInert(a: Vars)
    ensures InertValues(a) <==> forall s: string, b: Vars :: Guarded(s) ==> Composes(s, a, b)
  {
    if InertValues(a) {
      forall s: string, b: Vars | Guarded(s) ensures Composes(s, a, b) { RenderTwice(s, a, b); }
    } else {
      var k :| k in a && IsWord(k) && !Inert(a[k]);
      var made := FillingBreaksIt(k, a);
      assert Guarded(Shown(k) + "x}") && !Composes(Shown(k) + "x}", a, map[made := ""]);
    }
  }

  lemma FillingBreaksIt(k: string, a: Vars) returns (made: string)
    requires k in a && IsWord(k) && !Inert(a[k])
    ensures Guarded(Shown(k) + "x}") && !Composes(Shown(k) + "x}", a, map[made := ""])
  {
    OnlyPlaceholder(k, a);
    made := ValueMakesPlaceholder(a[k]);
    MadeIsFilled(Shown(k) + "x}", a, made);
  }

  lemma OnlyPlaceholder(k: string, a: Vars)
    requires IsWord(k) && k in a
    ensures var s := Shown(k) + "x}"; Guarded(s) && Placeholders(s) == [k] && Substitute(s, a) == a[k] + "x}"
  {
    ShownPrefix(k, "x}", a);
    PlainPrefix("x}", "", a);
    assert "x}" + "" == "x}";
  }

  // A placeholder that only the first render made is filled by the second.
  lemma MadeIsFilled(s: string, a: Vars, made: string)
    requires forall key :: key in Placeholders(s) ==> key in a
    requires made in Placeholders(Substitute(s, a))
    ensures !Composes(s, a, map[made := ""])
  {
    BlankShrinks(Substitute(s, a), made);
    AllBound(s, a, map[made := ""]);
  }

  // A value that is not inert has a placeholder, or its last brace is closed by "x}".
  lemma {:induction false} ValueMakesPlaceholder(v: string) returns (made: string)
    requires !Inert(v)
    ensures made in Placeholders(v + "x}")
  {
    if v[0] == '{' && !Breaks(v[1..]) {
      made := BraceMakesPlaceholder(v[1..]);
      assert v + "x}" == "{" + (v[1..] + "x}");
    } else {
      made := ValueMakesPlaceholder(v[1..]);
      SamePlaceholders(v[0], v[1..], "x}");
      assert v + "x}" == [v[0]] + (v[1..] + "x}");
    }
  }

  lemma SamePlaceholders(c: char, w: string, t: string)
    requires c == '{' ==> Breaks(w)
    ensures Placeholders([c] + (w + t)) == Placeholders(w + t)
  {
    if c == '{' {
      BreaksStays(w, t);
      StrayPrefix(w + t, map[]);
    } else {
      PlainChar(c, w + t, map[]);
    }
  }

  lemma BraceMakesPlaceholder(w: string) returns (made: string)
    requires !Breaks(w)
    ensures made in Placeholders("{" + (w + "x}"))
  {
    var n := WordLength(w);
    if n == |w| {
      made := w + "x";
      NowClosed(w, "");
      assert "x}" + "" == "x}";
    } else {
      made := w[..n];
      var rest := w[n + 1..] + "x}";
      assert "{" + (w + "x}") == Shown(made) + rest;
      ShownPrefix(made, rest, map[]);
      assert ([made] + Placeholders(rest))[0] == made;
    }
  }

  // With "x}" for every placeholder, an unguarded brace starts a placeholder of its own.
  lemma {:induction false} StrayMakesPlaceholder(s: string, a: Vars) returns (made: string)
    requires !Guarded(s) && forall key :: key in Placeholders(s) ==> key in a && a[key] == "x}"
    ensures made in Placeholders(Substitute(s, a))
    decreases |s|
  {
    match PlaceholderAt(s)
    case Some(key) =>
      var rest := s[|key| + 2..];
      assert Placeholders(s) == [key] + Placeholders(rest);
      assert key in Placeholders(s);
      made := StrayMakesPlaceholder(rest, a);
      PlainPrefix("x}", Substitute(rest, a), a);
    case None =>
      if s[0] == '{' && PlaceholderAt(AfterWord(s)).Some? {
        made := ClosedBrace(s, a);
      } else {
        made := StrayMakesPlaceholder(s[1..], a);
        if s[0] == '{' {
          StrayStays(s, a);
          StrayPrefix(Substitute(s[1..], a), a);
        } else {
          PlainPrefix([s[0]], Substitute(s[1..], a), a);
        }
      }
  }

  lemma ClosedBrace(s: string, a: Vars) returns (made: string)
    requires s != "" && s[0] == '{' && PlaceholderAt(s).None? && PlaceholderAt(AfterWord(s)).Some?
    requires forall key :: key in Placeholders(s) ==> key in a && a[key] == "x}"
    ensures made in Placeholders(Substitute(s, a))
  {
    var w, u := s[1..][..WordLength(s[1..])], AfterWord(s);
    assert s == "{" + (w + u);
    made := ClosedBehind(w, u, a);
  }

  lemma ClosedBehind(w: string, u: string, a: Vars) returns (made: string)
    requires (forall i :: 0 <= i < |w| ==> IsWordChar(w[i])) && PlaceholderAt("{" + (w + u)).None?
    requires PlaceholderAt(u).Some? && forall key :: key in Placeholders("{" + (w + u)) ==> key in a && a[key] == "x}"
    ensures made in Placeholders(Substitute("{" + (w + u), a))
  {
    BraceBeforeWord(w, u, a);
    var t := ClosedAt(u, a);
    made := w + "x";
    NowClosed(w, t);
  }

  lemma BraceBeforeWord(w: string, u: string, a: Vars)
    requires (forall i :: 0 <= i < |w| ==> IsWordChar(w[i])) && PlaceholderAt("{" + (w + u)).None?
    ensures Placeholders("{" + (w + u)) == Placeholders(u)
    ensures Substitute("{" + (w + u), a) == "{" + (w + Substitute(u, a))
  {
    StrayPrefix(w + u, a);
    PlainPrefix(w, u, a);
  }

  lemma ClosedAt(u: string, a: Vars) returns (t: string)
    requires u != "" && PlaceholderAt(u).Some?
    requires forall key :: key in Placeholders(u) ==> key in a && a[key] == "x}"
    ensures Substitute(u, a) == "x}" + t
  {
    var key := PlaceholderAt(u).value;
    t := Substitute(u[|key| + 2..], a);
    assert Placeholders(u)[0] == key;
  }

  lemma NowClosed(w: string, t: string)
    requires forall i :: 0 <= i < |w| ==> IsWordChar(w[i])
    ensures w + "x" in Placeholders(['{'] + (w + ("x}" + t)))
  {
    assert ['{'] + (w + ("x}" + t)) == Shown(w + "x") + t;
    ShownPrefix(w + "x", t, map[]);
    assert ([w + "x"] + Placeholders(t))[0] == w + "x";
  }

  lemma {:induction false} BlankShrinks(s: string, key: string)
    ensures |Substitute(s, map[key := ""])| <= |s|
    ensures key in Placeholders(s) ==> |Substitute(s, map[key := ""])| < |s|
    decreases |s|
  {
    if s != "" {
      match PlaceholderAt(s)
      case Some(k) => BlankShrinks(s[|k| + 2..], key);
      case None => BlankShrinks(s[1..], key);
    }
  }

  lemma {:induction false} AllBound(s: string, a: Vars, b: Vars)
    requires forall key :: key in Placeholders(s) ==> key in a
    ensures Substitute(s, Union(a, b)) == Substitute(s, a)
    decreases |s|
  {
    if s != "" {
      match PlaceholderAt(s)
      case Some(key) =>
        assert Placeholders(s) == [key] + Placeholders(s[|key| + 2..]);
        assert key in Placeholders(s);
        AllBound(s[|key| + 2..], a, b);
      case None => AllBound(s[1..], a, b);
    }
  }

  // The shortest template for which it fails.
  lemma {:induction false} StrayBraceBreaksIt()
    ensures !Guarded("{{x}}") && !Composes("{{x}}", map["x" := "y"], map["y" := "z"])
    ensures Substitute(Substitute("{{x}}", map["x" := "y"]), map["y" := "z"]) == "z"
    ensures Substitute("{{x}}", Union(map["x" := "y"], map["y" := "z"])) == "{y}"
  {
    StrayX(map["x" := "y"]);
    StrayX(Union(map["x" := "y"], map["y" := "z"]));
    AloneY(map["y" := "z"]);
    if Guarded("{{x}}") {
      RenderTwice("{{x}}", map["x" := "y"], map["y" := "z"]);
      assert false;
    }
  }

  lemma AloneY(vars: Vars)
    requires "y" in vars
    ensures Substitute("{y}", vars) == vars["y"]
  {
    assert "{y}" == Shown("y") + "";
    ShownPrefix("y", "", vars);
  }

  lemma StrayX(vars: Vars)
    requires "x" in vars && vars["x"] == "y"
    ensures Substitute("{{x}}", vars) == "{y}"
  {
    assert "{{x}}" == "{" + (Shown("x") + "}");
    StrayShown("x", vars);
    assert "{" + ("y" + "}") == "{y}";
  }

  lemma StrayShown(key: string, vars: Vars)
    requires IsWord(key) && key in vars
    ensures Substitute("{" + (Shown(key) + "}"), vars) == "{" + (vars[key] + "}")
  {
    DoubleBrace(Shown(key) + "}");
    StrayPrefix(Shown(key) + "}", vars);
    ShownPrefix(key, "}", vars);
    ClosingStays(vars);
  }

  lemma DoubleBrace(t: string)
    requires t != "" && t[0] == '{'
    ensures PlaceholderAt("{" + t).None?
  {
    assert ("{" + t)[1..] == t;
  }

  lemma ClosingStays(vars: Vars)
    ensures Substitute("}", vars) == "}"
  {
    PlainPrefix("}", "", vars);
    assert "}" + "" == "}";
  }

  // --- `render`, steps 4 and 5 ---

  datatype Rendered = Text(s: string) | MissingVariables(keys: seq<string>)

  ghost predicate Unbound(s: string, vars: Vars, key: string) {
    key in Placeholders(s) && key !in vars
  }

  // Main result: strict rendering succeeds exactly when every placeholder is bound; otherwise it
  // names each unbound one, once.
  method Render(template: string, vars: Vars, strict: bool) returns (r: Rendered)
    ensures r.Text? <==> !strict || forall key :: key in Placeholders(template) ==> key in vars
    ensures r.Text? ==> r.s == Substitute(template, vars)
    ensures r.MissingVariables? ==>
              && (forall key :: key in r.keys <==> Unbound(template, vars, key))
              && (forall i, j :: 0 <= i < j < |r.keys| ==> r.keys[i] != r.keys[j])
  {
    if strict {
      var placeholders := Placeholders(template);
      var missing: seq<string> := [];
      for i := 0 to |placeholders|
        invariant forall key :: key in missing <==> key in placeholders[..i] && key !in vars
      {
        var key := placeholders[i];
        if key !in vars {
          missing := missing + [key];
        }
      }
      assert placeholders[..|placeholders|] == placeholders;
      if |missing| > 0 {
        assert missing[0] in missing;
        var unique := Unique(missing);
        return MissingVariables(unique);
      }
    }
    return Text(Substitute(template, vars));
  }

  // `[...new Set(xs)]`
  method Unique(xs: seq<string>) returns (ys: seq<string>)
    ensures forall x :: x in ys <==> x in xs
    ensures forall i, j :: 0 <= i < j < |ys| ==> ys[i] != ys[j]
  {
    ys := [];
    for i := 0 to |xs|
      invariant forall x :: x in ys <==> x in xs[..i]
      invariant forall a, b :: 0 <= a < b < |ys| ==> ys[a] != ys[b]
    {
      if xs[i] !in ys { ys := ys + [xs[i]]; }
    }
  }

  // The translations' `interpolate` is the same substitution.
  function Interpolate(template: string, vars: Option<Vars>): string {
    match vars
    case None => template
    case Some(v) => Substitute(template, v)
  }

  // ... and obeys the same laws.
  lemma {:induction false} InterpolateTwice(template: string, a: Option<Vars>, b: Option<Vars>)
    requires Guarded(template) && (a.Some? ==> InertValues(a.value))
    ensures Interpolate(Interpolate(template, a), b) ==
            if a.Some? && b.Some? then Interpolate(template, Some(Union(a.value, b.value)))
            else if a.Some? then Interpolate(template, a)
            else Interpolate(template, b)
    ensures Interpolate(template, Some(map[])) == template
  {
    if a.Some? && b.Some? { RenderTwice(template, a.value, b.value); }
    UnboundIsIdentity(template, map[]);
  }

  ghost predicate InterpolateComposes(template: string, a: Vars, b: Vars) {
    Interpolate(Interpolate(template, Some(a)), Some(b)) == Interpolate(template, Some(Union(a, b)))
  }

  // ... under exactly the same conditions.
  lemma {:induction false} InterpolateComposesIff(template: string, values: Vars)
    ensures Guarded(template) <==>
            forall a: Vars, b: Vars :: InertValues(a) ==> InterpolateComposes(template, a, b)
    ensures InertValues(values) <==>
            forall s: string, b: Vars :: Guarded(s) ==> InterpolateComposes(s, values, b)
  {
    ComposesIffGuarded(template);
    ComposesIffInert(values);
    forall s: string, a: Vars, b: Vars ensures InterpolateComposes(s, a, b) <==> Composes(s, a, b) {}
  }
}
