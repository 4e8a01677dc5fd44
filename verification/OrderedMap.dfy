// JavaScript's `Map`: setting a key that is there keeps its place, setting a new one appends.
module OrderedMap {
  import opened Options

  datatype Entry<K, V> = Entry(key: K, value: V)

  function Set<K(==), V>(m: seq<Entry<K, V>>, k: K, v: V): seq<Entry<K, V>> {
    if m == [] then [Entry(k, v)]
    else if m[0].key == k then [Entry(k, v)] + m[1..]
    else [m[0]] + Set(m[1..], k, v)
  }

  function Get<K(==), V>(m: seq<Entry<K, V>>, k: K): Option<V> {
    if m == [] then None
    else if m[0].key == k then Some(m[0].value)
    else Get(m[1..], k)
  }

  ghost predicate HasKey<K, V>(m: seq<Entry<K, V>>, k: K) {
    exists i :: 0 <= i < |m| && m[i].key == k
  }

  ghost predicate DistinctKeys<K, V>(m: seq<Entry<K, V>>) {
    forall i, j :: 0 <= i < j < |m| ==> m[i].key != m[j].key
  }

  lemma {:induction false} GetSet<K, V>(m: seq<Entry<K, V>>, k: K, v: V, x: K)
    ensures Get(Set(m, k, v), x) == if x == k then Some(v) else Get(m, x)
  {
    if m != [] && m[0].key != k {
      GetSet(m[1..], k, v, x);
      assert ([m[0]] + Set(m[1..], k, v))[1..] == Set(m[1..], k, v);
    } else if m != [] {
      assert ([Entry(k, v)] + m[1..])[1..] == m[1..];
    }
  }

  lemma {:induction false} GetHas<K, V>(m: seq<Entry<K, V>>, k: K)
    ensures Get(m, k).Some? <==> HasKey(m, k)
  {
    if m != [] && m[0].key != k {
      GetHas(m[1..], k);
      HasKeyTail(m, k);
    }
  }

  lemma {:induction false} GetAt<K, V>(m: seq<Entry<K, V>>, i: nat)
    requires DistinctKeys(m) && i < |m|
    ensures Get(m, m[i].key) == Some(m[i].value)
  {
    if i > 0 {
      assert m[0].key != m[i].key;
      forall a, b | 0 <= a < b < |m[1..]| ensures m[1..][a].key != m[1..][b].key {
        assert m[1..][a] == m[a + 1] && m[1..][b] == m[b + 1];
      }
      GetAt(m[1..], i - 1);
    }
  }

  // A key that is there keeps its place; a new one comes last.
  lemma {:induction false} SetPlaces<K, V>(m: seq<Entry<K, V>>, k: K, v: V)
    ensures HasKey(m, k) ==> |Set(m, k, v)| == |m| && forall i :: 0 <= i < |m| ==> Set(m, k, v)[i].key == m[i].key
    ensures !HasKey(m, k) ==> Set(m, k, v) == m + [Entry(k, v)]
  {
    if m != [] && m[0].key != k {
      SetPlaces(m[1..], k, v);
      HasKeyTail(m, k);
      assert m == [m[0]] + m[1..];
    }
  }

  lemma HasKeyTail<K, V>(m: seq<Entry<K, V>>, k: K)
    requires m != [] && m[0].key != k
    ensures HasKey(m, k) <==> HasKey(m[1..], k)
  {
    if HasKey(m[1..], k) {
      var i :| 0 <= i < |m[1..]| && m[1..][i].key == k;
      assert m[i + 1].key == k;
    }
    if HasKey(m, k) {
      var i :| 0 <= i < |m| && m[i].key == k;
      assert m[1..][i - 1].key == k;
    }
  }

  lemma SetHas<K, V>(m: seq<Entry<K, V>>, k: K, v: V, x: K)
    ensures HasKey(Set(m, k, v), x) <==> x == k || HasKey(m, x)
  {
    GetSet(m, k, v, x);
    GetHas(m, x);
    GetHas(Set(m, k, v), x);
  }

  lemma {:induction false} SetDistinct<K, V>(m: seq<Entry<K, V>>, k: K, v: V)
    requires DistinctKeys(m)
    ensures DistinctKeys(Set(m, k, v))
  {
    if m != [] && m[0].key != k {
      var rest := m[1..];
      forall a, b | 0 <= a < b < |rest| ensures rest[a].key != rest[b].key {
        assert rest[a] == m[a + 1] && rest[b] == m[b + 1];
      }
      SetDistinct(rest, k, v);
      var s := Set(rest, k, v);
      forall b | 0 <= b < |s| ensures s[b].key != m[0].key {
        assert HasKey(s, s[b].key);
        SetHas(rest, k, v, s[b].key);
        if s[b].key != k {
          var c :| 0 <= c < |rest| && rest[c].key == s[b].key;
          assert rest[c] == m[c + 1];
        }
      }
      var r := [m[0]] + s;
      forall a, b | 0 <= a < b < |r| ensures r[a].key != r[b].key {
        if a > 0 { assert r[a] == s[a - 1]; }
        assert r[b] == s[b - 1];
      }
    } else if m != [] {
      var r := [Entry(k, v)] + m[1..];
      forall a, b | 0 <= a < b < |r| ensures r[a].key != r[b].key {
        assert r[a].key == m[a].key && r[b].key == m[b].key;
      }
    }
  }
}
