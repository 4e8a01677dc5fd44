// Sizes of finite sets, and sequences without repetition.
module Collections {

  // A subset is not larger, and as large only if it is the whole set.
  lemma {:induction false} CardMono<T>(a: set<T>, b: set<T>)
    requires a <= b
    ensures |a| <= |b| && (|a| == |b| ==> a == b)
    decreases |a|
  {
    if x :| x in a {
      CardMono(a - {x}, b - {x});
      if |a| == |b| { assert a == (a - {x}) + {x} && b == (b - {x}) + {x}; }
    } else if |a| == |b| {
      assert b == {};
    }
  }

  ghost function Image<A, B>(S: set<A>, f: A -> B): set<B> {
    set x | x in S :: f(x)
  }

  lemma {:induction false} ImageCard<A, B>(S: set<A>, f: A -> B)
    requires forall x, y :: x in S && y in S && f(x) == f(y) ==> x == y
    ensures |Image(S, f)| == |S|
    decreases |S|
  {
    if x0 :| x0 in S {
      ImageCard(S - {x0}, f);
      assert Image(S, f) == Image(S - {x0}, f) + {f(x0)};
    }
  }

  lemma Regroup<T>(a: seq<T>, b: seq<T>, c: seq<T>)
    ensures a + (b + c) == (a + b) + c
  {}

  ghost predicate Distinct<T>(xs: seq<T>) {
    forall i, j :: 0 <= i < j < |xs| ==> xs[i] != xs[j]
  }

  ghost predicate DistinctBy<T, K>(f: T -> K, xs: seq<T>) {
    forall i, j :: 0 <= i < j < |xs| ==> f(xs[i]) != f(xs[j])
  }

  // Rearranging keeps the elements distinct in that respect.
  lemma PermutedDistinct<T, K>(f: T -> K, xs: seq<T>, ys: seq<T>)
    requires multiset(ys) == multiset(xs) && DistinctBy(f, xs)
    ensures DistinctBy(f, ys)
  {
    forall i, j | 0 <= i < j < |ys| ensures f(ys[i]) != f(ys[j]) {
      var x, y := ys[i], ys[j];
      if f(x) == f(y) {
        assert x in multiset(xs) && y in multiset(xs);
        var a :| 0 <= a < |xs| && xs[a] == x;
        var b :| 0 <= b < |xs| && xs[b] == y;
        assert a == b;
        assert ys == ys[..j] + [y] + ys[j + 1..];
        assert x in ys[..j] by { assert ys[..j][i] == x; }
        assert multiset(ys)[x] >= 2;
        OnceOnly(f, xs, a);
      }
    }
  }

  lemma OnceOnly<T, K>(f: T -> K, xs: seq<T>, a: nat)
    requires DistinctBy(f, xs) && a < |xs|
    ensures multiset(xs)[xs[a]] == 1
  {
    assert xs == xs[..a] + [xs[a]] + xs[a + 1..];
    assert xs[a] !in xs[..a] && xs[a] !in xs[a + 1..];
  }
}
