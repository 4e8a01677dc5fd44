// Finite directed graphs given by a successor function.  The dependency graph of the
// container and the import graph of the modules are both instances.
module Graphs {

  ghost predicate IsPath<T(!new)>(succ: T -> seq<T>, p: seq<T>) {
    |p| > 0 && forall i :: 0 <= i < |p| - 1 ==> p[i + 1] in succ(p[i])
  }

  ghost predicate Within<T(!new)>(p: seq<T>, nodes: set<T>) {
    forall i :: 0 <= i < |p| ==> p[i] in nodes
  }

  // A path that comes back to the node it started from.
  ghost predicate IsCycle<T(!new)>(succ: T -> seq<T>, p: seq<T>) {
    IsPath(succ, p) && |p| >= 2 && p[0] == p[|p| - 1]
  }

  ghost predicate CycleFree<T(!new)>(succ: T -> seq<T>, nodes: set<T>) {
    forall p: seq<T> :: IsCycle(succ, p) ==> !Within(p, nodes)
  }

  ghost predicate Connects<T(!new)>(succ: T -> seq<T>, p: seq<T>, a: T, b: T) {
    IsPath(succ, p) && p[0] == a && p[|p| - 1] == b
  }

  ghost predicate Reachable<T(!new)>(succ: T -> seq<T>, a: T, b: T) {
    exists p: seq<T> :: Connects(succ, p, a, b)
  }

  ghost predicate Closed<T(!new)>(succ: T -> seq<T>, nodes: set<T>) {
    forall a, b :: a in nodes && b in succ(a) ==> b in nodes
  }

  // `rank` falls along every edge that stays inside `nodes`.
  ghost predicate IsRank<T(!new)>(succ: T -> seq<T>, nodes: set<T>, rank: map<T, nat>) {
    && rank.Keys == nodes
    && (forall a :: a in nodes ==> rank[a] < |nodes|)
    && (forall a, b :: a in nodes && b in nodes && b in succ(a) ==> rank[b] < rank[a])
  }

  ghost predicate HasSuccessorIn<T(!new)>(succ: T -> seq<T>, a: T, nodes: set<T>) {
    exists b :: b in succ(a) && b in nodes
  }

  lemma ReachableSelf<T(!new)>(succ: T -> seq<T>, a: T)
    ensures Reachable(succ, a, a)
  {
    assert Connects(succ, [a], a, a);
  }

  lemma ReachableStep<T(!new)>(succ: T -> seq<T>, a: T, b: T, c: T)
    requires b in succ(a) && Reachable(succ, b, c)
    ensures Reachable(succ, a, c)
  {
    var p: seq<T> :| Connects(succ, p, b, c);
    var q := [a] + p;
    forall i | 0 <= i < |q| - 1 ensures q[i + 1] in succ(q[i]) {
      if i > 0 { assert q[i] == p[i - 1] && q[i + 1] == p[i]; }
    }
    assert Connects(succ, q, a, c);
  }

  lemma ReachableTrans<T(!new)>(succ: T -> seq<T>, a: T, b: T, c: T)
    requires Reachable(succ, a, b) && Reachable(succ, b, c)
    ensures Reachable(succ, a, c)
  {
    var p: seq<T> :| Connects(succ, p, a, b);
    PathReaches(succ, p, c);
  }

  lemma {:induction false} PathReaches<T(!new)>(succ: T -> seq<T>, p: seq<T>, c: T)
    requires IsPath(succ, p) && Reachable(succ, p[|p| - 1], c)
    ensures Reachable(succ, p[0], c)
    decreases |p|
  {
    if |p| > 1 {
      var q := p[1..];
      forall i | 0 <= i < |q| - 1 ensures q[i + 1] in succ(q[i]) { assert q[i] == p[i + 1] && q[i + 1] == p[i + 2]; }
      PathReaches(succ, q, c);
      assert p[0 + 1] in succ(p[0]);
      ReachableStep(succ, p[0], q[0], c);
    }
  }

  lemma ReachableFirst<T(!new)>(succ: T -> seq<T>, a: T, c: T) returns (i: nat)
    requires Reachable(succ, a, c) && a != c
    ensures i < |succ(a)| && Reachable(succ, succ(a)[i], c)
  {
    var p: seq<T> :| Connects(succ, p, a, c);
    var q := p[1..];
    assert p[0 + 1] in succ(p[0]);
    i :| 0 <= i < |succ(a)| && succ(a)[i] == q[0];
    forall j | 0 <= j < |q| - 1 ensures q[j + 1] in succ(q[j]) {
      assert q[j] == p[j + 1] && q[j + 1] == p[j + 2];
    }
    assert Connects(succ, q, q[0], c);
  }

  lemma {:induction false} PathStaysClosed<T(!new)>(succ: T -> seq<T>, nodes: set<T>, p: seq<T>)
    requires Closed(succ, nodes) && IsPath(succ, p) && p[0] in nodes
    ensures Within(p, nodes)
    decreases |p|
  {
    if |p| > 1 {
      var q := p[1..];
      forall i | 0 <= i < |q| - 1 ensures q[i + 1] in succ(q[i]) {
        assert q[i] == p[i + 1] && q[i + 1] == p[i + 2];
      }
      assert p[0 + 1] in succ(p[0]);
      PathStaysClosed(succ, nodes, q);
      forall i | 0 <= i < |p| ensures p[i] in nodes {
        if i > 0 { assert p[i] == q[i - 1]; }
      }
    }
  }

  // More positions than nodes: some node repeats.
  lemma {:induction false} Pigeonhole<T(!new)>(p: seq<T>, nodes: set<T>) returns (i: nat, j: nat)
    requires Within(p, nodes) && |p| > |nodes|
    ensures i < j < |p| && p[i] == p[j]
    decreases |nodes|
  {
    var x := p[0];
    if j' :| 1 <= j' < |p| && p[j'] == x {
      i, j := 0, j';
    } else {
      i, j := Pigeonhole(p[1..], nodes - {x});
      i, j := i + 1, j + 1;
    }
  }

  lemma LongPathHasCycle<T(!new)>(succ: T -> seq<T>, p: seq<T>, nodes: set<T>) returns (c: seq<T>)
    requires IsPath(succ, p) && Within(p, nodes) && |p| > |nodes|
    ensures IsCycle(succ, c) && Within(c, nodes) && forall x :: x in c ==> x in p
  {
    var i, j := Pigeonhole(p, nodes);
    c := p[i..j + 1];
    forall l | 0 <= l < |c| - 1 ensures c[l + 1] in succ(c[l]) {
      assert c[l] == p[i + l] && c[l + 1] == p[i + l + 1];
    }
  }

  lemma {:induction false} WalkWithoutSink<T(!new)>(succ: T -> seq<T>, nodes: set<T>, n: nat) returns (p: seq<T>)
    requires nodes != {}
    requires forall a :: a in nodes ==> HasSuccessorIn(succ, a, nodes)
    ensures IsPath(succ, p) && Within(p, nodes) && |p| == n + 1
  {
    if n == 0 {
      var a :| a in nodes;
      p := [a];
    } else {
      var q := WalkWithoutSink(succ, nodes, n - 1);
      assert HasSuccessorIn(succ, q[|q| - 1], nodes);
      var b :| b in succ(q[|q| - 1]) && b in nodes;
      p := q + [b];
    }
  }

  // A finite cycle-free graph has a rank: peel off a sink, rank the rest above it.
  lemma {:induction false} CycleFreeHasRank<T(!new)>(succ: T -> seq<T>, nodes: set<T>) returns (rank: map<T, nat>)
    requires CycleFree(succ, nodes)
    ensures IsRank(succ, nodes, rank)
    decreases |nodes|
  {
    if nodes == {} {
      rank := map[];
    } else {
      if forall a :: a in nodes ==> HasSuccessorIn(succ, a, nodes) {
        var p := WalkWithoutSink(succ, nodes, |nodes|);
        var c := LongPathHasCycle(succ, p, nodes);
        assert false;
      }
      var sink :| sink in nodes && !HasSuccessorIn(succ, sink, nodes);
      var rest := nodes - {sink};
      forall p: seq<T> | IsCycle(succ, p) ensures !Within(p, rest) {
        assert !Within(p, nodes);
      }
      var above := CycleFreeHasRank(succ, rest);
      rank := map a | a in nodes :: if a == sink then 0 else above[a] + 1;
      RankAboveSink(succ, nodes, sink, above, rank);
    }
  }

  lemma RankAboveSink<T(!new)>(succ: T -> seq<T>, nodes: set<T>, sink: T, above: map<T, nat>, rank: map<T, nat>)
    requires sink in nodes && !HasSuccessorIn(succ, sink, nodes)
    requires IsRank(succ, nodes - {sink}, above)
    requires rank == map a | a in nodes :: if a == sink then 0 else above[a] + 1
    ensures IsRank(succ, nodes, rank)
  {
    assert |nodes - {sink}| == |nodes| - 1;
    forall a, b | a in nodes && b in nodes && b in succ(a) ensures rank[b] < rank[a] {
      assert HasSuccessorIn(succ, a, nodes);
    }
  }
}
