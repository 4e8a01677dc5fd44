// Maximal marginal relevance: pick the candidate that balances relevance against similarity to
// what has been picked, and repeat.
module Mmr {
  import opened Options

  datatype Hit = Hit(id: string, score: real, embedding: Option<seq<real>>)

  // The similarity of two embeddings: any function.
  type Similarity = (seq<real>, seq<real>) -> real

  const LAMBDA: real := 0.5

  function Max(a: real, b: real): real {
    if a >= b then a else b
  }

  // The largest similarity to a selected document with an embedding, and at least 0.
  function MaxSimilarity(sim: Similarity, e: seq<real>, selected: seq<Hit>): (m: real)
    ensures m >= 0.0
  {
    if selected == [] then 0.0
    else
      var last, before := selected[|selected| - 1], MaxSimilarity(sim, e, selected[..|selected| - 1]);
      if last.embedding.None? then before else Max(before, sim(e, last.embedding.value))
  }

  // It bounds every such similarity, and is one of them unless it is 0.
  lemma {:induction false} MaxSimilarityIsGreatest(sim: Similarity, e: seq<real>, selected: seq<Hit>)
    ensures forall i :: 0 <= i < |selected| && selected[i].embedding.Some? ==>
              sim(e, selected[i].embedding.value) <= MaxSimilarity(sim, e, selected)
    ensures MaxSimilarity(sim, e, selected) == 0.0 || exists i ::
              0 <= i < |selected| && selected[i].embedding.Some?
              && sim(e, selected[i].embedding.value) == MaxSimilarity(sim, e, selected)
  {
    if selected != [] {
      var n := |selected| - 1;
      var before := selected[..n];
      MaxSimilarityIsGreatest(sim, e, before);
      assert forall i :: 0 <= i < n ==> selected[i] == before[i];
    }
  }

  function MmrScore(sim: Similarity, c: Hit, selected: seq<Hit>): real
    requires c.embedding.Some?
  {
    LAMBDA * c.score - (1.0 - LAMBDA) * MaxSimilarity(sim, c.embedding.value, selected)
  }

  // `b` is the first of the candidates with the largest score; those without embedding do not count.
  ghost predicate IsEarliestBest(sim: Similarity, candidates: seq<Hit>, selected: seq<Hit>, b: nat) {
    && b < |candidates| && candidates[b].embedding.Some?
    && (forall i :: 0 <= i < |candidates| && candidates[i].embedding.Some? ==>
          MmrScore(sim, candidates[i], selected) <= MmrScore(sim, candidates[b], selected))
    && (forall i :: 0 <= i < b && candidates[i].embedding.Some? ==>
          MmrScore(sim, candidates[i], selected) < MmrScore(sim, candidates[b], selected))
  }

  ghost predicate NoneEmbedded(candidates: seq<Hit>) {
    forall i :: 0 <= i < |candidates| ==> candidates[i].embedding.None?
  }

  lemma EarliestBestUnique(sim: Similarity, candidates: seq<Hit>, selected: seq<Hit>, a: nat, b: nat)
    requires IsEarliestBest(sim, candidates, selected, a) && IsEarliestBest(sim, candidates, selected, b)
    ensures a == b
  {}

  // The index a selection step takes, as the program finds it.
  function Best(sim: Similarity, candidates: seq<Hit>, selected: seq<Hit>): (b: Option<nat>)
    ensures b.Some? ==> b.value < |candidates| && candidates[b.value].embedding.Some?
  {
    if candidates == [] then None
    else
      var n := |candidates| - 1;
      var last := candidates[n];
      match Best(sim, candidates[..n], selected)
      case None => if last.embedding.Some? then Some(n) else None
      case Some(b) =>
        if last.embedding.Some? && MmrScore(sim, last, selected) > MmrScore(sim, candidates[b], selected) then Some(n)
        else Some(b)
  }

  lemma {:induction false} BestIsEarliest(sim: Similarity, candidates: seq<Hit>, selected: seq<Hit>)
    ensures var b := Best(sim, candidates, selected);
            if b.Some? then IsEarliestBest(sim, candidates, selected, b.value) else NoneEmbedded(candidates)
  {
    if candidates != [] {
      BestIsEarliest(sim, candidates[..|candidates| - 1], selected);
    }
  }

  datatype Selection = Selection(selected: seq<Hit>, remaining: seq<Hit>)

  function Without<T>(xs: seq<T>, i: nat): (ys: seq<T>)
    requires i < |xs|
  {
    xs[..i] + xs[i + 1..]
  }

  // One round: push the best candidate and splice it out.
  function Round(sim: Similarity, s: Selection): Selection {
    match Best(sim, s.remaining, s.selected)
    case None => s
    case Some(b) => Selection(s.selected + [s.remaining[b]], Without(s.remaining, b))
  }

  // The selection after n rounds.
  function After(sim: Similarity, candidates: seq<Hit>, n: nat): Selection {
    if n == 0 then Selection([], candidates) else Round(sim, After(sim, candidates, n - 1))
  }

  function Embedded(hits: seq<Hit>): nat {
    if hits == [] then 0 else Embedded(hits[..|hits| - 1]) + if hits[|hits| - 1].embedding.Some? then 1 else 0
  }

  // --- What the rounds do ---

  lemma {:induction false} EmbeddedConcat(a: seq<Hit>, b: seq<Hit>)
    ensures Embedded(a + b) == Embedded(a) + Embedded(b)
  {
    if b == [] {
      assert a + b == a;
    } else {
      assert (a + b)[..|a + b| - 1] == a + b[..|b| - 1];
      EmbeddedConcat(a, b[..|b| - 1]);
    }
  }

  lemma {:induction false} EmbeddedZero(hits: seq<Hit>)
    ensures Embedded(hits) == 0 <==> NoneEmbedded(hits)
  {
    if hits != [] { EmbeddedZero(hits[..|hits| - 1]); }
  }

  lemma WithoutOne(xs: seq<Hit>, i: nat)
    requires i < |xs| && xs[i].embedding.Some?
    ensures multiset(Without(xs, i)) + multiset{xs[i]} == multiset(xs)
    ensures Embedded(Without(xs, i)) + 1 == Embedded(xs)
  {
    assert xs == xs[..i] + ([xs[i]] + xs[i + 1..]);
    EmbeddedBetween(xs[..i], [xs[i]], xs[i + 1..]);
  }

  lemma EmbeddedBetween(a: seq<Hit>, x: seq<Hit>, b: seq<Hit>)
    requires |x| == 1 && x[0].embedding.Some?
    ensures Embedded(a + b) + 1 == Embedded(a + (x + b))
  {
    EmbeddedConcat(a, x + b);
    EmbeddedConcat(x, b);
    EmbeddedConcat(a, b);
    assert Embedded(x) == 1 by { assert x[..0] == []; }
  }

  ghost predicate Partition(candidates: seq<Hit>, s: Selection) {
    && multiset(s.selected) + multiset(s.remaining) == multiset(candidates)
    && Embedded(s.remaining) + |s.selected| == Embedded(candidates)
    && forall i :: 0 <= i < |s.selected| ==> s.selected[i].embedding.Some?
  }

  lemma RoundPartition(sim: Similarity, candidates: seq<Hit>, s: Selection)
    requires Partition(candidates, s)
    ensures var s' := Round(sim, s);
            && Partition(candidates, s')
            && s.selected <= s'.selected
            && |s'.selected| == |s.selected| + (if Embedded(s.remaining) > 0 then 1 else 0)
  {
    EmbeddedZero(s.remaining);
    BestIsEarliest(sim, s.remaining, s.selected);
    var b := Best(sim, s.remaining, s.selected);
    if b.Some? { WithoutOne(s.remaining, b.value); }
  }

  // Nothing is lost or invented; every pick has an embedding; the number of picks is the number
  // of rounds or of embedded candidates, whichever is less.
  lemma {:induction false} RoundsPartition(sim: Similarity, candidates: seq<Hit>, n: nat)
    ensures Partition(candidates, After(sim, candidates, n))
    ensures |After(sim, candidates, n).selected| == if n <= Embedded(candidates) then n else Embedded(candidates)
  {
    if n > 0 {
      RoundsPartition(sim, candidates, n - 1);
      RoundPartition(sim, candidates, After(sim, candidates, n - 1));
    }
  }

  lemma RoundsCount(sim: Similarity, candidates: seq<Hit>, n: nat)
    ensures |After(sim, candidates, n).selected| == if n <= Embedded(candidates) then n else Embedded(candidates)
  {
    RoundsPartition(sim, candidates, n);
  }

  lemma RoundGrows(sim: Similarity, s: Selection)
    ensures s.selected <= Round(sim, s).selected
  {}

  lemma PrefixTrans(a: seq<Hit>, b: seq<Hit>, c: seq<Hit>)
    requires a <= b && b <= c
    ensures a <= c
  {}

  // `first` is what was selected after m rounds.
  lemma {:induction false} RoundsGrow(sim: Similarity, candidates: seq<Hit>, first: seq<Hit>, m: nat, n: nat)
    requires m <= n && First(sim, candidates, first, m)
    ensures First(sim, candidates, first, n)
    decreases n
  {
    if m < n {
      RoundsGrow(sim, candidates, first, m, n - 1);
      GrowsOnce(sim, candidates, first, n - 1, n);
    }
  }

  ghost predicate First(sim: Similarity, candidates: seq<Hit>, first: seq<Hit>, n: nat) {
    first <= After(sim, candidates, n).selected
  }

  lemma GrowsOnce(sim: Similarity, candidates: seq<Hit>, first: seq<Hit>, k: nat, n: nat)
    requires n == k + 1 && First(sim, candidates, first, k)
    ensures First(sim, candidates, first, n)
  {
    var before := After(sim, candidates, k);
    RoundGrows(sim, before);
    PrefixTrans(first, before.selected, Round(sim, before).selected);
  }

  // Round m picks the earliest maximiser, as long as a candidate with an embedding is left.
  lemma RoundPicks(sim: Similarity, candidates: seq<Hit>, m: nat) returns (b: nat)
    requires m < Embedded(candidates)
    ensures var before, after := After(sim, candidates, m), After(sim, candidates, m + 1);
            && |before.selected| == m
            && IsEarliestBest(sim, before.remaining, before.selected, b)
            && after == Selection(before.selected + [before.remaining[b]], Without(before.remaining, b))
  {
    RoundsPartition(sim, candidates, m);
    var before := After(sim, candidates, m);
    EmbeddedZero(before.remaining);
    BestIsEarliest(sim, before.remaining, before.selected);
    b := Best(sim, before.remaining, before.selected).value;
  }

  lemma PicksArePrefixes(sim: Similarity, candidates: seq<Hit>, n: nat, m: nat)
    requires m < |After(sim, candidates, n).selected|
    ensures m < n && m < Embedded(candidates)
    ensures After(sim, candidates, m).selected == After(sim, candidates, n).selected[..m]
    ensures After(sim, candidates, m + 1).selected == After(sim, candidates, n).selected[..m + 1]
  {
    RoundsCount(sim, candidates, n);
    PickIsPrefix(sim, candidates, n, m);
    PickIsPrefix(sim, candidates, n, m + 1);
  }

  lemma PickIsPrefix(sim: Similarity, candidates: seq<Hit>, n: nat, m: nat)
    requires m <= n && m <= Embedded(candidates)
    ensures |After(sim, candidates, m).selected| == m <= |After(sim, candidates, n).selected|
    ensures After(sim, candidates, m).selected == After(sim, candidates, n).selected[..m]
  {
    RoundsCount(sim, candidates, m);
    RoundsGrow(sim, candidates, After(sim, candidates, m).selected, m, n);
  }

  // Pick m is the earliest maximiser of the score against the m picks before it.
  lemma {:induction false} EachPickIsEarliestBest(sim: Similarity, candidates: seq<Hit>, n: nat, m: nat) returns (b: nat)
    requires m < |After(sim, candidates, n).selected|
    ensures var s, before := After(sim, candidates, n).selected, After(sim, candidates, m);
            && before.selected == s[..m]
            && IsEarliestBest(sim, before.remaining, s[..m], b)
            && s[m] == before.remaining[b]
  {
    PicksArePrefixes(sim, candidates, n, m);
    b := RoundPicks(sim, candidates, m);
    var s := After(sim, candidates, n).selected;
    assert s[m] == s[..m + 1][m];
  }

  // Main result: relevance and similarity to the picks before weigh the same.
  lemma {:induction false} PickTradesEvenly(sim: Similarity, candidates: seq<Hit>, n: nat, m: nat, c: nat)
    returns (b: nat)
    requires m < |After(sim, candidates, n).selected|
    requires var left := After(sim, candidates, m).remaining; c < |left| && left[c].embedding.Some?
    ensures var s, left := After(sim, candidates, n).selected, After(sim, candidates, m).remaining;
            && b < |left| && left[b] == s[m] && s[m].embedding.Some?
            && left[c].score - MaxSimilarity(sim, left[c].embedding.value, s[..m]) <=
               s[m].score - MaxSimilarity(sim, s[m].embedding.value, s[..m])
  {
    b := EachPickIsEarliestBest(sim, candidates, n, m);
  }

  // So the first pick is a most relevant candidate.
  lemma {:induction false} FirstPickIsMostRelevant(sim: Similarity, candidates: seq<Hit>, n: nat, c: nat)
    requires After(sim, candidates, n).selected != [] && c < |candidates| && candidates[c].embedding.Some?
    ensures candidates[c].score <= After(sim, candidates, n).selected[0].score
  {
    assert After(sim, candidates, 0) == Selection([], candidates);
    var b := PickTradesEvenly(sim, candidates, n, 0, c);
    assert After(sim, candidates, n).selected[..0] == [];
  }

  lemma MoreSelectedMoreSimilar(sim: Similarity, e: seq<real>, selected: seq<Hit>, x: Hit)
    ensures MaxSimilarity(sim, e, selected) <= MaxSimilarity(sim, e, selected + [x])
  {
    assert (selected + [x])[..|selected|] == selected;
  }

  // A later pick scored no better than the earlier winner, then or since.
  lemma LaterScoresNoBetter(sim: Similarity, before: Selection, b: nat, c: nat)
    requires IsEarliestBest(sim, before.remaining, before.selected, b)
    requires c < |Without(before.remaining, b)| && Without(before.remaining, b)[c].embedding.Some?
    ensures MmrScore(sim, Without(before.remaining, b)[c], before.selected + [before.remaining[b]])
            <= MmrScore(sim, before.remaining[b], before.selected)
  {
    var i := if c < b then c else c + 1;
    var x := Without(before.remaining, b)[c];
    assert x == before.remaining[i];
    MoreSelectedMoreSimilar(sim, x.embedding.value, before.selected, before.remaining[b]);
  }

  // The winning scores never increase.
  lemma {:induction false} ScoresFall(sim: Similarity, candidates: seq<Hit>, n: nat, m: nat)
    requires m + 1 < |After(sim, candidates, n).selected|
    ensures var s := After(sim, candidates, n).selected;
            && s[m].embedding.Some? && s[m + 1].embedding.Some?
            && MmrScore(sim, s[m + 1], s[..m + 1]) <= MmrScore(sim, s[m], s[..m])
  {
    var s := After(sim, candidates, n).selected;
    PicksArePrefixes(sim, candidates, n, m);
    PicksArePrefixes(sim, candidates, n, m + 1);
    var b := RoundPicks(sim, candidates, m);
    var c := RoundPicks(sim, candidates, m + 1);
    var before := After(sim, candidates, m);
    LaterScoresNoBetter(sim, before, b, c);
    assert s[m] == s[..m + 1][m] && s[m + 1] == s[..m + 2][m + 1];
  }

  // --- As written: two nested scans, `push` and `splice` ---

  method MaxSimilarityTo(sim: Similarity, e: seq<real>, selected: seq<Hit>) returns (maxSimilarity: real)
    ensures maxSimilarity == MaxSimilarity(sim, e, selected)
  {
    maxSimilarity := 0.0;
    for i := 0 to |selected|
      invariant maxSimilarity == MaxSimilarity(sim, e, selected[..i])
    {
      assert selected[..i + 1][..i] == selected[..i];
      if selected[i].embedding.Some? {
        maxSimilarity := Max(maxSimilarity, sim(e, selected[i].embedding.value));
      }
    }
    assert selected[..|selected|] == selected;
  }

  method FindBest(sim: Similarity, candidates: seq<Hit>, selected: seq<Hit>) returns (bestIdx: int)
    ensures -1 <= bestIdx < |candidates|
    ensures Best(sim, candidates, selected) == if bestIdx >= 0 then Some(bestIdx) else None
  {
    // None stands for minus infinity.
    var bestScore: Option<real> := None;
    bestIdx := -1;
    for i := 0 to |candidates|
      invariant -1 <= bestIdx < i || (i == 0 && bestIdx == -1)
      invariant bestScore.Some? <==> bestIdx >= 0
      invariant bestIdx < 0 ==> NoneEmbedded(candidates[..i])
      invariant bestIdx >= 0 ==>
                  && IsEarliestBest(sim, candidates[..i], selected, bestIdx)
                  && bestScore.value == MmrScore(sim, candidates[bestIdx], selected)
    {
      var candidate := candidates[i];
      assert candidates[..i + 1] == candidates[..i] + [candidate];
      if candidate.embedding.None? { continue; }
      var maxSimilarity := MaxSimilarityTo(sim, candidate.embedding.value, selected);
      var mmrScore := LAMBDA * candidate.score - (1.0 - LAMBDA) * maxSimilarity;
      if bestScore.None? || mmrScore > bestScore.value {
        bestScore, bestIdx := Some(mmrScore), i;
      }
    }
    assert candidates[..|candidates|] == candidates;
    BestIsEarliest(sim, candidates, selected);
    if bestIdx >= 0 && Best(sim, candidates, selected).Some? {
      EarliestBestUnique(sim, candidates, selected, bestIdx, Best(sim, candidates, selected).value);
    }
  }

  // `found` is what the vector store returned for 3 * topK.
  method RetrieveWithMMR(sim: Similarity, found: seq<Hit>, topK: int) returns (selected: seq<Hit>)
    ensures selected == After(sim, found, if topK < 0 then 0 else topK).selected
  {
    var candidates := found;
    selected := [];
    ghost var n := 0;
    ghost var rounds: nat := if topK < 0 then 0 else topK;
    while |selected| < topK && |candidates| > 0
      invariant n <= rounds && |selected| == n && AfterIs(sim, found, n, selected, candidates)
      decreases |candidates|
    {
      var bestIdx := FindBest(sim, candidates, selected);
      if bestIdx < 0 {
        NoMoreRounds(sim, found, n, rounds, selected, candidates);
        return;
      }
      TakesRound(sim, found, n, selected, candidates, bestIdx);
      selected := selected + [candidates[bestIdx]];
      candidates := candidates[..bestIdx] + candidates[bestIdx + 1..];
      n := n + 1;
    }
    if n < rounds {
      NoMoreRounds(sim, found, n, rounds, selected, candidates);
    }
  }

  ghost predicate AfterIs(sim: Similarity, found: seq<Hit>, n: nat, selected: seq<Hit>, remaining: seq<Hit>) {
    After(sim, found, n) == Selection(selected, remaining)
  }

  lemma TakesRound(sim: Similarity, found: seq<Hit>, n: nat, selected: seq<Hit>, remaining: seq<Hit>, b: nat)
    requires AfterIs(sim, found, n, selected, remaining) && Best(sim, remaining, selected) == Some(b)
    ensures b < |remaining|
    ensures AfterIs(sim, found, n + 1, selected + [remaining[b]], remaining[..b] + remaining[b + 1..])
  {
  }

  lemma {:induction false} NoMoreRounds(
    sim: Similarity, found: seq<Hit>, n: nat, rounds: nat, selected: seq<Hit>, remaining: seq<Hit>)
    requires n <= rounds && AfterIs(sim, found, n, selected, remaining) && Best(sim, remaining, selected) == None
    ensures AfterIs(sim, found, rounds, selected, remaining)
    decreases rounds
  {
    if n < rounds { NoMoreRounds(sim, found, n, rounds - 1, selected, remaining); }
  }
}
