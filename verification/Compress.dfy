// Context compression: a median filter, then greedy removal of near-duplicates, then a cut.
module Compress {
  import opened Collections
  import opened Reals
  import opened Sorting

  datatype Passage = Passage(content: string, score: real)

  // The lower-cased, white-space separated words of a text: any function.
  type Tokens = string -> set<string>

  // What the language model, if there is one, answers: the numbers parsed from its reply.
  datatype Reply = NoModel | ModelFails | Numbers(ns: seq<nat>)

  function Jaccard(a: set<string>, b: set<string>): real {
    if |a + b| == 0 then 0.0 else |a * b| as real / |a + b| as real
  }

  // Jaccard similarity is symmetric, lies in [0, 1], and is 1 only for equal sets.
  lemma {:induction false} JaccardLaws(a: set<string>, b: set<string>)
    ensures Jaccard(a, b) == Jaccard(b, a)
    ensures 0.0 <= Jaccard(a, b) <= 1.0
    ensures Jaccard(a, b) == 1.0 <==> a == b && a != {}
  {
    assert a + b == b + a && a * b == b * a;
    CardMono(a * b, a + b);
    if |a + b| > 0 {
      QuotientInUnit(|a * b| as real, |a + b| as real);
      if a * b == a + b {
        forall x ensures x in a <==> x in b { assert x in a * b <==> x in a + b; }
        assert a == b;
      }
      if a == b { assert a * b == a + b; }
    } else {
      assert a <= a + b && a + b == {};
    }
  }

  // Main result: two contents are near-duplicates when they share more than four times as many
  // words as only one of them has.
  lemma {:induction false} NearDuplicates(tokens: Tokens, x: Passage, y: Passage)
    ensures var a, b := tokens(x.content), tokens(y.content);
            Similar(TokenSimilarity(tokens), x, y) <==> |a * b| > 4 * |(a - b) + (b - a)|
  {
    JaccardAbove(tokens(x.content), tokens(y.content));
  }

  lemma JaccardAbove(a: set<string>, b: set<string>)
    ensures Jaccard(a, b) > 0.8 <==> |a * b| > 4 * |(a - b) + (b - a)|
  {
    SharedAndNot(a, b);
    FourTimes(|a * b|, |(a - b) + (b - a)|);
    if |a + b| > 0 {
      QuotientAbove(|a * b| as real, |(a - b) + (b - a)| as real, |a + b| as real);
    }
  }

  lemma QuotientAbove(c: real, o: real, n: real)
    requires n == c + o && n > 0.0
    ensures c / n > 0.8 <==> c > 4.0 * o
  {
    var q := c / n;
    QuotientOf(c, n);
    MulCompares(0.8, q, n);
    assert 0.8 * n < c <==> 4.0 * o < c;
  }

  lemma FourTimes(c: nat, o: nat)
    ensures c > 4 * o <==> c as real > 4.0 * (o as real)
    ensures (c + o) as real == c as real + o as real
  {
    assert (4 * o) as real == 4.0 * (o as real);
  }

  lemma SharedAndNot(a: set<string>, b: set<string>)
    ensures |a + b| == |a * b| + |(a - b) + (b - a)|
  {
    var both, only := a * b, (a - b) + (b - a);
    assert a + b == both + only && both !! only;
  }

  // --- Step 1: the filter ---

  function Ascending(): real -> real {
    (x: real) => x
  }

  function Scores(docs: seq<Passage>): seq<real> {
    seq(|docs|, i requires 0 <= i < |docs| => docs[i].score)
  }

  function Median(docs: seq<Passage>): real
    requires docs != []
  {
    StableSort(Ascending(), Scores(docs))[|docs| / 2]
  }

  ghost function AtLeast(threshold: real): real -> bool {
    (x: real) => x >= threshold
  }

  ghost function Scoring(threshold: real): Passage -> bool {
    (p: Passage) => p.score >= threshold
  }

  ghost function Filtered(docs: seq<Passage>): seq<Passage>
    requires docs != []
  {
    Select(Scoring(Median(docs) * 0.6), docs)
  }

  lemma {:induction false} FilterCount(docs: seq<Passage>, threshold: real)
    ensures |Select(Scoring(threshold), docs)| == |Select(AtLeast(threshold), Scores(docs))|
  {
    if docs != [] {
      FilterCount(docs[..|docs| - 1], threshold);
      assert Scores(docs)[..|docs| - 1] == Scores(docs[..|docs| - 1]);
    }
  }

  lemma {:induction false} InsertCount(p: real -> bool, x: real, xs: seq<real>)
    ensures |Select(p, Insert(Ascending(), x, xs))| == |Select(p, xs)| + if p(x) then 1 else 0
  {
    if xs == [] || xs[|xs| - 1] <= x {
      assert (xs + [x])[..|xs|] == xs;
    } else {
      InsertCount(p, x, xs[..|xs| - 1]);
      var ys := Insert(Ascending(), x, xs[..|xs| - 1]);
      assert (ys + [xs[|xs| - 1]])[..|ys|] == ys;
    }
  }

  lemma {:induction false} SortCount(p: real -> bool, xs: seq<real>)
    ensures |Select(p, StableSort(Ascending(), xs))| == |Select(p, xs)|
  {
    if xs != [] {
      SortCount(p, xs[..|xs| - 1]);
      InsertCount(p, xs[|xs| - 1], StableSort(Ascending(), xs[..|xs| - 1]));
    }
  }

  lemma {:induction false} SelectSuffix(p: real -> bool, xs: seq<real>, k: nat)
    requires k <= |xs| && forall i :: k <= i < |xs| ==> p(xs[i])
    ensures |Select(p, xs)| >= |xs| - k
  {
    if |xs| > k { SelectSuffix(p, xs[..|xs| - 1], k); }
  }

  lemma {:induction false} SelectPrefix(p: real -> bool, xs: seq<real>, k: nat)
    requires k <= |xs| && forall i :: 0 <= i < k ==> !p(xs[i])
    ensures |Select(p, xs)| <= |xs| - k
  {
    if |xs| > k {
      SelectPrefix(p, xs[..|xs| - 1], k);
    } else if k > 0 {
      SelectPrefix(p, xs[..k - 1], k - 1);
    }
  }

  // Main result for step 1: at least half the documents survive exactly when the median is not
  // negative.  A negative one is below 0.6 of itself.
  lemma {:induction false} HalfSurvives(docs: seq<Passage>)
    requires docs != []
    ensures 2 * |Filtered(docs)| >= |docs| <==> Median(docs) >= 0.0
  {
    var median, scores := Median(docs), Scores(docs);
    FilterCount(docs, median * 0.6);
    if median >= 0.0 {
      UpperHalfSurvives(scores, |docs| / 2, median * 0.6);
    } else {
      LowerHalfIsDropped(scores, |docs| / 2, median * 0.6);
    }
  }

  lemma UpperHalfSurvives(scores: seq<real>, k: nat, threshold: real)
    requires k < |scores| && threshold <= StableSort(Ascending(), scores)[k]
    ensures |Select(AtLeast(threshold), scores)| >= |scores| - k
  {
    MedianSplits(scores, k);
    SelectSuffix(AtLeast(threshold), StableSort(Ascending(), scores), k);
    SortCount(AtLeast(threshold), scores);
  }

  lemma LowerHalfIsDropped(scores: seq<real>, k: nat, threshold: real)
    requires k < |scores| && threshold > StableSort(Ascending(), scores)[k]
    ensures |Select(AtLeast(threshold), scores)| < |scores| - k
  {
    MedianSplits(scores, k);
    SelectPrefix(AtLeast(threshold), StableSort(Ascending(), scores), k + 1);
    SortCount(AtLeast(threshold), scores);
  }

  lemma MedianSplits(scores: seq<real>, k: nat)
    requires k < |scores|
    ensures var sorted := StableSort(Ascending(), scores);
            && |sorted| == |scores|
            && (forall i :: 0 <= i <= k ==> sorted[i] <= sorted[k])
            && (forall i :: k <= i < |scores| ==> sorted[k] <= sorted[i])
  {
    StableSortIsStable(Ascending(), scores);
    var sorted := StableSort(Ascending(), scores);
    forall i | 0 <= i < |scores|
      ensures (i <= k ==> sorted[i] <= sorted[k]) && (k <= i ==> sorted[k] <= sorted[i])
    {
      if i < k { assert Ascending()(sorted[i]) <= Ascending()(sorted[k]); }
      if k < i { assert Ascending()(sorted[k]) <= Ascending()(sorted[i]); }
    }
  }

  ghost function Above(threshold: real): real -> bool {
    (x: real) => x > threshold
  }

  // Main result: the median is the score with at most half the documents below it and fewer above.
  lemma {:induction false} MedianRank(docs: seq<Passage>)
    requires docs != []
    ensures Median(docs) in Scores(docs)
    ensures |Select(AtLeast(Median(docs)), Scores(docs))| >= |docs| - |docs| / 2
    ensures |Select(Above(Median(docs)), Scores(docs))| < |docs| - |docs| / 2
  {
    var scores, k, m := Scores(docs), |docs| / 2, Median(docs);
    StableSortElements(Ascending(), scores);
    assert m in multiset(StableSort(Ascending(), scores));
    UpperHalfSurvives(scores, k, m);
    MedianSplits(scores, k);
    SelectPrefix(Above(m), StableSort(Ascending(), scores), k + 1);
    SortCount(Above(m), scores);
  }

  // Something survives exactly when a score reaches the threshold ...
  lemma {:induction false} SurvivesIff(docs: seq<Passage>, threshold: real)
    ensures Select(Scoring(threshold), docs) != [] <==> exists d :: d in docs && d.score >= threshold
  {
    if docs != [] {
      var init, last := docs[..|docs| - 1], docs[|docs| - 1];
      SurvivesIff(init, threshold);
      assert forall d :: d in docs <==> d in init || d == last;
    }
  }

  // ... which the score of an only document does unless it is negative.
  lemma {:induction false} OnlyDocumentDropped(p: Passage)
    ensures Filtered([p]) == [] <==> p.score < 0.0
  {
    OnlyMedian(p);
    HalfSurvives([p]);
  }

  lemma OnlyMedian(p: Passage)
    ensures Median([p]) == p.score
  {
    assert Scores([p]) == [p.score] && [p.score][..0] == [];
    assert StableSort(Ascending(), []) == [];
    assert StableSort(Ascending(), [p.score]) == [p.score];
  }

  // --- Step 2: deduplication ---

  // The similarity of two contents, abstractly.
  type Similarity = (string, string) -> real

  function TokenSimilarity(tokens: Tokens): Similarity {
    (x, y) => Jaccard(tokens(x), tokens(y))
  }

  ghost predicate Similar(sim: Similarity, x: Passage, y: Passage) {
    sim(x.content, y.content) > 0.8
  }

  ghost predicate AnySimilar(sim: Similarity, kept: seq<Passage>, d: Passage) {
    exists i :: 0 <= i < |kept| && Similar(sim, kept[i], d)
  }

  ghost predicate InRange(at: seq<nat>, len: nat) {
    forall n :: 0 <= n < |at| ==> at[n] < len
  }

  // A kept document before document i is too similar to it.
  ghost predicate Covered(sim: Similarity, docs: seq<Passage>, at: seq<nat>, i: nat)
    requires i < |docs| && InRange(at, |docs|)
  {
    exists n :: 0 <= n < |at| && at[n] < i && Similar(sim, docs[at[n]], docs[i])
  }

  // `at` lists which of the first `len` documents are kept: a maximal choice of pairwise
  // dissimilar ones, in order.
  ghost predicate IsGreedyCover(sim: Similarity, docs: seq<Passage>, len: nat, at: seq<nat>)
    requires len <= |docs|
  {
    && InRange(at, len)
    && (forall m, n :: 0 <= m < n < |at| ==> at[m] < at[n] && !Similar(sim, docs[at[m]], docs[at[n]]))
    && (forall i :: 0 <= i < len && i !in at ==> Covered(sim, docs, at, i))
  }

  function Pick(docs: seq<Passage>, at: seq<nat>): seq<Passage>
    requires InRange(at, |docs|)
  {
    seq(|at|, n requires 0 <= n < |at| => docs[at[n]])
  }

  // There is only one such choice.
  lemma {:induction false} GreedyCoverUnique(sim: Similarity, docs: seq<Passage>, a: seq<nat>, b: seq<nat>, i: nat)
    requires IsGreedyCover(sim, docs, |docs|, a) && IsGreedyCover(sim, docs, |docs|, b) && i < |docs|
    requires i in a
    ensures i in b
    decreases i
  {
    if i !in b {
      assert Covered(sim, docs, b, i);
      var n :| 0 <= n < |b| && b[n] < i && Similar(sim, docs[b[n]], docs[i]);
      GreedyCoverUnique(sim, docs, b, a, b[n]);
      assert false;
    }
  }

  lemma AnySimilarAt(sim: Similarity, docs: seq<Passage>, at: seq<nat>, i: nat)
    requires i < |docs| && InRange(at, i)
    ensures AnySimilar(sim, Pick(docs, at), docs[i]) <==> Covered(sim, docs, at, i)
  {
    var kept := Pick(docs, at);
    if AnySimilar(sim, kept, docs[i]) {
      var n :| 0 <= n < |kept| && Similar(sim, kept[n], docs[i]);
      assert Similar(sim, docs[at[n]], docs[i]);
    }
    if Covered(sim, docs, at, i) {
      var n :| 0 <= n < |at| && at[n] < i && Similar(sim, docs[at[n]], docs[i]);
      assert Similar(sim, kept[n], docs[i]);
    }
  }

  lemma CoveredByMore(sim: Similarity, docs: seq<Passage>, at: seq<nat>, i: nat, x: nat)
    requires x < |docs| && i < |docs| && InRange(at, |docs|) && Covered(sim, docs, at, x)
    ensures Covered(sim, docs, at + [i], x)
  {
    var n :| 0 <= n < |at| && at[n] < x && Similar(sim, docs[at[n]], docs[x]);
    assert (at + [i])[n] == at[n];
  }

  lemma ExtendCover(sim: Similarity, docs: seq<Passage>, i: nat, at: seq<nat>)
    requires i < |docs| && IsGreedyCover(sim, docs, i, at)
    ensures Covered(sim, docs, at, i) ==> IsGreedyCover(sim, docs, i + 1, at)
    ensures !Covered(sim, docs, at, i) ==> IsGreedyCover(sim, docs, i + 1, at + [i])
  {
    if !Covered(sim, docs, at, i) {
      var more := at + [i];
      forall x | 0 <= x < i + 1 && x !in more ensures Covered(sim, docs, more, x) {
        assert more[|at|] == i;
        assert x !in at;
        CoveredByMore(sim, docs, at, i, x);
      }
    }
  }

  // As written: one scan, each document compared with those kept so far.
  method Deduplicate(sim: Similarity, filtered: seq<Passage>) returns (deduplicated: seq<Passage>, ghost at: seq<nat>)
    ensures IsGreedyCover(sim, filtered, |filtered|, at) && deduplicated == Pick(filtered, at)
    ensures filtered != [] <==> deduplicated != []
  {
    deduplicated, at := [], [];
    for i := 0 to |filtered|
      invariant IsGreedyCover(sim, filtered, i, at) && deduplicated == Pick(filtered, at)
      invariant i > 0 <==> deduplicated != []
    {
      var isDuplicate := SomeSimilar(sim, deduplicated, filtered[i]);
      AnySimilarAt(sim, filtered, at, i);
      ExtendCover(sim, filtered, i, at);
      if !isDuplicate {
        deduplicated := deduplicated + [filtered[i]];
        at := at + [i];
      }
    }
  }

  // `deduplicated.some(...)`
  method SomeSimilar(sim: Similarity, kept: seq<Passage>, doc: Passage) returns (found: bool)
    ensures found <==> AnySimilar(sim, kept, doc)
  {
    for i := 0 to |kept|
      invariant forall j :: 0 <= j < i ==> !Similar(sim, kept[j], doc)
    {
      if sim(kept[i].content, doc.content) > 0.8 {
        assert Similar(sim, kept[i], doc);
        return true;
      }
    }
    return false;
  }

  // --- The whole of `compress` ---

  function Valid(ns: seq<nat>, len: nat): (indices: seq<nat>)
    ensures forall i :: 0 <= i < |indices| ==> indices[i] < len
  {
    if ns == [] then [] else (if ns[0] < len then [ns[0]] else []) + Valid(ns[1..], len)
  }

  ghost function InLength(len: nat): nat -> bool {
    (n: nat) => n < len
  }

  // The model's usable indices are those it named that are in range, in its order.
  lemma {:induction false} ValidKeeps(ns: seq<nat>, len: nat) returns (at: seq<nat>)
    ensures Keeps<nat>(InLength(len), ns, Valid(ns, len), at)
  {
    at := [];
    if ns != [] {
      var init, n := ns[..|ns| - 1], ns[|ns| - 1];
      at := ValidKeeps(init, len);
      KeepsNext<nat>(InLength(len), init, n, Valid(init, len), at);
      ValidAppend(init, n, len);
      assert ns == init + [n];
      if n < len { at := at + [|init|]; }
    }
  }

  lemma ValidFirst(n: nat, rest: seq<nat>, len: nat)
    ensures Valid([n] + rest, len) == (if n < len then [n] else []) + Valid(rest, len)
  {
    assert ([n] + rest)[1..] == rest;
  }

  lemma {:induction false} ValidAppend(ns: seq<nat>, n: nat, len: nat)
    ensures Valid(ns + [n], len) == Valid(ns, len) + if n < len then [n] else []
  {
    if ns == [] {
      ValidFirst(n, [], len);
      assert ns + [n] == [n] + [];
    } else {
      ValidAppend(ns[1..], n, len);
      ValidFirst(ns[0], ns[1..], len);
      ValidFirst(ns[0], ns[1..] + [n], len);
      Regroup(if ns[0] < len then [ns[0]] else [], Valid(ns[1..], len), if n < len then [n] else []);
      assert ns == [ns[0]] + ns[1..] && ns + [n] == [ns[0]] + (ns[1..] + [n]);
    }
  }

  predicate UsesModel(reply: Reply, kept: nat) {
    reply.Numbers? && kept > 5 && Valid(reply.ns, kept) != []
  }

  method FilterAtLeast(docs: seq<Passage>, threshold: real) returns (filtered: seq<Passage>)
    ensures filtered == Select(Scoring(threshold), docs)
  {
    filtered := [];
    for i := 0 to |docs|
      invariant filtered == Select(Scoring(threshold), docs[..i])
    {
      assert docs[..i + 1][..i] == docs[..i];
      if docs[i].score >= threshold { filtered := filtered + [docs[i]]; }
    }
    assert docs[..|docs|] == docs;
  }

  // What is returned of the kept passages: the ones the model named, in its order, repetitions
  // included; the first five if there is no model, few passages or no usable answer.
  method Choose(reply: Reply, kept: seq<Passage>) returns (result: seq<Passage>)
    ensures UsesModel(reply, |kept|) ==> result == Pick(kept, Valid(reply.ns, |kept|))
    ensures !UsesModel(reply, |kept|) ==> |result| <= 5 && result <= kept && (|kept| <= 5 ==> result == kept)
                                           && (|kept| >= 5 ==> |result| == 5)
    ensures kept != [] <==> result != []
  {
    if reply.Numbers? && |kept| > 5 {
      var indices := Valid(reply.ns, |kept|);
      if |indices| > 0 {
        return Pick(kept, indices);
      }
    }
    result := if |kept| <= 5 then kept else kept[..5];
  }

  // Main result.  A greedy cover of the passages near or above the median, of which the model may
  // choose; something is returned exactly when a score reaches 0.6 of the median, as it does when
  // that is not negative; at most five unless the model chose.
  method Compress(tokens: Tokens, documents: seq<Passage>, reply: Reply)
    returns (result: seq<Passage>, ghost at: seq<nat>)
    ensures documents == [] ==> result == []
    ensures documents != [] ==>
              var filtered := Filtered(documents);
              && IsGreedyCover(TokenSimilarity(tokens), filtered, |filtered|, at)
              && (!UsesModel(reply, |at|) ==>
                    |result| <= 5 && result <= Pick(filtered, at) && (|at| >= 5 ==> |result| == 5)
                    && (|at| <= 5 ==> result == Pick(filtered, at)))
              && (UsesModel(reply, |at|) ==> result == Pick(Pick(filtered, at), Valid(reply.ns, |at|)))
              && (result != [] <==> exists d :: d in documents && d.score >= Median(documents) * 0.6)
              && (Median(documents) >= 0.0 ==> result != [])
  {
    at := [];
    if documents == [] { return [], []; }
    var sortedScores := StableSort(Ascending(), Scores(documents));
    var median := sortedScores[|sortedScores| / 2];
    var filtered := FilterAtLeast(documents, median * 0.6);
    assert filtered == Filtered(documents);
    var kept;
    kept, at := Deduplicate(TokenSimilarity(tokens), filtered);
    HalfSurvives(documents);
    SurvivesIff(documents, median * 0.6);
    result := Choose(reply, kept);
  }
}
