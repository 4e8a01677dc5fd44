// Ensemble retrieval: several result lists, each normalised and weighted, added up by id.
module Ensemble {
  import opened Collections
  import opened Sorting
  import opened OrderedMap
  import opened Reals
  import opened Options

  datatype Hit = Hit(id: string, content: string, score: real)

  function Least(xs: seq<Hit>): (m: real)
    ensures m <= 0.0 && forall i :: 0 <= i < |xs| ==> m <= xs[i].score
  {
    if xs == [] then 0.0
    else
      var m := Least(xs[..|xs| - 1]);
      if xs[|xs| - 1].score < m then xs[|xs| - 1].score else m
  }

  function Greatest(xs: seq<Hit>): (m: real)
    ensures m >= 1.0 && forall i :: 0 <= i < |xs| ==> xs[i].score <= m
  {
    if xs == [] then 1.0
    else
      var m := Greatest(xs[..|xs| - 1]);
      if xs[|xs| - 1].score > m then xs[|xs| - 1].score else m
  }

  // What one hit adds to its id: its score normalised over [min(scores, 0), max(scores, 1)],
  // times the weight of its list.
  function Contribution(list: seq<Hit>, weight: real, h: Hit): real {
    ((h.score - Least(list)) / (Greatest(list) - Least(list))) * weight
  }

  // `weights` if there is one per method, equal weights otherwise.
  function Weights(given: Option<seq<real>>, n: nat): (w: seq<real>)
    requires n > 0
    ensures |w| == n
  {
    if given.Some? && |given.value| == n then given.value else seq(n, _ => 1.0 / n as real)
  }

  // --- What the fused score of an id should be ---

  // What the first n hits of a list add to an id.
  ghost function FromList(list: seq<Hit>, weight: real, n: nat, id: string): real
    requires n <= |list|
  {
    if n == 0 then 0.0
    else FromList(list, weight, n - 1, id) + if list[n - 1].id == id then Contribution(list, weight, list[n - 1]) else 0.0
  }

  // What the first n lists add to an id.
  ghost function Combined(lists: seq<seq<Hit>>, w: seq<real>, n: nat, id: string): real
    requires n <= |lists| == |w|
  {
    if n == 0 then 0.0 else Combined(lists, w, n - 1, id) + FromList(lists[n - 1], w[n - 1], |lists[n - 1]|, id)
  }

  ghost function ListTotal(list: seq<Hit>, weight: real, n: nat): real
    requires n <= |list|
  {
    if n == 0 then 0.0 else ListTotal(list, weight, n - 1) + Contribution(list, weight, list[n - 1])
  }

  // The sum of all contributions.
  ghost function Total(lists: seq<seq<Hit>>, w: seq<real>, n: nat): real
    requires n <= |lists| == |w|
  {
    if n == 0 then 0.0 else Total(lists, w, n - 1) + ListTotal(lists[n - 1], w[n - 1], |lists[n - 1]|)
  }

  ghost function Sum(w: seq<real>, n: nat): real
    requires n <= |w|
  {
    if n == 0 then 0.0 else Sum(w, n - 1) + w[n - 1]
  }

  ghost function IdOf(): Hit -> string {
    (h: Hit) => h.id
  }

  ghost predicate Appears(lists: seq<seq<Hit>>, n: nat, k: nat, id: string)
    requires n <= |lists| && (n < |lists| ==> k <= |lists[n]|)
  {
    || (exists i, j :: 0 <= i < n && 0 <= j < |lists[i]| && lists[i][j].id == id)
    || (n < |lists| && exists j :: 0 <= j < k && lists[n][j].id == id)
  }

  // --- Bounds ---

  lemma ContributionBound(list: seq<Hit>, weight: real, i: nat)
    requires i < |list| && weight >= 0.0
    ensures 0.0 <= Contribution(list, weight, list[i]) <= weight
  {
    var a, r := list[i].score - Least(list), Greatest(list) - Least(list);
    QuotientInUnit(a, r);
    ShareOfWeight(a / r, weight);
  }

  // --- What a contribution says about a score ---

  lemma {:induction false} ExtremesAre(list: seq<Hit>)
    ensures Least(list) == 0.0 || exists i :: 0 <= i < |list| && list[i].score == Least(list)
    ensures Greatest(list) == 1.0 || exists i :: 0 <= i < |list| && list[i].score == Greatest(list)
  {
    if list != [] {
      var init := list[..|list| - 1];
      ExtremesAre(init);
      assert forall i :: 0 <= i < |init| ==> list[i] == init[i];
    }
  }

  // Main result: with a positive weight contributions are ordered as the scores are, and differ in
  // proportion to them ...
  lemma {:induction false} ContributionsCompare(list: seq<Hit>, weight: real, a: Hit, b: Hit)
    requires weight > 0.0
    ensures a.score < b.score <==> Contribution(list, weight, a) < Contribution(list, weight, b)
    ensures a.score == b.score <==> Contribution(list, weight, a) == Contribution(list, weight, b)
  {
    var l, r := Least(list), Greatest(list) - Least(list);
    var x, y := (a.score - l) / r, (b.score - l) / r;
    QuotientsCompare(a.score - l, b.score - l, r);
    MulCompares(x, y, weight);
    MulCompares(y, x, weight);
  }

  ghost predicate InUnit(list: seq<Hit>) {
    forall j :: 0 <= j < |list| ==> 0.0 <= list[j].score <= 1.0
  }

  // The range of the scores, widened to [0, 1], ends at this score.
  ghost predicate IsTop(list: seq<Hit>, h: Hit) {
    h.score >= 1.0 && forall j :: 0 <= j < |list| ==> list[j].score <= h.score
  }

  ghost predicate IsBottom(list: seq<Hit>, h: Hit) {
    h.score <= 0.0 && forall j :: 0 <= j < |list| ==> h.score <= list[j].score
  }

  // ... scores in [0, 1] are taken as they are; beyond that the greatest counts fully and the least
  // not at all.
  lemma {:induction false} ContributionOf(list: seq<Hit>, weight: real, h: Hit)
    requires h in list
    ensures InUnit(list) ==> Contribution(list, weight, h) == h.score * weight
    ensures IsTop(list, h) ==> Contribution(list, weight, h) == weight
    ensures IsBottom(list, h) ==> Contribution(list, weight, h) == 0.0
  {
    RangeOf(list, h);
    if InUnit(list) { ContributionIs(list, weight, h, h.score); }
    if IsTop(list, h) { ContributionIs(list, weight, h, 1.0); }
    if IsBottom(list, h) { ContributionIs(list, weight, h, 0.0); }
  }

  lemma RangeOf(list: seq<Hit>, h: Hit)
    requires h in list
    ensures InUnit(list) ==> Least(list) == 0.0 && Greatest(list) == 1.0
    ensures IsTop(list, h) ==> Greatest(list) == h.score
    ensures IsBottom(list, h) ==> Least(list) == h.score
  {
    ExtremesAre(list);
  }

  lemma ContributionIs(list: seq<Hit>, weight: real, h: Hit, q: real)
    requires var l, g := Least(list), Greatest(list);
             (l == 0.0 && g == 1.0 && q == h.score) || (h.score == g && q == 1.0) || (h.score == l && q == 0.0)
    ensures Contribution(list, weight, h) == q * weight
  {
    QuotientIs(h.score, Least(list), Greatest(list), q);
  }

  lemma QuotientIs(x: real, l: real, g: real, q: real)
    requires l < g && ((l == 0.0 && g == 1.0 && q == x) || (x == g && q == 1.0) || (x == l && q == 0.0))
    ensures (x - l) / (g - l) == q
  {
    QuotientOf(x - l, g - l);
  }

  lemma {:induction false} FromListBound(list: seq<Hit>, weight: real, n: nat, id: string)
    requires n <= |list| && weight >= 0.0 && DistinctBy(IdOf(), list)
    ensures 0.0 <= FromList(list, weight, n, id) <= weight
    ensures (forall i :: 0 <= i < n ==> list[i].id != id) ==> FromList(list, weight, n, id) == 0.0
  {
    if n > 0 {
      FromListBound(list, weight, n - 1, id);
      ContributionBound(list, weight, n - 1);
    }
  }

  // With non-negative weights and no id twice in a list, no id gets more than the weights add up to.
  lemma {:induction false} CombinedBound(lists: seq<seq<Hit>>, w: seq<real>, n: nat, id: string)
    requires n <= |lists| == |w|
    requires forall i :: 0 <= i < |lists| ==> w[i] >= 0.0 && DistinctBy(IdOf(), lists[i])
    ensures 0.0 <= Combined(lists, w, n, id) <= Sum(w, n)
  {
    if n > 0 {
      CombinedBound(lists, w, n - 1, id);
      FromListBound(lists[n - 1], w[n - 1], |lists[n - 1]|, id);
    }
  }

  // --- The score map ---

  datatype Scored = Scored(hit: Hit, score: real)
  type ScoreMap = seq<Entry<string, Scored>>

  function ScoreIn(m: ScoreMap, id: string): real {
    match Get(m, id) case Some(s) => s.score case None => 0.0
  }

  ghost function SumOf(m: ScoreMap): real {
    if m == [] then 0.0 else m[0].value.score + SumOf(m[1..])
  }

  // `existing.score += c`, or a new entry.
  function AddTo(m: ScoreMap, h: Hit, c: real): ScoreMap {
    match Get(m, h.id)
    case Some(s) => Set(m, h.id, s.(score := s.score + c))
    case None => Set(m, h.id, Scored(h, c))
  }

  lemma {:induction false} SetSum(m: ScoreMap, k: string, v: Scored)
    ensures SumOf(Set(m, k, v)) == SumOf(m) + v.score - ScoreIn(m, k)
  {
    if m == [] {
      assert [Entry(k, v)][1..] == [];
    } else if m[0].key == k {
      assert ([Entry(k, v)] + m[1..])[1..] == m[1..];
    } else {
      assert ([m[0]] + Set(m[1..], k, v))[1..] == Set(m[1..], k, v);
      SetSum(m[1..], k, v);
    }
  }

  lemma {:induction false} AddToFacts(m: ScoreMap, h: Hit, c: real)
    requires DistinctKeys(m)
    ensures var m' := AddTo(m, h, c);
            && DistinctKeys(m') && SumOf(m') == SumOf(m) + c
            && forall id: string ::
                 && ScoreIn(m', id) == ScoreIn(m, id) + (if id == h.id then c else 0.0)
                 && (Get(m', id).Some? <==> Get(m, id).Some? || id == h.id)
                 && (Get(m, id).Some? ==> Get(m', id).value.hit == Get(m, id).value.hit)
                 && (Get(m, h.id).None? ==> Get(m', h.id).Some? && Get(m', h.id).value.hit == h)
  {
    var v := match Get(m, h.id) case Some(s) => s.(score := s.score + c) case None => Scored(h, c);
    SetDistinct(m, h.id, v);
    SetSum(m, h.id, v);
    forall id: string ensures Get(Set(m, h.id, v), id) == if id == h.id then Some(v) else Get(m, id) {
      GetSet(m, h.id, v, id);
    }
  }

  // The map holds the ids seen so far, each with what it has been given so far.
  ghost predicate Accumulates(m: ScoreMap, lists: seq<seq<Hit>>, w: seq<real>, n: nat, k: nat)
    requires n <= |lists| == |w| && (n < |lists| ==> k <= |lists[n]|) && (n == |lists| ==> k == 0)
  {
    && DistinctKeys(m)
    && (forall id: string {:trigger ScoreIn(m, id)} ::
          ScoreIn(m, id) == Combined(lists, w, n, id) + if n < |lists| then FromList(lists[n], w[n], k, id) else 0.0)
    && SumOf(m) == Total(lists, w, n) + (if n < |lists| then ListTotal(lists[n], w[n], k) else 0.0)
    && (forall id: string {:trigger Get(m, id)} :: Get(m, id).Some? <==> Appears(lists, n, k, id))
    && (forall id: string {:trigger Get(m, id)} :: Get(m, id).Some? ==> Get(m, id).value.hit.id == id)
  }

  lemma AccumulateOne(m: ScoreMap, lists: seq<seq<Hit>>, w: seq<real>, n: nat, k: nat)
    requires n < |lists| == |w| && k < |lists[n]| && Accumulates(m, lists, w, n, k)
    ensures Accumulates(AddTo(m, lists[n][k], Contribution(lists[n], w[n], lists[n][k])), lists, w, n, k + 1)
  {
    var h, c := lists[n][k], Contribution(lists[n], w[n], lists[n][k]);
    AddToFacts(m, h, c);
    forall id: string ensures Appears(lists, n, k + 1, id) <==> Appears(lists, n, k, id) || id == h.id {}
  }

  // --- As written: two nested loops over a map, then sort and cut ---

  function Descending(): Scored -> real {
    (s: Scored) => -s.score
  }

  method Fuse(lists: seq<seq<Hit>>, w: seq<real>) returns (scoreMap: ScoreMap)
    requires |lists| == |w|
    ensures Accumulates(scoreMap, lists, w, |lists|, 0)
  {
    scoreMap := [];
    for i := 0 to |lists|
      invariant Accumulates(scoreMap, lists, w, i, 0)
    {
      scoreMap := FuseList(scoreMap, lists, w, i, lists[i], w[i]);
    }
  }

  method FuseList(before: ScoreMap, ghost lists: seq<seq<Hit>>, ghost w: seq<real>, ghost n: nat, results: seq<Hit>, weight: real)
    returns (scoreMap: ScoreMap)
    requires n < |lists| == |w| && Accumulates(before, lists, w, n, 0)
    requires results == lists[n] && weight == w[n]
    ensures Accumulates(scoreMap, lists, w, n, |lists[n]|)
  {
    scoreMap := before;
    var min, max := Least(results), Greatest(results);
    var range := max - min;
    for j := 0 to |results|
      invariant Accumulates(scoreMap, lists, w, n, j)
    {
      var normalizedScore := ((results[j].score - min) / range) * weight;
      assert normalizedScore == Contribution(results, weight, results[j]);
      AccumulateOne(scoreMap, lists, w, n, j);
      scoreMap := AddTo(scoreMap, results[j], normalizedScore);
    }
  }

  function ValuesOf(m: ScoreMap): (vs: seq<Scored>)
    ensures |vs| == |m| && forall i :: 0 <= i < |m| ==> vs[i] == m[i].value
  {
    seq(|m|, i requires 0 <= i < |m| => m[i].value)
  }

  ghost function SumScores(xs: seq<Scored>): real {
    if xs == [] then 0.0 else SumScores(xs[..|xs| - 1]) + xs[|xs| - 1].score
  }

  // `fused` is the sorted list before the cut: scores fall; every id that occurs in a list is
  // there, once; its score is what its hits add up to; together they are all contributions of all
  // hits; and with non-negative weights that sum to 1 and no id twice in a list each lies in [0, 1].
  ghost predicate IsFusion(fused: seq<Scored>, lists: seq<seq<Hit>>, w: seq<real>)
    requires |lists| == |w|
  {
    && (forall i, j :: 0 <= i < j < |fused| ==> fused[i].score >= fused[j].score)
    && (forall i, j :: 0 <= i < j < |fused| ==> fused[i].hit.id != fused[j].hit.id)
    && SumScores(fused) == Total(lists, w, |lists|)
    && (forall i :: 0 <= i < |fused| ==>
          && Appears(lists, |lists|, 0, fused[i].hit.id)
          && fused[i].score == Combined(lists, w, |lists|, fused[i].hit.id))
    && (forall id: string :: Appears(lists, |lists|, 0, id) ==> exists i :: 0 <= i < |fused| && fused[i].hit.id == id)
    && (Normalised(lists, w) ==> forall i :: 0 <= i < |fused| ==> 0.0 <= fused[i].score <= 1.0)
  }

  // Main result.  `plain` is what the ordinary search gives, returned when there is no method.
  method RetrieveEnsemble(plain: seq<Hit>, lists: seq<seq<Hit>>, given: Option<seq<real>>)
    returns (results: seq<Hit>, fused: seq<Scored>)
    ensures lists == [] ==> results == plain
    ensures lists != [] ==>
              && IsFusion(fused, lists, Weights(given, |lists|))
              && |results| == (if |fused| < 10 then |fused| else 10)
              && forall i :: 0 <= i < |results| ==> results[i] == fused[i].hit.(score := fused[i].score)
  {
    if lists == [] { return plain, []; }
    var w := Weights(given, |lists|);
    var scoreMap := Fuse(lists, w);
    fused := StableSort(Descending(), ValuesOf(scoreMap));
    SortedIsFusion(scoreMap, lists, w, fused);
    var cut := if |fused| < 10 then fused else fused[..10];
    results := seq(|cut|, i requires 0 <= i < |cut| => cut[i].hit.(score := cut[i].score));
  }

  lemma {:induction false} SumScoresConcat(a: seq<Scored>, b: seq<Scored>)
    ensures SumScores(a + b) == SumScores(a) + SumScores(b)
    decreases |b|
  {
    if b == [] {
      assert a + b == a;
    } else {
      assert (a + b)[..|a + b| - 1] == a + b[..|b| - 1];
      SumScoresConcat(a, b[..|b| - 1]);
    }
  }

  lemma {:induction false} InsertSum(x: Scored, xs: seq<Scored>)
    ensures SumScores(Insert(Descending(), x, xs)) == SumScores(xs) + x.score
  {
    if xs == [] || Descending()(xs[|xs| - 1]) <= Descending()(x) {
      assert (xs + [x])[..|xs|] == xs;
    } else {
      InsertSum(x, xs[..|xs| - 1]);
      var ys := Insert(Descending(), x, xs[..|xs| - 1]);
      assert (ys + [xs[|xs| - 1]])[..|ys|] == ys;
    }
  }

  lemma {:induction false} SortSum(xs: seq<Scored>)
    ensures SumScores(StableSort(Descending(), xs)) == SumScores(xs)
  {
    if xs != [] {
      SortSum(xs[..|xs| - 1]);
      InsertSum(xs[|xs| - 1], StableSort(Descending(), xs[..|xs| - 1]));
    }
  }

  lemma {:induction false} SumOfValues(m: ScoreMap)
    ensures SumOf(m) == SumScores(ValuesOf(m))
  {
    if m != [] {
      SumOfValues(m[1..]);
      assert ValuesOf(m) == [m[0].value] + ValuesOf(m[1..]);
      SumScoresConcat([m[0].value], ValuesOf(m[1..]));
      assert [m[0].value][..0] == [];
      assert SumScores([m[0].value]) == m[0].value.score;
    }
  }

  lemma ScoreAt(m: ScoreMap, lists: seq<seq<Hit>>, w: seq<real>, i: nat)
    requires |lists| == |w| && Accumulates(m, lists, w, |lists|, 0) && i < |m|
    ensures Appears(lists, |lists|, 0, m[i].key)
    ensures m[i].value.score == Combined(lists, w, |lists|, m[i].key) && m[i].value.hit.id == m[i].key
  {
    GetAt(m, i);
    assert ScoreIn(m, m[i].key) == m[i].value.score;
  }

  // The conditions under which fused scores stay in [0, 1].
  ghost predicate Normalised(lists: seq<seq<Hit>>, w: seq<real>)
    requires |lists| == |w|
  {
    (forall i :: 0 <= i < |lists| ==> w[i] >= 0.0 && DistinctBy(IdOf(), lists[i])) && Sum(w, |lists|) == 1.0
  }

  lemma FusedFromMap(m: ScoreMap, fused: seq<Scored>, i: nat) returns (k: nat)
    requires fused == StableSort(Descending(), ValuesOf(m)) && i < |fused|
    ensures k < |m| && m[k].value == fused[i]
  {
    StableSortElements(Descending(), ValuesOf(m));
    assert fused[i] in multiset(fused);
    assert fused[i] in ValuesOf(m);
    k :| 0 <= k < |m| && ValuesOf(m)[k] == fused[i];
  }

  lemma FusedIdsDistinct(m: ScoreMap, lists: seq<seq<Hit>>, w: seq<real>, fused: seq<Scored>)
    requires |lists| == |w| && Accumulates(m, lists, w, |lists|, 0)
    requires fused == StableSort(Descending(), ValuesOf(m))
    ensures forall i, j :: 0 <= i < j < |fused| ==> fused[i].hit.id != fused[j].hit.id
  {
    forall i | 0 <= i < |m| ensures m[i].value.hit.id == m[i].key { ScoreAt(m, lists, w, i); }
    StableSortElements(Descending(), ValuesOf(m));
    PermutedDistinct((x: Scored) => x.hit.id, ValuesOf(m), fused);
  }

  // Weights are used if there is one for each method; else all weigh the same, which meets the
  // condition under which fused scores stay in [0, 1].
  lemma {:induction false} DefaultWeights(given: Option<seq<real>>, n: nat)
    requires n > 0
    ensures given.Some? && |given.value| == n ==> Weights(given, n) == given.value
    ensures given.None? || |given.value| != n ==>
              var w := Weights(given, n);
              && Sum(w, n) == 1.0 && (forall i :: 0 <= i < n ==> w[i] >= 0.0)
              && (forall i, j :: 0 <= i < j < n ==> w[i] == w[j])
  {
    if given.None? || |given.value| != n { EqualSum(Weights(given, n), 1.0 / n as real, n); }
  }

  lemma {:induction false} EqualSum(w: seq<real>, c: real, n: nat)
    requires n <= |w| && forall i :: 0 <= i < n ==> w[i] == c
    ensures Sum(w, n) == n as real * c
  {
    if n > 0 { EqualSum(w, c, n - 1); }
  }

  lemma SortedIsFusion(m: ScoreMap, lists: seq<seq<Hit>>, w: seq<real>, fused: seq<Scored>)
    requires |lists| == |w| && Accumulates(m, lists, w, |lists|, 0)
    requires fused == StableSort(Descending(), ValuesOf(m))
    ensures IsFusion(fused, lists, w)
  {
    FusedOrder(m, fused);
    FusedIdsDistinct(m, lists, w, fused);
    SortSum(ValuesOf(m));
    SumOfValues(m);
    forall i | 0 <= i < |fused|
      ensures Appears(lists, |lists|, 0, fused[i].hit.id)
      ensures fused[i].score == Combined(lists, w, |lists|, fused[i].hit.id)
      ensures Normalised(lists, w) ==> 0.0 <= fused[i].score <= 1.0
    {
      FusedScore(m, lists, w, fused, i);
    }
    forall id: string | Appears(lists, |lists|, 0, id) ensures exists i :: 0 <= i < |fused| && fused[i].hit.id == id {
      FusedHolds(m, lists, w, fused, id);
    }
  }

  lemma FusedOrder(m: ScoreMap, fused: seq<Scored>)
    requires fused == StableSort(Descending(), ValuesOf(m))
    ensures forall i, j :: 0 <= i < j < |fused| ==> fused[i].score >= fused[j].score
  {
    StableSortIsStable(Descending(), ValuesOf(m));
    forall i, j | 0 <= i < j < |fused| ensures fused[i].score >= fused[j].score {
      assert Descending()(fused[i]) <= Descending()(fused[j]);
    }
  }

  lemma FusedScore(m: ScoreMap, lists: seq<seq<Hit>>, w: seq<real>, fused: seq<Scored>, i: nat)
    requires |lists| == |w| && Accumulates(m, lists, w, |lists|, 0)
    requires fused == StableSort(Descending(), ValuesOf(m)) && i < |fused|
    ensures Appears(lists, |lists|, 0, fused[i].hit.id)
    ensures fused[i].score == Combined(lists, w, |lists|, fused[i].hit.id)
    ensures Normalised(lists, w) ==> 0.0 <= fused[i].score <= 1.0
  {
    var k := FusedFromMap(m, fused, i);
    ScoreAt(m, lists, w, k);
    if Normalised(lists, w) { CombinedBound(lists, w, |lists|, m[k].key); }
  }

  lemma FusedHolds(m: ScoreMap, lists: seq<seq<Hit>>, w: seq<real>, fused: seq<Scored>, id: string)
    requires |lists| == |w| && Accumulates(m, lists, w, |lists|, 0) && Appears(lists, |lists|, 0, id)
    requires fused == StableSort(Descending(), ValuesOf(m))
    ensures exists i :: 0 <= i < |fused| && fused[i].hit.id == id
  {
    assert Get(m, id).Some?;
    GetHas(m, id);
    var k :| 0 <= k < |m| && m[k].key == id;
    GetAt(m, k);
    StableSortElements(Descending(), ValuesOf(m));
    assert ValuesOf(m)[k] in multiset(fused);
  }
}
