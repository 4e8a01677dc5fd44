// Hybrid retrieval: min-max normalised vector and keyword scores, fused, sorted and cut.
module HybridSearch {
  import opened Collections
  import opened Sorting
  import opened OrderedMap
  import opened Reals
  import opened Options

  datatype SearchResult = SearchResult(id: string, content: string, score: real)
  datatype Scored = Scored(id: string, score: real)

  const VECTOR_WEIGHT: real := 0.7
  const KEYWORD_WEIGHT: real := 0.3

  function Least(xs: seq<Scored>): (m: real)
    requires xs != []
    ensures forall i :: 0 <= i < |xs| ==> m <= xs[i].score
  {
    if |xs| == 1 then xs[0].score
    else
      var m := Least(xs[..|xs| - 1]);
      if xs[|xs| - 1].score < m then xs[|xs| - 1].score else m
  }

  function Greatest(xs: seq<Scored>): (m: real)
    requires xs != []
    ensures forall i :: 0 <= i < |xs| ==> xs[i].score <= m
  {
    if |xs| == 1 then xs[0].score
    else
      var m := Greatest(xs[..|xs| - 1]);
      if xs[|xs| - 1].score > m then xs[|xs| - 1].score else m
  }

  lemma {:induction false} ExtremesAttained(xs: seq<Scored>) returns (i: nat, j: nat)
    requires xs != []
    ensures i < |xs| && xs[i].score == Least(xs)
    ensures j < |xs| && xs[j].score == Greatest(xs)
  {
    i, j := 0, 0;
    if |xs| > 1 {
      i, j := ExtremesAttained(xs[..|xs| - 1]);
      if xs[|xs| - 1].score == Least(xs) { i := |xs| - 1; }
      if xs[|xs| - 1].score == Greatest(xs) { j := |xs| - 1; }
    }
  }

  function Range(items: seq<Scored>): (r: real)
    requires items != []
    ensures r > 0.0
  {
    var spread := Greatest(items) - Least(items);
    if spread == 0.0 then 1.0 else spread
  }

  function NormalizeTo(items: seq<Scored>, n: nat): seq<Entry<string, real>>
    requires n <= |items|
  {
    if n == 0 then []
    else Set(NormalizeTo(items, n - 1), items[n - 1].id, (items[n - 1].score - Least(items)) / Range(items))
  }

  // `normalize`: scores moved to [0, 1]; of several items with one id the last counts.
  function Normalize(items: seq<Scored>): seq<Entry<string, real>> {
    NormalizeTo(items, |items|)
  }

  function ScoreOf(m: seq<Entry<string, real>>, id: string): real {
    match Get(m, id) case Some(v) => v case None => 0.0
  }

  // `new Set([...a.keys(), ...b.keys()])`
  function AddKeys(ids: seq<string>, m: seq<Entry<string, real>>): seq<string>
    decreases |m|
  {
    if m == [] then ids
    else AddKeys(if m[0].key in ids then ids else ids + [m[0].key], m[1..])
  }

  function Fused(vs: seq<Entry<string, real>>, ks: seq<Entry<string, real>>, id: string): real {
    VECTOR_WEIGHT * ScoreOf(vs, id) + KEYWORD_WEIGHT * ScoreOf(ks, id)
  }

  function FuseAll(vs: seq<Entry<string, real>>, ks: seq<Entry<string, real>>, ids: seq<string>): (fs: seq<Scored>)
    ensures |fs| == |ids|
    ensures forall i :: 0 <= i < |ids| ==> fs[i] == Scored(ids[i], Fused(vs, ks, ids[i]))
  {
    seq(|ids|, i requires 0 <= i < |ids| => Scored(ids[i], Fused(vs, ks, ids[i])))
  }

  function Descending(): Scored -> real {
    (s: Scored) => -s.score
  }

  function Take<T>(xs: seq<T>, n: nat): seq<T> {
    if n <= |xs| then xs[..n] else xs
  }

  function ToScored(rs: seq<SearchResult>): (ss: seq<Scored>)
    ensures |ss| == |rs| && forall i :: 0 <= i < |rs| ==> ss[i] == Scored(rs[i].id, rs[i].score)
  {
    seq(|rs|, i requires 0 <= i < |rs| => Scored(rs[i].id, rs[i].score))
  }

  // `new Map(results.map(r => [r.id, r])).get(id)`: the last result with that id.
  function Original(rs: seq<SearchResult>, id: string): Option<SearchResult> {
    if rs == [] then None
    else if rs[|rs| - 1].id == id then Some(rs[|rs| - 1])
    else Original(rs[..|rs| - 1], id)
  }

  function Hydrate(fs: seq<Scored>, rs: seq<SearchResult>): seq<SearchResult> {
    if fs == [] then []
    else
      var before, f := Hydrate(fs[..|fs| - 1], rs), fs[|fs| - 1];
      match Original(rs, f.id)
      case Some(r) => before + [r.(score := f.score)]
      case None => before
  }

  ghost function FusedScore(rs: seq<SearchResult>, keywords: seq<Scored>, id: string): real {
    Fused(Normalize(ToScored(rs)), Normalize(keywords), id)
  }

  ghost function Ranked(rs: seq<SearchResult>, keywords: seq<Scored>): seq<Scored> {
    var vs, ks := Normalize(ToScored(rs)), Normalize(keywords);
    StableSort(Descending(), FuseAll(vs, ks, AddKeys(AddKeys([], vs), ks)))
  }

  ghost function Hybrid(rs: seq<SearchResult>, keywords: seq<Scored>, topK: nat): seq<SearchResult> {
    Hydrate(Take(Ranked(rs, keywords), topK), rs)
  }

  // `options.topK || config.topK || 5`
  function TopK(option: nat, config: nat): nat {
    if option != 0 then option else if config != 0 then config else 5
  }

  // --- Normalised and fused scores lie in [0, 1] ---

  ghost predicate InUnit(m: seq<Entry<string, real>>) {
    forall id: string :: Get(m, id).Some? ==> 0.0 <= Get(m, id).value <= 1.0
  }

  lemma {:induction false} NormalizedInUnit(items: seq<Scored>, n: nat)
    requires n <= |items|
    ensures InUnit(NormalizeTo(items, n)) && DistinctKeys(NormalizeTo(items, n))
    ensures forall id: string :: Get(NormalizeTo(items, n), id).Some? <==> exists i :: 0 <= i < n && items[i].id == id
  {
    if n > 0 {
      NormalizedInUnit(items, n - 1);
      var before, v := NormalizeTo(items, n - 1), (items[n - 1].score - Least(items)) / Range(items);
      QuotientInUnit(items[n - 1].score - Least(items), Range(items));
      SetDistinct(before, items[n - 1].id, v);
      forall id: string ensures Get(NormalizeTo(items, n), id) == if id == items[n - 1].id then Some(v) else Get(before, id) {
        GetSet(before, items[n - 1].id, v, id);
      }
    }
  }

  lemma {:induction false} FusedInUnit(rs: seq<SearchResult>, keywords: seq<Scored>, id: string)
    ensures 0.0 <= FusedScore(rs, keywords, id) <= 1.0
  {
    NormalizedInUnit(ToScored(rs), |rs|);
    NormalizedInUnit(keywords, |keywords|);
  }

  // --- The ranking ---

  lemma {:induction false} AddKeysDistinct(ids: seq<string>, m: seq<Entry<string, real>>)
    requires Distinct(ids)
    ensures Distinct(AddKeys(ids, m))
    ensures forall id: string :: id in AddKeys(ids, m) <==> id in ids || Get(m, id).Some?
    decreases |m|
  {
    if m != [] {
      AddKeysDistinct(if m[0].key in ids then ids else ids + [m[0].key], m[1..]);
    }
  }

  lemma {:induction false} OriginalIsHit(rs: seq<SearchResult>, id: string)
    ensures Original(rs, id).Some? ==> Original(rs, id).value in rs && Original(rs, id).value.id == id
    ensures Original(rs, id).None? <==> forall i :: 0 <= i < |rs| ==> rs[i].id != id
  {
    if rs != [] { OriginalIsHit(rs[..|rs| - 1], id); }
  }

  ghost function IdOf(): Scored -> string {
    (f: Scored) => f.id
  }

  // The places of the ranking that survive: those whose id is a vector hit.
  ghost function Kept(fs: seq<Scored>, rs: seq<SearchResult>): (at: seq<nat>)
    ensures forall n :: 0 <= n < |at| ==> at[n] < |fs|
  {
    if fs == [] then []
    else Kept(fs[..|fs| - 1], rs) + if Original(rs, fs[|fs| - 1].id).Some? then [|fs| - 1] else []
  }

  lemma {:induction false} KeptFacts(fs: seq<Scored>, rs: seq<SearchResult>)
    ensures forall m, n :: 0 <= m < n < |Kept(fs, rs)| ==> Kept(fs, rs)[m] < Kept(fs, rs)[n]
    ensures forall i :: 0 <= i < |fs| && Original(rs, fs[i].id).Some? ==> i in Kept(fs, rs)
    ensures forall n :: 0 <= n < |Kept(fs, rs)| ==> Original(rs, fs[Kept(fs, rs)[n]].id).Some?
  {
    if fs != [] { KeptFacts(fs[..|fs| - 1], rs); }
  }

  lemma {:induction false} HydrateIsKept(fs: seq<Scored>, rs: seq<SearchResult>, n: nat)
    requires n < |Kept(fs, rs)|
    ensures |Hydrate(fs, rs)| == |Kept(fs, rs)|
    ensures var f := fs[Kept(fs, rs)[n]];
            Original(rs, f.id).Some? && Hydrate(fs, rs)[n] == Original(rs, f.id).value.(score := f.score)
  {
    var before, last := fs[..|fs| - 1], fs[|fs| - 1];
    HydrateLength(before, rs);
    if n < |Kept(before, rs)| { HydrateIsKept(before, rs, n); }
  }

  lemma {:induction false} HydrateLength(fs: seq<Scored>, rs: seq<SearchResult>)
    ensures |Hydrate(fs, rs)| == |Kept(fs, rs)| <= |fs|
  {
    if fs != [] { HydrateLength(fs[..|fs| - 1], rs); }
  }

  lemma RankedFacts(rs: seq<SearchResult>, keywords: seq<Scored>)
    ensures var fs := Ranked(rs, keywords);
            && SortedBy(Descending(), fs) && DistinctBy(IdOf(), fs)
            && (forall i :: 0 <= i < |fs| ==> fs[i].score == FusedScore(rs, keywords, fs[i].id))
            && (forall r :: r in rs ==> exists i :: 0 <= i < |fs| && fs[i].id == r.id)
  {
    var vs, ks := Normalize(ToScored(rs)), Normalize(keywords);
    var ids := AddKeys(AddKeys([], vs), ks);
    var all := FuseAll(vs, ks, ids);
    var fs := Ranked(rs, keywords);
    AddKeysDistinct([], vs);
    AddKeysDistinct(AddKeys([], vs), ks);
    StableSortIsStable(Descending(), all);
    StableSortElements(Descending(), all);
    forall i | 0 <= i < |fs| ensures fs[i].score == FusedScore(rs, keywords, fs[i].id) {
      assert fs[i] in multiset(fs);
      assert fs[i] in all;
    }
    PermutedDistinct(IdOf(), all, fs);
    forall r | r in rs ensures exists i :: 0 <= i < |fs| && fs[i].id == r.id {
      var k :| 0 <= k < |rs| && rs[k] == r;
      NormalizedInUnit(ToScored(rs), |rs|);
      assert ToScored(rs)[k].id == r.id;
      assert r.id in ids;
      var i :| 0 <= i < |ids| && ids[i] == r.id;
      assert all[i] in multiset(all);
      assert all[i] in fs;
    }
  }

  // What is left of a ranking cut to topK.
  ghost function Place(rs: seq<SearchResult>, keywords: seq<Scored>, topK: nat, n: nat): nat
    requires n < |Hybrid(rs, keywords, topK)|
  {
    HydrateLength(Take(Ranked(rs, keywords), topK), rs);
    Kept(Take(Ranked(rs, keywords), topK), rs)[n]
  }

  lemma HitAt(rs: seq<SearchResult>, keywords: seq<Scored>, topK: nat, n: nat)
    requires n < |Hybrid(rs, keywords, topK)|
    ensures var p, fs, hit := Place(rs, keywords, topK, n), Ranked(rs, keywords), Hybrid(rs, keywords, topK)[n];
            && p < |fs| && hit.id == fs[p].id && hit.score == fs[p].score == FusedScore(rs, keywords, hit.id)
            && exists r :: r in rs && hit == r.(score := hit.score)
  {
    var top := Take(Ranked(rs, keywords), topK);
    HydrateLength(top, rs);
    HydrateIsKept(top, rs, n);
    var f := top[Kept(top, rs)[n]];
    OriginalIsHit(rs, f.id);
    RankedFacts(rs, keywords);
    assert f == Ranked(rs, keywords)[Kept(top, rs)[n]];
  }

  // Main result: the hybrid hits are vector hits with their fused scores, all in [0, 1], best
  // first, no id twice, at most topK ...
  lemma {:induction false} HybridRanking(rs: seq<SearchResult>, keywords: seq<Scored>, topK: nat)
    ensures var out := Hybrid(rs, keywords, topK);
            && |out| <= topK
            && (forall n :: 0 <= n < |out| ==>
                  && 0.0 <= out[n].score == FusedScore(rs, keywords, out[n].id) <= 1.0
                  && exists r :: r in rs && out[n] == r.(score := out[n].score))
            && (forall m, n :: 0 <= m < n < |out| ==> out[m].score >= out[n].score && out[m].id != out[n].id)
  {
    var out := Hybrid(rs, keywords, topK);
    HydrateLength(Take(Ranked(rs, keywords), topK), rs);
    forall n | 0 <= n < |out|
      ensures 0.0 <= out[n].score == FusedScore(rs, keywords, out[n].id) <= 1.0
      ensures exists r :: r in rs && out[n] == r.(score := out[n].score)
    {
      HitAt(rs, keywords, topK, n);
      FusedInUnit(rs, keywords, out[n].id);
    }
    forall m, n | 0 <= m < n < |out| ensures out[m].score >= out[n].score && out[m].id != out[n].id {
      HitAt(rs, keywords, topK, m);
      HitAt(rs, keywords, topK, n);
      KeptFacts(Take(Ranked(rs, keywords), topK), rs);
      RankedOrder(rs, keywords, Place(rs, keywords, topK, m), Place(rs, keywords, topK, n));
    }
  }

  lemma RankedOrder(rs: seq<SearchResult>, keywords: seq<Scored>, i: nat, j: nat)
    requires i < j < |Ranked(rs, keywords)|
    ensures var fs := Ranked(rs, keywords); fs[i].score >= fs[j].score && fs[i].id != fs[j].id
  {
    RankedFacts(rs, keywords);
    var fs := Ranked(rs, keywords);
    assert Descending()(fs[i]) <= Descending()(fs[j]);
  }

  lemma KeptWithinTop(rs: seq<SearchResult>, keywords: seq<Scored>, topK: nat, i: nat)
    requires i < |Take(Ranked(rs, keywords), topK)| && Original(rs, Ranked(rs, keywords)[i].id).Some?
    ensures exists m :: 0 <= m < |Hybrid(rs, keywords, topK)| &&
                        Hybrid(rs, keywords, topK)[m].id == Ranked(rs, keywords)[i].id
  {
    var top := Take(Ranked(rs, keywords), topK);
    KeptFacts(top, rs);
    HydrateLength(top, rs);
    assert top[i] == Ranked(rs, keywords)[i] && i in Kept(top, rs);
    var m :| 0 <= m < |Kept(top, rs)| && Kept(top, rs)[m] == i;
    HydrateIsKept(top, rs, m);
    OriginalIsHit(rs, top[i].id);
    assert Hybrid(rs, keywords, topK)[m].id == top[i].id;
  }

  lemma RankOf(rs: seq<SearchResult>, keywords: seq<Scored>, r: SearchResult) returns (i: nat)
    requires r in rs
    ensures i < |Ranked(rs, keywords)| && Ranked(rs, keywords)[i].id == r.id
    ensures Ranked(rs, keywords)[i].score == FusedScore(rs, keywords, r.id)
  {
    RankedFacts(rs, keywords);
    i :| 0 <= i < |Ranked(rs, keywords)| && Ranked(rs, keywords)[i].id == r.id;
  }

  // ... and no vector hit that is left out outscores one that is kept.
  lemma {:induction false} DroppedHitsScoreLess(rs: seq<SearchResult>, keywords: seq<Scored>, topK: nat, r: SearchResult, n: nat)
    requires r in rs && n < |Hybrid(rs, keywords, topK)|
    requires forall m :: 0 <= m < |Hybrid(rs, keywords, topK)| ==> Hybrid(rs, keywords, topK)[m].id != r.id
    ensures FusedScore(rs, keywords, r.id) <= Hybrid(rs, keywords, topK)[n].score
  {
    var i := RankOf(rs, keywords, r);
    OriginalIsHit(rs, r.id);
    if i < |Take(Ranked(rs, keywords), topK)| {
      KeptWithinTop(rs, keywords, topK, i);
      assert false;
    }
    HitAt(rs, keywords, topK, n);
    HydrateLength(Take(Ranked(rs, keywords), topK), rs);
    RankedOrder(rs, keywords, Place(rs, keywords, topK, n), i);
  }

  // --- Normalising keeps what the scores say ---

  // The item that counts for its id: no later one has it.
  ghost predicate Counts(items: seq<Scored>, i: nat) {
    i < |items| && forall j :: i < j < |items| ==> items[j].id != items[i].id
  }

  ghost function Normalized(items: seq<Scored>, i: nat): real
    requires i < |items|
  {
    ScoreOf(Normalize(items), items[i].id)
  }

  lemma {:induction false} NormalizedTo(items: seq<Scored>, n: nat, i: nat)
    requires i < n <= |items| && forall j :: i < j < n ==> items[j].id != items[i].id
    ensures Get(NormalizeTo(items, n), items[i].id) == Some((items[i].score - Least(items)) / Range(items))
  {
    var last := items[n - 1];
    GetSet(NormalizeTo(items, n - 1), last.id, (last.score - Least(items)) / Range(items), items[i].id);
    if i < n - 1 { NormalizedTo(items, n - 1, i); }
  }

  // Main result: normalised scores are ordered as the scores are, and differ in proportion ...
  lemma {:induction false} NormalizeKeepsOrder(items: seq<Scored>, i: nat, j: nat)
    requires Counts(items, i) && Counts(items, j)
    ensures items[i].score < items[j].score <==> Normalized(items, i) < Normalized(items, j)
    ensures items[i].score == items[j].score <==> Normalized(items, i) == Normalized(items, j)
  {
    NormalizedTo(items, |items|, i);
    NormalizedTo(items, |items|, j);
    QuotientsCompare(items[i].score - Least(items), items[j].score - Least(items), Range(items));
  }

  lemma {:induction false} NormalizeKeepsProportions(items: seq<Scored>, i: nat, j: nat, k: nat, l: nat)
    requires Counts(items, i) && Counts(items, j) && Counts(items, k) && Counts(items, l)
    ensures InProportion(Normalized(items, i) - Normalized(items, j), Normalized(items, k) - Normalized(items, l),
                         items[i].score - items[j].score, items[k].score - items[l].score)
  {
    var n, least, r := |items|, Least(items), Range(items);
    NormalizedTo(items, n, i);
    NormalizedTo(items, n, j);
    NormalizedTo(items, n, k);
    NormalizedTo(items, n, l);
    var a, b, c, d := items[i].score - least, items[j].score - least, items[k].score - least, items[l].score - least;
    QuotientsInProportion(
      Normalized(items, i), Normalized(items, j), Normalized(items, k), Normalized(items, l), a, b, c, d, r);
    assert a - b == items[i].score - items[j].score && c - d == items[k].score - items[l].score;
  }

  // ... a greatest one is 1, unless all are equal, and a least one 0.
  lemma {:induction false} NormalizeEnds(items: seq<Scored>, i: nat)
    requires Counts(items, i)
    ensures IsWorst(items, i) ==> Normalized(items, i) == 0.0
    ensures IsBest(items, i) ==> Normalized(items, i) == 1.0
  {
    NormalizedTo(items, |items|, i);
    QuotientOf(0.0, Range(items));
    var l, g := ExtremesAttained(items);
    if IsBest(items, i) { assert items[i].score == Greatest(items) && Range(items) == Greatest(items) - Least(items); }
  }

  // No score is greater, and one is less.
  ghost predicate IsBest(items: seq<Scored>, i: nat)
    requires i < |items|
  {
    && (forall j :: 0 <= j < |items| ==> items[j].score <= items[i].score)
    && (exists j :: 0 <= j < |items| && items[j].score < items[i].score)
  }

  ghost predicate IsWorst(items: seq<Scored>, i: nat)
    requires i < |items|
  {
    forall j :: 0 <= j < |items| ==> items[i].score <= items[j].score
  }

  // --- Without keyword hits ---

  // at lists all vector hits by their own score, the earlier one first among equals.
  ghost predicate OwnOrder(rs: seq<SearchResult>, at: seq<nat>) {
    && |at| == |rs| && (forall i :: 0 <= i < |rs| ==> i in at)
    && (forall n :: 0 <= n < |at| ==> at[n] < |rs|)
    && (forall m, n :: 0 <= m < n < |at| ==>
          rs[at[m]].score > rs[at[n]].score || (rs[at[m]].score == rs[at[n]].score && at[m] < at[n]))
  }

  ghost predicate FirstOf(rs: seq<SearchResult>, at: seq<nat>, topK: nat, out: seq<SearchResult>) {
    && |out| == (if topK < |at| then topK else |at|)
    && forall n :: 0 <= n < |out| ==> at[n] < |rs| && out[n] == rs[at[n]].(score := out[n].score)
  }

  ghost function ResultId(): SearchResult -> string {
    (r: SearchResult) => r.id
  }

  lemma AllCount(rs: seq<SearchResult>, i: nat)
    requires DistinctBy(ResultId(), rs) && i < |rs|
    ensures Counts(ToScored(rs), i)
  {
    forall j | i < j < |rs| ensures ToScored(rs)[j].id != ToScored(rs)[i].id {
      assert ResultId()(rs[i]) != ResultId()(rs[j]);
    }
  }

  lemma {:induction false} KeysInOrder(rs: seq<SearchResult>, n: nat)
    requires DistinctBy(ResultId(), rs) && n <= |rs|
    ensures var m := NormalizeTo(ToScored(rs), n); |m| == n && forall i :: 0 <= i < n ==> m[i].key == rs[i].id
  {
    if n > 0 {
      KeysInOrder(rs, n - 1);
      KeysGrow(rs, NormalizeTo(ToScored(rs), n - 1), n - 1);
    }
  }

  lemma {:induction false} KeysGrow(rs: seq<SearchResult>, before: seq<Entry<string, real>>, n: nat)
    requires DistinctBy(ResultId(), rs) && n < |rs|
    requires |before| == n && forall i :: 0 <= i < n ==> before[i].key == rs[i].id
    ensures forall v: real :: var m := Set(before, rs[n].id, v);
              |m| == n + 1 && forall i :: 0 <= i <= n ==> m[i].key == rs[i].id
  {
    forall i | 0 <= i < n ensures before[i].key != rs[n].id { assert ResultId()(rs[i]) != ResultId()(rs[n]); }
    forall v: real ensures Set(before, rs[n].id, v) == before + [Entry(rs[n].id, v)] { SetPlaces(before, rs[n].id, v); }
  }

  lemma {:induction false} AddNewKeys(ids: seq<string>, m: seq<Entry<string, real>>)
    requires DistinctKeys(m) && forall i :: 0 <= i < |m| ==> m[i].key !in ids
    ensures |AddKeys(ids, m)| == |ids| + |m| && ids <= AddKeys(ids, m)
    ensures forall i :: 0 <= i < |m| ==> AddKeys(ids, m)[|ids| + i] == m[i].key
    decreases |m|
  {
    if m != [] {
      var more, rest := ids + [m[0].key], m[1..];
      forall i | 0 <= i < |rest| ensures rest[i].key !in more { assert rest[i] == m[i + 1]; }
      forall i, j | 0 <= i < j < |rest| ensures rest[i].key != rest[j].key { assert rest[i] == m[i + 1] && rest[j] == m[j + 1]; }
      AddNewKeys(more, rest);
      forall i | 0 <= i < |m| ensures AddKeys(ids, m)[|ids| + i] == m[i].key {
        if i > 0 { assert m[i] == rest[i - 1]; } else { assert more[|ids|] == m[0].key; }
      }
    }
  }

  // Of several hits with one id the last one is reported.
  lemma {:induction false} OriginalAt(rs: seq<SearchResult>, i: nat)
    requires i < |rs| && forall j :: i < j < |rs| ==> rs[j].id != rs[i].id
    ensures Original(rs, rs[i].id) == Some(rs[i])
  {
    if i < |rs| - 1 { OriginalAt(rs[..|rs| - 1], i); }
  }

  lemma {:induction false} OriginalOf(rs: seq<SearchResult>, i: nat)
    requires DistinctBy(ResultId(), rs) && i < |rs|
    ensures Original(rs, rs[i].id) == Some(rs[i])
  {
    forall j | i < j < |rs| ensures rs[j].id != rs[i].id { assert ResultId()(rs[i]) != ResultId()(rs[j]); }
    OriginalAt(rs, i);
  }

  lemma {:induction false} HydrateAll(fs: seq<Scored>, rs: seq<SearchResult>, at: seq<nat>)
    requires |fs| <= |at| && forall n :: 0 <= n < |fs| ==> at[n] < |rs| && Original(rs, fs[n].id) == Some(rs[at[n]])
    ensures |Hydrate(fs, rs)| == |fs|
    ensures forall n :: 0 <= n < |fs| ==> Hydrate(fs, rs)[n] == rs[at[n]].(score := fs[n].score)
  {
    if fs != [] { HydrateAll(fs[..|fs| - 1], rs, at); }
  }

  // What is ranked then: the vector hits in their order, with 0.7 of their normalised scores.
  ghost function VectorFused(rs: seq<SearchResult>): (all: seq<Scored>)
    ensures |all| == |rs|
    ensures forall i :: 0 <= i < |rs| ==> all[i] == Scored(rs[i].id, VECTOR_WEIGHT * Normalized(ToScored(rs), i))
  {
    seq(|rs|, i requires 0 <= i < |rs| => Scored(rs[i].id, VECTOR_WEIGHT * Normalized(ToScored(rs), i)))
  }

  lemma VectorHitsFused(rs: seq<SearchResult>)
    requires DistinctBy(ResultId(), rs)
    ensures var vs := Normalize(ToScored(rs)); FuseAll(vs, [], AddKeys(AddKeys([], vs), [])) == VectorFused(rs)
  {
    var vs := Normalize(ToScored(rs));
    VectorIds(rs);
    var ids := AddKeys([], vs);
    forall i | 0 <= i < |rs| ensures FuseAll(vs, [], ids)[i] == VectorFused(rs)[i] { FusedAlone(rs, i); }
    assert FuseAll(vs, [], ids) == VectorFused(rs);
  }

  lemma VectorIds(rs: seq<SearchResult>)
    requires DistinctBy(ResultId(), rs)
    ensures var ids := AddKeys([], Normalize(ToScored(rs)));
            |ids| == |rs| && forall i :: 0 <= i < |rs| ==> ids[i] == rs[i].id
  {
    var vs := Normalize(ToScored(rs));
    KeysInOrder(rs, |rs|);
    NormalizedInUnit(ToScored(rs), |rs|);
    AddNewKeys([], vs);
    forall i | 0 <= i < |rs| ensures AddKeys([], vs)[i] == rs[i].id { assert AddKeys([], vs)[0 + i] == vs[i].key; }
  }

  lemma FusedAlone(rs: seq<SearchResult>, i: nat)
    requires i < |rs|
    ensures Fused(Normalize(ToScored(rs)), [], rs[i].id) == VECTOR_WEIGHT * Normalized(ToScored(rs), i)
  {}

  // Main result: then the hits come in the order of their own scores, as long as there is room.
  lemma {:induction false} VectorOnlyRanking(rs: seq<SearchResult>, topK: nat) returns (at: seq<nat>)
    requires DistinctBy(ResultId(), rs)
    ensures OwnOrder(rs, at) && FirstOf(rs, at, topK, Hybrid(rs, [], topK))
  {
    at := StableSortPlaces(Descending(), VectorFused(rs));
    RankedVectors(rs);
    OwnOrderFrom(rs, at);
    SortedHits(rs, StableSort(Descending(), VectorFused(rs)), at, topK);
  }

  lemma RankedVectors(rs: seq<SearchResult>)
    requires DistinctBy(ResultId(), rs)
    ensures Ranked(rs, []) == StableSort(Descending(), VectorFused(rs))
  {
    VectorHitsFused(rs);
    assert Normalize([]) == [];
  }

  lemma {:induction false} SortedHits(rs: seq<SearchResult>, fs: seq<Scored>, at: seq<nat>, topK: nat)
    requires DistinctBy(ResultId(), rs) && Places(Descending(), VectorFused(rs), fs, at)
    ensures FirstOf(rs, at, topK, Hydrate(Take(fs, topK), rs))
  {
    var top := Take(fs, topK);
    forall n | 0 <= n < |top| ensures at[n] < |rs| && Original(rs, top[n].id) == Some(rs[at[n]]) {
      assert fs[n] == VectorFused(rs)[at[n]];
      OriginalOf(rs, at[n]);
    }
    HydrateAll(top, rs, at);
  }

  lemma {:induction false} OwnOrderFrom(rs: seq<SearchResult>, at: seq<nat>)
    requires DistinctBy(ResultId(), rs)
    requires Places(Descending(), VectorFused(rs), StableSort(Descending(), VectorFused(rs)), at) && HasAll(at, |rs|)
    ensures OwnOrder(rs, at)
  {
    forall m, n | 0 <= m < n < |at|
      ensures rs[at[m]].score > rs[at[n]].score || (rs[at[m]].score == rs[at[n]].score && at[m] < at[n])
    {
      var i, j := at[m], at[n];
      assert Before(Descending(), VectorFused(rs), i, j);
      AllCount(rs, i);
      AllCount(rs, j);
      NormalizeKeepsOrder(ToScored(rs), i, j);
    }
  }

  // --- Better hits rank first ---

  ghost predicate KeywordHit(keywords: seq<Scored>, id: string, score: real) {
    exists i :: 0 <= i < |keywords| && keywords[i] == Scored(id, score)
  }

  ghost predicate NoKeywordHit(keywords: seq<Scored>, id: string) {
    forall i :: 0 <= i < |keywords| ==> keywords[i].id != id
  }

  // The keyword search found b not at all, or a with at least the score of b.
  ghost predicate AtLeastByKeywords(keywords: seq<Scored>, a: string, b: string) {
    NoKeywordHit(keywords, b) || exists u, v :: KeywordHit(keywords, a, u) && KeywordHit(keywords, b, v) && u >= v
  }

  ghost predicate BetterByKeywords(keywords: seq<Scored>, a: string, b: string) {
    exists u, v :: KeywordHit(keywords, a, u) && KeywordHit(keywords, b, v) && u > v
  }

  lemma KeywordsCompare(keywords: seq<Scored>, a: string, b: string)
    requires DistinctBy(IdOf(), keywords)
    ensures AtLeastByKeywords(keywords, a, b) ==> ScoreOf(Normalize(keywords), a) >= ScoreOf(Normalize(keywords), b)
    ensures BetterByKeywords(keywords, a, b) ==> ScoreOf(Normalize(keywords), a) > ScoreOf(Normalize(keywords), b)
  {
    NormalizedInUnit(keywords, |keywords|);
    forall i: nat, j: nat | i < |keywords| && j < |keywords|
      ensures keywords[i].score >= keywords[j].score ==> Normalized(keywords, i) >= Normalized(keywords, j)
      ensures keywords[i].score > keywords[j].score ==> Normalized(keywords, i) > Normalized(keywords, j)
    {
      AllCountIn(keywords, i);
      AllCountIn(keywords, j);
      NormalizeKeepsOrder(keywords, i, j);
    }
    forall u, v | KeywordHit(keywords, a, u) && KeywordHit(keywords, b, v)
      ensures u >= v ==> ScoreOf(Normalize(keywords), a) >= ScoreOf(Normalize(keywords), b)
      ensures u > v ==> ScoreOf(Normalize(keywords), a) > ScoreOf(Normalize(keywords), b)
    {
      var i: nat :| i < |keywords| && keywords[i] == Scored(a, u);
      var j: nat :| j < |keywords| && keywords[j] == Scored(b, v);
      assert Normalized(keywords, i) == ScoreOf(Normalize(keywords), a);
      assert Normalized(keywords, j) == ScoreOf(Normalize(keywords), b);
    }
  }

  lemma AllCountIn(items: seq<Scored>, i: nat)
    requires DistinctBy(IdOf(), items) && i < |items|
    ensures Counts(items, i)
  {
    forall j | i < j < |items| ensures items[j].id != items[i].id { assert IdOf()(items[i]) != IdOf()(items[j]); }
  }

  // Hit x is at least as good as hit y in both searches, and better in one.
  ghost predicate Dominates(rs: seq<SearchResult>, keywords: seq<Scored>, x: nat, y: nat)
    requires x < |rs| && y < |rs|
  {
    && rs[x].score >= rs[y].score && AtLeastByKeywords(keywords, rs[x].id, rs[y].id)
    && (rs[x].score > rs[y].score || BetterByKeywords(keywords, rs[x].id, rs[y].id))
  }

  lemma DominatesByScore(rs: seq<SearchResult>, keywords: seq<Scored>, x: nat, y: nat)
    requires DistinctBy(ResultId(), rs) && DistinctBy(IdOf(), keywords)
    requires x < |rs| && y < |rs| && Dominates(rs, keywords, x, y)
    ensures FusedScore(rs, keywords, rs[x].id) > FusedScore(rs, keywords, rs[y].id)
  {
    AllCount(rs, x);
    AllCount(rs, y);
    NormalizeKeepsOrder(ToScored(rs), x, y);
    KeywordsCompare(keywords, rs[x].id, rs[y].id);
  }

  // Main result: it ranks before it.
  lemma {:induction false} BetterRanksFirst(rs: seq<SearchResult>, keywords: seq<Scored>, topK: nat, x: nat, y: nat, n: nat)
    returns (m: nat)
    requires DistinctBy(ResultId(), rs) && DistinctBy(IdOf(), keywords)
    requires x < |rs| && y < |rs| && Dominates(rs, keywords, x, y)
    requires n < |Hybrid(rs, keywords, topK)| && Hybrid(rs, keywords, topK)[n].id == rs[y].id
    ensures m < n && Hybrid(rs, keywords, topK)[m].id == rs[x].id
  {
    DominatesByScore(rs, keywords, x, y);
    var i := RankOf(rs, keywords, rs[x]);
    HitAt(rs, keywords, topK, n);
    HydrateLength(Take(Ranked(rs, keywords), topK), rs);
    HigherRanksEarlier(rs, keywords, i, Place(rs, keywords, topK, n));
    OriginalOf(rs, x);
    KeptWithinTop(rs, keywords, topK, i);
    m :| 0 <= m < |Hybrid(rs, keywords, topK)| && Hybrid(rs, keywords, topK)[m].id == Ranked(rs, keywords)[i].id;
    HigherIsEarlier(rs, keywords, topK, m, n);
  }

  lemma HigherRanksEarlier(rs: seq<SearchResult>, keywords: seq<Scored>, i: nat, p: nat)
    requires i < |Ranked(rs, keywords)| && p < |Ranked(rs, keywords)|
    requires Ranked(rs, keywords)[i].score > Ranked(rs, keywords)[p].score
    ensures i < p
  {
    if p < i { RankedOrder(rs, keywords, p, i); }
  }

  lemma HigherIsEarlier(rs: seq<SearchResult>, keywords: seq<Scored>, topK: nat, m: nat, n: nat)
    requires m < |Hybrid(rs, keywords, topK)| && n < |Hybrid(rs, keywords, topK)|
    requires FusedScore(rs, keywords, Hybrid(rs, keywords, topK)[m].id) > FusedScore(rs, keywords, Hybrid(rs, keywords, topK)[n].id)
    ensures m < n
  {
    HybridRanking(rs, keywords, topK);
  }

  // --- The weights ---

  // A best vector hit gets 0.7 if the keyword search did not find it and 1 if it is best there,
  // too; a best keyword hit gets 0.3 if it is the worst vector hit.
  lemma {:induction false} WeightsOfBestHits(rs: seq<SearchResult>, keywords: seq<Scored>, i: nat, j: nat)
    requires i < |rs| && Counts(ToScored(rs), i)
    ensures IsBest(ToScored(rs), i) && NoKeywordHit(keywords, rs[i].id) ==> FusedScore(rs, keywords, rs[i].id) == 0.7
    ensures j < |keywords| && Counts(keywords, j) && IsBest(keywords, j) && keywords[j].id == rs[i].id ==>
              && (IsBest(ToScored(rs), i) ==> FusedScore(rs, keywords, rs[i].id) == 1.0)
              && (IsWorst(ToScored(rs), i) ==> FusedScore(rs, keywords, rs[i].id) == 0.3)
  {
    NormalizeEnds(ToScored(rs), i);
    NormalizedInUnit(keywords, |keywords|);
    if j < |keywords| && Counts(keywords, j) { NormalizeEnds(keywords, j); }
  }

  // --- As written ---

  method RetrieveHybrid(
    vectorResults: seq<SearchResult>, bm25Indexed: bool, keywordResults: seq<Scored>, optionTopK: nat, configTopK: nat)
    returns (results: seq<SearchResult>)
    ensures !bm25Indexed ==> results == Take(vectorResults, TopK(optionTopK, configTopK))
    ensures bm25Indexed ==> results == Hybrid(vectorResults, keywordResults, TopK(optionTopK, configTopK))
    ensures var topK := if optionTopK != 0 then optionTopK else if configTopK != 0 then configTopK else 5;
            && |results| <= topK
            && (!bm25Indexed ==> results <= vectorResults && (|vectorResults| <= topK ==> results == vectorResults))
            && (bm25Indexed && keywordResults == [] && DistinctBy(ResultId(), vectorResults) ==>
                  exists at :: OwnOrder(vectorResults, at) && FirstOf(vectorResults, at, topK, results))
  {
    var topK := TopK(optionTopK, configTopK);
    HybridRanking(vectorResults, keywordResults, topK);
    if keywordResults == [] && DistinctBy(ResultId(), vectorResults) {
      ghost var at := VectorOnlyRanking(vectorResults, topK);
    }
    if !bm25Indexed { return Take(vectorResults, topK); }
    var vectorScores := Normalize(ToScored(vectorResults));
    var keywordScores := Normalize(keywordResults);
    var allIds := AddKeys(AddKeys([], vectorScores), keywordScores);
    var fused: seq<Scored> := [];
    for i := 0 to |allIds|
      invariant fused == FuseAll(vectorScores, keywordScores, allIds)[..i]
    {
      var id := allIds[i];
      assert FuseAll(vectorScores, keywordScores, allIds)[i] == Scored(id, Fused(vectorScores, keywordScores, id));
      var vs := match Get(vectorScores, id) case Some(v) => v case None => 0.0;
      var ks := match Get(keywordScores, id) case Some(v) => v case None => 0.0;
      fused := fused + [Scored(id, VECTOR_WEIGHT * vs + KEYWORD_WEIGHT * ks)];
    }
    assert fused == FuseAll(vectorScores, keywordScores, allIds);
    fused := StableSort(Descending(), fused);
    results := Hydrate(Take(fused, topK), vectorResults);
  }
}
