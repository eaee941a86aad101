/**
 * Hybrid score fusion of app/retrieval/search.py: min-max normalisation,
 * the join of vector hits onto the corpus by (source, content), the
 * weighted sum, the metadata filter, the drop of non-positive scores, and
 * the stable descending sort cut to `top_k`.
 *
 * The BM25 scores of the corpus for the query are an input sequence.
 */
module Fusion {
  import opened Documents
  import opened Ranking

  /** The defaults of hybrid_search's keyword arguments. */
  const DefaultTopK: int := 8
  const DefaultVectorWeight: real := 0.7
  const DefaultKeywordWeight: real := 0.3

  /**
   * A vector search hit: its score and the `source` and `content` of its
   * payload, `None` where the payload lacks the key (or has no payload).
   */
  datatype VectorHit = VectorHit(score: real, source: Option<string>, content: Option<string>)

  /** A corpus entry; a missing `source` is `None`, a missing `metadata` the empty map. */
  datatype CorpusDoc = CorpusDoc(source: Option<string>, content: string, metadata: Metadata)

  datatype HybridHit = HybridHit(source: string, score: real, content: string, metadata: Metadata)

  /** The join key `(source, content)`. */
  type Key = (string, string)

  function HitKey(h: VectorHit): Key {
    (h.source.GetOr("unknown"), h.content.GetOr(""))
  }

  function DocKey(d: CorpusDoc): Key {
    (d.source.GetOr("unknown"), d.content)
  }

  function HitScore(h: HybridHit): real {
    h.score
  }

  // ---------------------------------------------------------------------------
  // _normalize

  function SeqMin(s: seq<real>): (m: real)
    requires s != []
    ensures m in s && forall i :: 0 <= i < |s| ==> m <= s[i]
  {
    if |s| == 1 then s[0]
    else
      var rest := SeqMin(s[1..]);
      if s[0] <= rest then s[0] else rest
  }

  function SeqMax(s: seq<real>): (m: real)
    requires s != []
    ensures m in s && forall i :: 0 <= i < |s| ==> s[i] <= m
  {
    if |s| == 1 then s[0]
    else
      var rest := SeqMax(s[1..]);
      if s[0] >= rest then s[0] else rest
  }

  predicate AllEqual(s: seq<real>) {
    forall i, j :: 0 <= i < |s| && 0 <= j < |s| ==> s[i] == s[j]
  }

  /** `_normalize`: min-max scaling, all 1.0 when every value is the same. */
  function Normalize(values: seq<real>): (r: seq<real>)
    ensures |r| == |values|
  {
    if values == [] then []
    else
      var lo := SeqMin(values);
      var hi := SeqMax(values);
      if hi == lo then seq(|values|, _ => 1.0)
      else seq(|values|, i requires 0 <= i < |values| => Scale(values[i], lo, hi))
  }

  /** `(v - v_min) / (v_max - v_min)`. */
  function Scale(v: real, lo: real, hi: real): real
    requires lo < hi
  {
    (v - lo) / (hi - lo)
  }

  /** Equal values all normalise to 1.0. */
  lemma NormalizeAllEqual(values: seq<real>)
    requires AllEqual(values)
    ensures forall i :: 0 <= i < |values| ==> Normalize(values)[i] == 1.0
  {
    if values != [] {
      var lo := SeqMin(values);
      var hi := SeqMax(values);
      var a :| 0 <= a < |values| && values[a] == lo;
      var b :| 0 <= b < |values| && values[b] == hi;
    }
  }

  /** Values that are not all equal have a minimum strictly below their maximum. */
  lemma MinBelowMax(values: seq<real>)
    requires !AllEqual(values)
    ensures values != [] && SeqMin(values) < SeqMax(values)
  {
    var i, j :| 0 <= i < |values| && 0 <= j < |values| && values[i] != values[j];
  }

  /**
   * Otherwise every normalised value lies in [0, 1], the minimum goes to 0
   * and the maximum to 1.
   */
  lemma NormalizeSpread(values: seq<real>)
    requires !AllEqual(values)
    ensures var r := Normalize(values);
      && (forall i :: 0 <= i < |values| ==> 0.0 <= r[i] <= 1.0)
      && (forall i :: 0 <= i < |values| && values[i] == SeqMin(values) ==> r[i] == 0.0)
      && (forall i :: 0 <= i < |values| && values[i] == SeqMax(values) ==> r[i] == 1.0)
  {
    MinBelowMax(values);
    var lo := SeqMin(values);
    var hi := SeqMax(values);
    var r := Normalize(values);
    forall i | 0 <= i < |values|
      ensures 0.0 <= r[i] <= 1.0
      ensures values[i] == lo ==> r[i] == 0.0
      ensures values[i] == hi ==> r[i] == 1.0
    {
      assert r[i] == Scale(values[i], lo, hi);
      ScaleBounds(values[i], lo, hi);
    }
  }

  /** ... and the order of values is kept in both directions. */
  lemma NormalizeMonotone(values: seq<real>)
    requires !AllEqual(values)
    ensures var r := Normalize(values);
      forall i, j :: 0 <= i < |values| && 0 <= j < |values| ==> (values[i] <= values[j] <==> r[i] <= r[j])
  {
    MinBelowMax(values);
    var lo := SeqMin(values);
    var hi := SeqMax(values);
    var r := Normalize(values);
    forall i, j | 0 <= i < |values| && 0 <= j < |values| ensures values[i] <= values[j] <==> r[i] <= r[j] {
      assert r[i] == Scale(values[i], lo, hi) && r[j] == Scale(values[j], lo, hi);
      ScaleMonotone(values[i], values[j], lo, hi);
    }
  }

  /** Whatever the values, every normalised value lies in [0, 1]. */
  lemma NormalizeInUnit(values: seq<real>)
    ensures forall i :: 0 <= i < |values| ==> 0.0 <= Normalize(values)[i] <= 1.0
  {
    if AllEqual(values) {
      NormalizeAllEqual(values);
    } else {
      NormalizeSpread(values);
    }
  }

  lemma ScaleBounds(v: real, lo: real, hi: real)
    requires lo <= v <= hi && lo < hi
    ensures 0.0 <= Scale(v, lo, hi) <= 1.0
    ensures v == lo ==> Scale(v, lo, hi) == 0.0
    ensures v == hi ==> Scale(v, lo, hi) == 1.0
  {
    var d := hi - lo;
    assert Scale(lo, lo, hi) == 0.0 / d == 0.0;
    assert Scale(hi, lo, hi) == d / d == 1.0;
    ScaleMonotone(lo, v, lo, hi);
    ScaleMonotone(v, hi, lo, hi);
  }

  lemma ScaleMonotone(x: real, y: real, lo: real, hi: real)
    requires lo < hi
    ensures x <= y <==> Scale(x, lo, hi) <= Scale(y, lo, hi)
  {
    var d := hi - lo;
    assert Scale(y, lo, hi) - Scale(x, lo, hi) == (y - x) / d;
  }

  // ---------------------------------------------------------------------------
  // HybridRetriever.keyword_scores

  /**
   * `keyword_scores`: with no documents there is no BM25 index and the
   * result is `len(docs)` zeros, i.e. empty; otherwise the BM25 scores.
   */
  function KeywordScores(docCount: nat, bm25: seq<real>): (r: seq<real>)
    ensures |bm25| == docCount ==> |r| == docCount
  {
    if docCount == 0 then seq(docCount, _ => 0.0) else bm25
  }

  // ---------------------------------------------------------------------------
  // The join of vector hits onto the corpus

  /** `norms[i] if i < len(norms) else 0.0`. */
  function NormAt(norms: seq<real>, i: nat): real {
    if i < |norms| then norms[i] else 0.0
  }

  function RawScores(hits: seq<VectorHit>): (r: seq<real>)
    ensures |r| == |hits|
  {
    seq(|hits|, i requires 0 <= i < |hits| => hits[i].score)
  }

  /**
   * `vector_norm_map.get(key, 0.0)` after the map-filling loop: the
   * normalised score of the last hit with this key, or 0.0.
   */
  function VectorComponent(hits: seq<VectorHit>, norms: seq<real>, key: Key): real {
    if hits == [] then 0.0
    else if HitKey(hits[|hits| - 1]) == key then NormAt(norms, |hits| - 1)
    else VectorComponent(hits[..|hits| - 1], norms, key)
  }

  /** Hit `i` is the last hit whose key is `key`. */
  predicate LastWithKey(hits: seq<VectorHit>, key: Key, i: nat) {
    i < |hits| && HitKey(hits[i]) == key && forall j :: i < j < |hits| ==> HitKey(hits[j]) != key
  }

  /** With no hit carrying the key, the component is 0.0. */
  lemma {:induction false} VectorComponentAbsent(hits: seq<VectorHit>, norms: seq<real>, key: Key)
    requires forall i :: 0 <= i < |hits| ==> HitKey(hits[i]) != key
    ensures VectorComponent(hits, norms, key) == 0.0
  {
    if hits != [] {
      var init := hits[..|hits| - 1];
      assert forall i :: 0 <= i < |init| ==> init[i] == hits[i];
      VectorComponentAbsent(init, norms, key);
    }
  }

  /** Otherwise the last hit with the key decides: later duplicates overwrite earlier ones. */
  lemma {:induction false} VectorComponentIsLast(hits: seq<VectorHit>, norms: seq<real>, key: Key, i: nat)
    requires LastWithKey(hits, key, i)
    ensures VectorComponent(hits, norms, key) == NormAt(norms, i)
  {
    var last := |hits| - 1;
    if i < last {
      var init := hits[..last];
      assert HitKey(hits[last]) != key;
      assert LastWithKey(init, key, i) by {
        assert forall j :: i < j < |init| ==> init[j] == hits[j];
      }
      VectorComponentIsLast(init, norms, key, i);
    }
  }

  /** Read from normalised scores, a vector component lies in [0, 1]. */
  lemma {:induction false} VectorComponentBounded(hits: seq<VectorHit>, norms: seq<real>, key: Key)
    requires forall i :: 0 <= i < |norms| ==> 0.0 <= norms[i] <= 1.0
    ensures 0.0 <= VectorComponent(hits, norms, key) <= 1.0
  {
    if hits != [] && HitKey(hits[|hits| - 1]) != key {
      VectorComponentBounded(hits[..|hits| - 1], norms, key);
    }
  }

  function MapGet(m: map<Key, real>, key: Key): real {
    if key in m then m[key] else 0.0
  }

  /** The loop filling `vector_norm_map`; a later duplicate key overwrites. */
  method BuildNormMap(hits: seq<VectorHit>, norms: seq<real>) returns (m: map<Key, real>)
    ensures forall key :: key in m <==> exists i :: 0 <= i < |hits| && HitKey(hits[i]) == key
    ensures forall key :: MapGet(m, key) == VectorComponent(hits, norms, key)
  {
    m := map[];
    for i := 0 to |hits|
      invariant forall key :: key in m <==> exists j :: 0 <= j < i && HitKey(hits[j]) == key
      invariant forall key :: MapGet(m, key) == VectorComponent(hits[..i], norms, key)
    {
      var key := HitKey(hits[i]);
      var value := if i < |norms| then norms[i] else 0.0;
      assert hits[..i + 1][..i] == hits[..i];
      m := m[key := value];
    }
    assert hits[..|hits|] == hits;
  }

  // ---------------------------------------------------------------------------
  // Fusion

  /** The normalised scores and weights a document's fused score is made of. */
  datatype Scoring = Scoring(hits: seq<VectorHit>, vectorNorms: seq<real>, keywordNorms: seq<real>,
                             vectorWeight: real, keywordWeight: real)

  function ScoringFor(hits: seq<VectorHit>, docs: seq<CorpusDoc>, bm25: seq<real>,
                      vectorWeight: real, keywordWeight: real): Scoring {
    Scoring(hits, Normalize(RawScores(hits)), Normalize(KeywordScores(|docs|, bm25)), vectorWeight, keywordWeight)
  }

  /** `vector_weight * vector_component + keyword_weight * keyword_component`. */
  function FusedScore(sc: Scoring, doc: CorpusDoc, idx: nat): real {
    sc.vectorWeight * VectorComponent(sc.hits, sc.vectorNorms, DocKey(doc))
      + sc.keywordWeight * NormAt(sc.keywordNorms, idx)
  }

  function HitFor(doc: CorpusDoc, score: real): HybridHit {
    HybridHit(doc.source.GetOr("unknown"), score, doc.content, doc.metadata)
  }

  /** `combined` after the first `n` documents: those passing the filter with a positive score. */
  function Survivors(docs: seq<CorpusDoc>, n: nat, sc: Scoring, filter: Option<Metadata>): (r: seq<HybridHit>)
    requires n <= |docs|
    ensures |r| <= n
  {
    if n == 0 then []
    else
      var prev := Survivors(docs, n - 1, sc, filter);
      var doc := docs[n - 1];
      var score := FusedScore(sc, doc, n - 1);
      if !MatchesFilter(doc.metadata, filter) || score <= 0.0 then prev
      else prev + [HitFor(doc, score)]
  }

  /** What hybrid_search returns. */
  function HybridSpec(hits: seq<VectorHit>, docs: seq<CorpusDoc>, bm25: seq<real>, topK: int,
                      filter: Option<Metadata>, vectorWeight: real, keywordWeight: real): seq<HybridHit> {
    var sc := ScoringFor(hits, docs, bm25, vectorWeight, keywordWeight);
    PySliceTo(StableSortDesc(Survivors(docs, |docs|, sc, filter), HitScore), topK)
  }

  /**
   * The loop over the corpus: filter, fused score, drop of non-positive
   * scores, in corpus order.
   */
  method Combine(docs: seq<CorpusDoc>, normMap: map<Key, real>, sc: Scoring, filter: Option<Metadata>)
    returns (combined: seq<HybridHit>)
    requires forall key :: MapGet(normMap, key) == VectorComponent(sc.hits, sc.vectorNorms, key)
    ensures combined == Survivors(docs, |docs|, sc, filter)
  {
    combined := [];
    for idx := 0 to |docs|
      invariant combined == Survivors(docs, idx, sc, filter)
    {
      var doc := docs[idx];
      ghost var fused := FusedScore(sc, doc, idx);
      assert Survivors(docs, idx + 1, sc, filter)
        == if !MatchesFilter(doc.metadata, filter) || fused <= 0.0 then combined else combined + [HitFor(doc, fused)];
      var isMatch := CheckFilter(doc.metadata, filter);
      if !isMatch {
        continue;
      }
      var key := DocKey(doc);
      var vectorComponent := if key in normMap then normMap[key] else 0.0;
      var keywordComponent := if idx < |sc.keywordNorms| then sc.keywordNorms[idx] else 0.0;
      assert vectorComponent == VectorComponent(sc.hits, sc.vectorNorms, key) by {
        assert vectorComponent == MapGet(normMap, key);
      }
      assert keywordComponent == NormAt(sc.keywordNorms, idx);
      var score := sc.vectorWeight * vectorComponent + sc.keywordWeight * keywordComponent;
      assert score == fused by {
        assert sc.vectorWeight * vectorComponent == sc.vectorWeight * VectorComponent(sc.hits, sc.vectorNorms, DocKey(doc));
        assert sc.keywordWeight * keywordComponent == sc.keywordWeight * NormAt(sc.keywordNorms, idx);
      }
      if score <= 0.0 {
        continue;
      }
      combined := combined + [HitFor(doc, score)];
    }
  }

  /** hybrid_search. */
  method HybridSearch(hits: seq<VectorHit>, docs: seq<CorpusDoc>, bm25: seq<real>, topK: int := DefaultTopK,
                      filter: Option<Metadata> := None, vectorWeight: real := DefaultVectorWeight,
                      keywordWeight: real := DefaultKeywordWeight)
    returns (result: seq<HybridHit>)
    ensures result == HybridSpec(hits, docs, bm25, topK, filter, vectorWeight, keywordWeight)
  {
    var keywordNorms := Normalize(KeywordScores(|docs|, bm25));
    var raw: seq<real> := [];
    for i := 0 to |hits|
      invariant |raw| == i && forall j :: 0 <= j < i ==> raw[j] == hits[j].score
    {
      raw := raw + [hits[i].score];
    }
    assert raw == RawScores(hits);
    var vectorNorms := Normalize(raw);
    var normMap := BuildNormMap(hits, vectorNorms);
    var sc := Scoring(hits, vectorNorms, keywordNorms, vectorWeight, keywordWeight);
    var combined := Combine(docs, normMap, sc, filter);
    var sorted := StableSortDesc(combined, HitScore);
    result := PySliceTo(sorted, topK);
  }

  // ---------------------------------------------------------------------------
  // Properties of hybrid_search

  /**
   * Every surviving hit is document `idx` of the corpus with its fused score,
   * passes the filter, and has a positive score.
   */
  lemma {:induction false} SurvivorsProvenance(docs: seq<CorpusDoc>, n: nat, sc: Scoring, filter: Option<Metadata>)
    requires n <= |docs|
    ensures forall h :: h in Survivors(docs, n, sc, filter) ==>
      exists idx :: 0 <= idx < n && h == HitFor(docs[idx], FusedScore(sc, docs[idx], idx))
        && MatchesFilter(docs[idx].metadata, filter) && h.score > 0.0
  {
    if n > 0 {
      SurvivorsProvenance(docs, n - 1, sc, filter);
    }
  }

  /**
   * Every returned hit is a corpus document with its fused score, passes
   * the filter, and has a positive score.
   */
  lemma HybridHitsAreFilteredAndPositive(hits: seq<VectorHit>, docs: seq<CorpusDoc>, bm25: seq<real>, topK: int,
                                         filter: Option<Metadata>, vectorWeight: real, keywordWeight: real)
    ensures var sc := ScoringFor(hits, docs, bm25, vectorWeight, keywordWeight);
      forall h :: h in HybridSpec(hits, docs, bm25, topK, filter, vectorWeight, keywordWeight) ==>
        h.score > 0.0 && MatchesFilter(h.metadata, filter)
        && exists idx :: 0 <= idx < |docs| && h == HitFor(docs[idx], FusedScore(sc, docs[idx], idx))
  {
    var sc := ScoringFor(hits, docs, bm25, vectorWeight, keywordWeight);
    var cands := Survivors(docs, |docs|, sc, filter);
    var sorted := StableSortDesc(cands, HitScore);
    SurvivorsProvenance(docs, |docs|, sc, filter);
    StableSortDescCorrect(cands, HitScore);
    PrefixNonIncreasing(sorted, topK, HitScore);
    forall h | h in HybridSpec(hits, docs, bm25, topK, filter, vectorWeight, keywordWeight)
      ensures h in cands
    {
      assert h in multiset(sorted);
    }
  }

  /**
   * The result is a prefix of the stable descending sort of the survivors
   * (ties keep corpus order), so it never increases in score, and it is no
   * longer than `top_k` or the corpus.
   */
  lemma HybridOrdered(hits: seq<VectorHit>, docs: seq<CorpusDoc>, bm25: seq<real>, topK: int,
                      filter: Option<Metadata>, vectorWeight: real, keywordWeight: real)
    ensures var cands := Survivors(docs, |docs|, ScoringFor(hits, docs, bm25, vectorWeight, keywordWeight), filter);
      var sorted := StableSortDesc(cands, HitScore);
      var result := HybridSpec(hits, docs, bm25, topK, filter, vectorWeight, keywordWeight);
      && IsStableSortDesc(cands, sorted, HitScore)
      && result == sorted[..|result|]
      && NonIncreasing(result, HitScore)
      && |result| <= |docs|
      && (topK >= 0 ==> |result| <= topK)
  {
    var cands := Survivors(docs, |docs|, ScoringFor(hits, docs, bm25, vectorWeight, keywordWeight), filter);
    var sorted := StableSortDesc(cands, HitScore);
    StableSortDescCorrect(cands, HitScore);
    PrefixNonIncreasing(sorted, topK, HitScore);
  }

  /** A candidate is never lost: every document passing the filter with a positive score survives. */
  lemma {:induction false} SurvivorsComplete(docs: seq<CorpusDoc>, n: nat, sc: Scoring, filter: Option<Metadata>)
    requires n <= |docs|
    ensures forall idx :: 0 <= idx < n && MatchesFilter(docs[idx].metadata, filter) && FusedScore(sc, docs[idx], idx) > 0.0
                          ==> HitFor(docs[idx], FusedScore(sc, docs[idx], idx)) in Survivors(docs, n, sc, filter)
  {
    if n > 0 {
      SurvivorsComplete(docs, n - 1, sc, filter);
    }
  }

  /**
   * A document that passes the filter with a positive fused score is
   * returned unless the cut to `top_k` drops it; then the result is full and
   * every returned hit scores at least as high.
   */
  lemma HybridKeepsBest(hits: seq<VectorHit>, docs: seq<CorpusDoc>, bm25: seq<real>, topK: int,
                        filter: Option<Metadata>, vectorWeight: real, keywordWeight: real, idx: nat)
    requires idx < |docs| && MatchesFilter(docs[idx].metadata, filter)
    requires FusedScore(ScoringFor(hits, docs, bm25, vectorWeight, keywordWeight), docs[idx], idx) > 0.0
    ensures var sc := ScoringFor(hits, docs, bm25, vectorWeight, keywordWeight);
      var h := HitFor(docs[idx], FusedScore(sc, docs[idx], idx));
      var result := HybridSpec(hits, docs, bm25, topK, filter, vectorWeight, keywordWeight);
      h !in result ==> (topK >= 0 ==> |result| == topK) && forall r :: r in result ==> r.score >= h.score
  {
    var sc := ScoringFor(hits, docs, bm25, vectorWeight, keywordWeight);
    var h := HitFor(docs[idx], FusedScore(sc, docs[idx], idx));
    var cands := Survivors(docs, |docs|, sc, filter);
    var sorted := StableSortDesc(cands, HitScore);
    var result := PySliceTo(sorted, topK);
    SurvivorsComplete(docs, |docs|, sc, filter);
    StableSortDescCorrect(cands, HitScore);
    assert h in multiset(sorted);
    if h !in result {
      var j :| 0 <= j < |sorted| && sorted[j] == h;
      assert result == sorted[..|result|];
      assert j >= |result|;
      forall r | r in result ensures r.score >= h.score {
        var i :| 0 <= i < |result| && result[i] == r;
        assert sorted[i] == r && HitScore(sorted[i]) >= HitScore(sorted[j]);
      }
    }
  }

  lemma MulNonNeg(x: real, y: real)
    requires 0.0 <= x && 0.0 <= y
    ensures 0.0 <= x * y
  { }

  /** A weighted sum of two values in [0, 1] lies between 0 and the sum of the weights. */
  lemma WeightedSumBounds(wv: real, wk: real, v: real, k: real)
    requires 0.0 <= wv && 0.0 <= wk && 0.0 <= v <= 1.0 && 0.0 <= k <= 1.0
    ensures 0.0 <= wv * v + wk * k <= wv + wk
  {
    var a := wv * v;
    var b := wk * k;
    MulNonNeg(wv, v);
    MulNonNeg(wk, k);
    MulNonNeg(wv, 1.0 - v);
    MulNonNeg(wk, 1.0 - k);
    assert wv * (1.0 - v) == wv - a && wk * (1.0 - k) == wk - b;
  }

  /** The vector component of any key, read from the normalised hit scores, lies in [0, 1]. */
  lemma VectorComponentInUnit(hits: seq<VectorHit>, key: Key)
    ensures 0.0 <= VectorComponent(hits, Normalize(RawScores(hits)), key) <= 1.0
  {
    NormalizeInUnit(RawScores(hits));
    VectorComponentBounded(hits, Normalize(RawScores(hits)), key);
  }

  /** The keyword component of any corpus position lies in [0, 1]. */
  lemma KeywordComponentInUnit(docCount: nat, bm25: seq<real>, idx: nat)
    ensures 0.0 <= NormAt(Normalize(KeywordScores(docCount, bm25)), idx) <= 1.0
  {
    NormalizeInUnit(KeywordScores(docCount, bm25));
  }

  /** Any scoring whose components lie in [0, 1] fuses to at most the sum of its weights. */
  lemma FusedScoreWithin(sc: Scoring, doc: CorpusDoc, idx: nat)
    requires 0.0 <= sc.vectorWeight && 0.0 <= sc.keywordWeight
    requires 0.0 <= VectorComponent(sc.hits, sc.vectorNorms, DocKey(doc)) <= 1.0
    requires 0.0 <= NormAt(sc.keywordNorms, idx) <= 1.0
    ensures 0.0 <= FusedScore(sc, doc, idx) <= sc.vectorWeight + sc.keywordWeight
  {
    WeightedSumBounds(sc.vectorWeight, sc.keywordWeight,
                      VectorComponent(sc.hits, sc.vectorNorms, DocKey(doc)), NormAt(sc.keywordNorms, idx));
  }

  /**
   * With non-negative weights, a document's fused score lies between 0 and
   * the sum of the weights: each component is a normalised score in [0, 1].
   */
  lemma FusedScoreBounded(hits: seq<VectorHit>, docs: seq<CorpusDoc>, bm25: seq<real>,
                          vectorWeight: real, keywordWeight: real, doc: CorpusDoc, idx: nat)
    requires 0.0 <= vectorWeight && 0.0 <= keywordWeight
    ensures var s := FusedScore(ScoringFor(hits, docs, bm25, vectorWeight, keywordWeight), doc, idx);
      0.0 <= s <= vectorWeight + keywordWeight
  {
    var sc := ScoringFor(hits, docs, bm25, vectorWeight, keywordWeight);
    assert sc.hits == hits && sc.vectorNorms == Normalize(RawScores(hits));
    assert sc.keywordNorms == Normalize(KeywordScores(|docs|, bm25));
    assert sc.vectorWeight == vectorWeight && sc.keywordWeight == keywordWeight;
    VectorComponentInUnit(hits, DocKey(doc));
    KeywordComponentInUnit(|docs|, bm25, idx);
    FusedScoreWithin(sc, doc, idx);
  }

  /** With the default weights 0.7 and 0.3 every returned score lies in (0, 1]. */
  lemma DefaultScoresInUnit(hits: seq<VectorHit>, docs: seq<CorpusDoc>, bm25: seq<real>, topK: int,
                            filter: Option<Metadata>)
    ensures forall h :: h in HybridSpec(hits, docs, bm25, topK, filter, DefaultVectorWeight, DefaultKeywordWeight)
                        ==> 0.0 < h.score <= 1.0
  {
    var sc := ScoringFor(hits, docs, bm25, DefaultVectorWeight, DefaultKeywordWeight);
    HybridHitsAreFilteredAndPositive(hits, docs, bm25, topK, filter, DefaultVectorWeight, DefaultKeywordWeight);
    forall h | h in HybridSpec(hits, docs, bm25, topK, filter, DefaultVectorWeight, DefaultKeywordWeight)
      ensures h.score <= 1.0
    {
      var idx :| 0 <= idx < |docs| && h == HitFor(docs[idx], FusedScore(sc, docs[idx], idx));
      FusedScoreBounded(hits, docs, bm25, DefaultVectorWeight, DefaultKeywordWeight, docs[idx], idx);
    }
  }

  /** An empty corpus gives no hits. */
  lemma HybridEmptyCorpus(hits: seq<VectorHit>, bm25: seq<real>, topK: int,
                          filter: Option<Metadata>, vectorWeight: real, keywordWeight: real)
    ensures HybridSpec(hits, [], bm25, topK, filter, vectorWeight, keywordWeight) == []
  {
  }

  // ---------------------------------------------------------------------------
  // A worked case: keyword scores [0, 5, 10] over three documents and one
  // vector hit on the second. The first document fuses to 0 and is dropped;
  // the second scores 0.7 * 1.0 + 0.3 * 0.5 = 0.85 and the third 0.3 * 1.0 = 0.3.

  const ExampleDocs: seq<CorpusDoc> := [CorpusDoc(Some("doc1"), "alpha", map[]),
    CorpusDoc(Some("doc2"), "beta", map[]), CorpusDoc(Some("doc3"), "gamma", map[])]
  const ExampleHits: seq<VectorHit> := [VectorHit(0.9, Some("doc2"), Some("beta"))]
  const ExampleBm25: seq<real> := [0.0, 5.0, 10.0]

  lemma ExampleNorms()
    ensures Normalize(ExampleBm25) == [0.0, 0.5, 1.0]
    ensures Normalize(RawScores(ExampleHits)) == [1.0]
  {
    assert SeqMin(ExampleBm25) == 0.0 && SeqMax(ExampleBm25) == 10.0;
    assert RawScores(ExampleHits) == [0.9];
  }

  lemma ExampleFused()
    ensures var sc := ScoringFor(ExampleHits, ExampleDocs, ExampleBm25, DefaultVectorWeight, DefaultKeywordWeight);
      && FusedScore(sc, ExampleDocs[0], 0) == 0.0
      && FusedScore(sc, ExampleDocs[1], 1) == 0.85
      && FusedScore(sc, ExampleDocs[2], 2) == 0.3
  {
    ExampleNorms();
    var sc := ScoringFor(ExampleHits, ExampleDocs, ExampleBm25, DefaultVectorWeight, DefaultKeywordWeight);
    assert sc.vectorNorms == [1.0] && sc.keywordNorms == [0.0, 0.5, 1.0];
    assert VectorComponent(ExampleHits, [1.0], DocKey(ExampleDocs[0])) == 0.0;
    assert VectorComponent(ExampleHits, [1.0], DocKey(ExampleDocs[1])) == 1.0;
    assert VectorComponent(ExampleHits, [1.0], DocKey(ExampleDocs[2])) == 0.0;
  }

  lemma ExampleSurvivors()
    ensures Survivors(ExampleDocs, 3, ScoringFor(ExampleHits, ExampleDocs, ExampleBm25, DefaultVectorWeight, DefaultKeywordWeight), None)
      == [HybridHit("doc2", 0.85, "beta", map[]), HybridHit("doc3", 0.3, "gamma", map[])]
  {
    ExampleFused();
    var sc := ScoringFor(ExampleHits, ExampleDocs, ExampleBm25, DefaultVectorWeight, DefaultKeywordWeight);
    assert Survivors(ExampleDocs, 1, sc, None) == [];
    assert Survivors(ExampleDocs, 2, sc, None) == [HybridHit("doc2", 0.85, "beta", map[])];
  }

  /** hybrid_search on the worked case with `top_k = 2` returns doc2 (0.85), then doc3 (0.3). */
  lemma HybridExample()
    ensures HybridSpec(ExampleHits, ExampleDocs, ExampleBm25, 2, None, DefaultVectorWeight, DefaultKeywordWeight)
      == [HybridHit("doc2", 0.85, "beta", map[]), HybridHit("doc3", 0.3, "gamma", map[])]
  {
    var sc := ScoringFor(ExampleHits, ExampleDocs, ExampleBm25, DefaultVectorWeight, DefaultKeywordWeight);
    var h2 := HybridHit("doc2", 0.85, "beta", map[]);
    var h3 := HybridHit("doc3", 0.3, "gamma", map[]);
    ExampleSurvivors();
    assert Survivors(ExampleDocs, |ExampleDocs|, sc, None) == [h2, h3];
    SortedPairStays(h2, h3, HitScore);
    assert PySliceTo([h2, h3], 2) == [h2, h3];
  }
}
