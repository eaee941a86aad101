/**
 * The vector store of app/retrieval/qdrant_client.py. `VentureStore`
 * chooses its backend once, at construction; on the local backend it keeps
 * the points in `localPoints`, appended to by `UpsertDocuments` and scanned
 * by `Search` (filter, cosine score, stable descending sort, cut to
 * `top_k`). On the qdrant backend both operations are calls into the
 * client library, which are not modelled beyond their return shape.
 *
 * Vectors are `seq<real>`; the Euclidean norm is a parameter `norm`
 * because Dafny's reals have no square root.
 */
module VectorStore {
  import opened Documents
  import opened Ranking

  datatype Backend = Local | Qdrant

  /** How the client was created: from a URL and API key, or from a local path. */
  datatype ClientConfig = ByUrl(url: string, apiKey: string) | ByLocation(path: string)

  /**
   * The outcome of each step of the constructor's `try` block: importing
   * qdrant-client, creating the client, ensuring the collection exists.
   */
  datatype RemoteAttempt = RemoteAttempt(libraryImported: bool, clientCreated: bool, collectionEnsured: bool)

  /** A stored point's payload; `kind` is the document's `type`. */
  datatype Payload = Payload(source: string, kind: string, content: string, metadata: Metadata)

  /** A local point; `id` stands for the `str(uuid4())` the Python code draws. */
  datatype Point = Point(id: nat, vector: seq<real>, payload: Payload)

  datatype LocalHit = LocalHit(score: real, payload: Payload)

  /**
   * What `search` yields: the qdrant client's answer (not modelled), the
   * ranked local hits, or the ValueError numpy raises when a vector and
   * the query differ in length.
   */
  datatype SearchOutcome = Delegated | Ranked(hits: seq<LocalHit>) | ShapeMismatch

  /** The defaults of `__init__`'s `local_path` and `search`'s `top_k`. */
  const DefaultLocalPath: string := ":memory:"
  const DefaultTopK: int := 8

  function PayloadOf(doc: SourceDocument): Payload {
    Payload(doc.source, doc.kind, doc.content, doc.metadata)
  }

  function LocalHitScore(h: LocalHit): real {
    h.score
  }

  function Min(a: nat, b: nat): nat {
    if a <= b then a else b
  }

  /** The points appended for `zip(docs, vectors)`, numbered from `firstId`. */
  function NewPoints(docs: seq<SourceDocument>, vectors: seq<seq<real>>, firstId: nat): (r: seq<Point>)
    ensures |r| == Min(|docs|, |vectors|)
  {
    seq(Min(|docs|, |vectors|), i requires 0 <= i < Min(|docs|, |vectors|) =>
      Point(firstId + i, vectors[i], PayloadOf(docs[i])))
  }

  /**
   * The count `upsert_documents` returns on the local path, `len(vectors)`,
   * is the number of points appended exactly when there are no more
   * vectors than documents.
   */
  lemma UpsertCountMatchesAppended(docs: seq<SourceDocument>, vectors: seq<seq<real>>, firstId: nat)
    ensures |NewPoints(docs, vectors, firstId)| == |vectors| <==> |vectors| <= |docs|
  {
  }

  // ---------------------------------------------------------------------------
  // Cosine scoring

  /** `np.dot` on vectors of equal length. */
  function Dot(a: seq<real>, b: seq<real>): real
    requires |a| == |b|
  {
    if a == [] then 0.0 else a[0] * b[0] + Dot(a[1..], b[1..])
  }

  /** `float(norm) or 1.0`: a zero norm is replaced by 1.0, so it is never zero. */
  function NonZeroOr(x: real): (r: real)
    ensures r != 0.0
    ensures x != 0.0 ==> r == x
    ensures x == 0.0 ==> r == 1.0
  {
    if x == 0.0 then 1.0 else x
  }

  lemma ProductNonZero(x: real, y: real)
    requires x != 0.0 && y != 0.0
    ensures x * y != 0.0
  {
  }

  /** `dot / (q_norm * v_norm)` for two norms already guarded against zero. */
  function Quotient(dot: real, qn: real, vn: real): real
    requires qn != 0.0 && vn != 0.0
  {
    ProductNonZero(qn, vn);
    dot / (qn * vn)
  }

  /** `dot(q, v) / (q_norm * v_norm)` with both norms guarded. */
  function Cosine(q: seq<real>, v: seq<real>, norm: seq<real> -> real): real
    requires |q| == |v|
  {
    Quotient(Dot(q, v), NonZeroOr(norm(q)), NonZeroOr(norm(v)))
  }

  lemma {:induction false} DotSymmetric(a: seq<real>, b: seq<real>)
    requires |a| == |b|
    ensures Dot(a, b) == Dot(b, a)
  {
    if a != [] {
      DotSymmetric(a[1..], b[1..]);
    }
  }

  /** The score is symmetric in the query and the stored vector. */
  lemma CosineSymmetric(q: seq<real>, v: seq<real>, norm: seq<real> -> real)
    requires |q| == |v|
    ensures Cosine(q, v, norm) == Cosine(v, q, norm)
  {
    DotSymmetric(q, v);
    var qn := NonZeroOr(norm(q));
    var vn := NonZeroOr(norm(v));
    assert qn * vn == vn * qn;
  }

  predicate IsZero(v: seq<real>) {
    forall i :: 0 <= i < |v| ==> v[i] == 0.0
  }

  lemma {:induction false} DotZero(a: seq<real>, b: seq<real>)
    requires |a| == |b| && IsZero(a)
    ensures Dot(a, b) == 0.0
  {
    if a != [] {
      assert IsZero(a[1..]) by {
        forall i | 0 <= i < |a[1..]| ensures a[1..][i] == 0.0 {
          assert a[1..][i] == a[i + 1];
        }
      }
      DotZero(a[1..], b[1..]);
    }
  }

  /** A zero vector, stored or queried, scores 0 whatever the norm reports. */
  lemma ZeroVectorScoresZero(q: seq<real>, v: seq<real>, norm: seq<real> -> real)
    requires |q| == |v| && (IsZero(q) || IsZero(v))
    ensures Cosine(q, v, norm) == 0.0
  {
    if IsZero(q) {
      DotZero(q, v);
    } else {
      DotZero(v, q);
      DotSymmetric(q, v);
    }
  }

  /** Where `norm` is the Euclidean norm of a non-zero `v`, `v` scores 1 against itself. */
  lemma SelfSimilarity(v: seq<real>, norm: seq<real> -> real)
    requires norm(v) >= 0.0 && norm(v) * norm(v) == Dot(v, v) && Dot(v, v) > 0.0
    ensures Cosine(v, v, norm) == 1.0
  {
    var d := Dot(v, v);
    var n := NonZeroOr(norm(v));
    assert n == norm(v);
    assert n * n == d;
    assert Cosine(v, v, norm) == d / (n * n) == d / d;
    assert d / d == 1.0;
  }

  // ---------------------------------------------------------------------------
  // The local scan

  /**
   * The hits collected from the first `n` points: points failing the filter
   * are skipped; the first passing point whose vector differs in length
   * from the query makes the scan fail.
   */
  function ScanPoints(points: seq<Point>, n: nat, query: seq<real>, filter: Option<Metadata>,
                      norm: seq<real> -> real): Option<seq<LocalHit>>
    requires n <= |points|
  {
    if n == 0 then Some([])
    else
      var prev := ScanPoints(points, n - 1, query, filter, norm);
      var p := points[n - 1];
      if prev.None? then None
      else if !MatchesFilter(p.payload.metadata, filter) then prev
      else if |p.vector| != |query| then None
      else Some(prev.value + [LocalHit(Cosine(query, p.vector, norm), p.payload)])
  }

  /** The points whose metadata passes the filter, in order. */
  function Passing(points: seq<Point>, filter: Option<Metadata>): (r: seq<Point>)
    ensures |r| <= |points|
  {
    if points == [] then []
    else
      var last := points[|points| - 1];
      Passing(points[..|points| - 1], filter) + (if MatchesFilter(last.payload.metadata, filter) then [last] else [])
  }

  /** What the local branch of `search` yields. */
  function LocalSearch(points: seq<Point>, query: seq<real>, topK: int, filter: Option<Metadata>,
                       norm: seq<real> -> real): SearchOutcome {
    match ScanPoints(points, |points|, query, filter, norm)
    case None => ShapeMismatch
    case Some(hits) => Ranked(PySliceTo(StableSortDesc(hits, LocalHitScore), topK))
  }

  /**
   * The scan fails exactly when some point passing the filter has a vector
   * of another length than the query; otherwise hit `k` is the `k`-th point
   * passing the filter, scored against the query, so the hits follow the
   * stored order with nothing dropped, repeated or added.
   */
  lemma {:induction false} ScanPointsExact(points: seq<Point>, n: nat, query: seq<real>, filter: Option<Metadata>,
                                           norm: seq<real> -> real)
    requires n <= |points|
    ensures var scan := ScanPoints(points, n, query, filter, norm);
      var passing := Passing(points[..n], filter);
      && (scan.None? <==> exists i :: 0 <= i < n && MatchesFilter(points[i].payload.metadata, filter)
                                        && |points[i].vector| != |query|)
      && (scan.Some? ==> |scan.value| == |passing|)
      && (scan.Some? ==> forall k :: 0 <= k < |passing| ==>
            |passing[k].vector| == |query|
            && scan.value[k] == LocalHit(Cosine(query, passing[k].vector, norm), passing[k].payload))
  {
    if n > 0 {
      ScanPointsExact(points, n - 1, query, filter, norm);
      assert points[..n][..n - 1] == points[..n - 1];
      assert points[..n][n - 1] == points[n - 1];
    }
  }

  /** Every passing point passes the filter and is one of the points. */
  lemma {:induction false} PassingMembers(points: seq<Point>, filter: Option<Metadata>)
    ensures forall p :: p in Passing(points, filter) <==> p in points && MatchesFilter(p.payload.metadata, filter)
  {
    if points != [] {
      var init := points[..|points| - 1];
      PassingMembers(init, filter);
      assert points == init + [points[|points| - 1]];
    }
  }

  /**
   * A successful local search returns hits that pass the filter, never
   * increase in score, keep stored order among equal scores, and number at
   * most `top_k` and at most the points passing the filter.
   */
  lemma LocalSearchRanked(points: seq<Point>, query: seq<real>, topK: int, filter: Option<Metadata>,
                          norm: seq<real> -> real)
    ensures var scan := ScanPoints(points, |points|, query, filter, norm);
      LocalSearch(points, query, topK, filter, norm).Ranked? ==>
        var r := LocalSearch(points, query, topK, filter, norm).hits;
        var sorted := StableSortDesc(scan.value, LocalHitScore);
        && IsStableSortDesc(scan.value, sorted, LocalHitScore)
        && r == sorted[..|r|]
        && NonIncreasing(r, LocalHitScore)
        && (forall h :: h in r ==> MatchesFilter(h.payload.metadata, filter))
        && |r| <= |Passing(points, filter)|
        && (topK >= 0 ==> |r| <= topK)
  {
    var scan := ScanPoints(points, |points|, query, filter, norm);
    var passing := Passing(points, filter);
    ScanPointsExact(points, |points|, query, filter, norm);
    assert points[..|points|] == points;
    if scan.Some? {
      var hits := scan.value;
      var sorted := StableSortDesc(hits, LocalHitScore);
      StableSortDescCorrect(hits, LocalHitScore);
      PrefixNonIncreasing(sorted, topK, LocalHitScore);
      PassingMembers(points, filter);
      var r := PySliceTo(sorted, topK);
      forall h | h in r ensures MatchesFilter(h.payload.metadata, filter) {
        assert h in multiset(sorted);
        assert h in hits;
        var k :| 0 <= k < |hits| && hits[k] == h;
        assert h.payload == passing[k].payload;
        assert passing[k] in passing;
      }
    }
  }

  // ---------------------------------------------------------------------------
  // VentureQdrant

  class VentureStore {
    const collectionName: string
    const vectorSize: int
    var backend: Backend
    var client: Option<ClientConfig>
    var localPoints: seq<Point>
    /** The next fresh point id. */
    var nextId: nat

    /**
     * The local backend has no client and the qdrant backend has one;
     * point ids increase along `localPoints` and stay below `nextId`, so
     * they are all distinct.
     */
    ghost predicate Valid()
      reads this
    {
      && (backend == Local <==> client.None?)
      && (forall i, j :: 0 <= i < j < |localPoints| ==> localPoints[i].id < localPoints[j].id)
      && (forall i :: 0 <= i < |localPoints| ==> localPoints[i].id < nextId)
    }

    /**
     * `__init__`: the qdrant backend is chosen only when the import, the
     * client construction and the collection check all succeed; any failure
     * leaves the local backend with no client.
     */
    constructor(collectionName: string, vectorSize: int, qdrantUrl: string := "", qdrantApiKey: string := "",
                localPath: string := DefaultLocalPath, attempt: RemoteAttempt)
      ensures Valid()
      ensures this.collectionName == collectionName && this.vectorSize == vectorSize
      ensures localPoints == []
      ensures backend == Qdrant <==> attempt.libraryImported && attempt.clientCreated && attempt.collectionEnsured
      ensures backend == Qdrant ==>
        client == Some(if qdrantUrl != "" then ByUrl(qdrantUrl, qdrantApiKey) else ByLocation(localPath))
      ensures backend == Local ==> client.None?
    {
      this.collectionName := collectionName;
      this.vectorSize := vectorSize;
      backend := Local;
      localPoints := [];
      nextId := 0;
      client := None;
      if attempt.libraryImported && attempt.clientCreated {
        client := Some(if qdrantUrl != "" then ByUrl(qdrantUrl, qdrantApiKey) else ByLocation(localPath));
        if attempt.collectionEnsured {
          backend := Qdrant;
        } else {
          client := None;
        }
      }
    }

    /**
     * `upsert_documents`. Locally: one point per zipped (doc, vector) pair,
     * in order, appended after the existing points, each with a fresh id;
     * returns `len(vectors)`. On qdrant the points go to the client and the
     * number of pairs is returned.
     */
    method UpsertDocuments(docs: seq<SourceDocument>, vectors: seq<seq<real>>) returns (count: nat)
      requires Valid()
      modifies this
      ensures Valid()
      ensures backend == old(backend) && client == old(client)
      ensures old(backend) == Qdrant ==>
        localPoints == old(localPoints) && nextId == old(nextId) && count == Min(|docs|, |vectors|)
      ensures old(backend) == Local ==>
        && localPoints == old(localPoints) + NewPoints(docs, vectors, old(nextId))
        && nextId == old(nextId) + Min(|docs|, |vectors|)
        && count == |vectors|
    {
      if backend == Qdrant && client.Some? {
        count := Min(|docs|, |vectors|);
        return;
      }
      ghost var before := localPoints;
      ghost var firstId := nextId;
      var pairs := Min(|docs|, |vectors|);
      for i := 0 to pairs
        invariant localPoints == before + NewPoints(docs, vectors, firstId)[..i]
        invariant nextId == firstId + i
        invariant backend == old(backend) && client == old(client)
        invariant Valid()
      {
        var point := Point(nextId, vectors[i], PayloadOf(docs[i]));
        assert point == NewPoints(docs, vectors, firstId)[i];
        assert NewPoints(docs, vectors, firstId)[..i + 1] == NewPoints(docs, vectors, firstId)[..i] + [point];
        localPoints := localPoints + [point];
        nextId := nextId + 1;
      }
      assert NewPoints(docs, vectors, firstId)[..pairs] == NewPoints(docs, vectors, firstId);
      count := |vectors|;
    }

    /**
     * `search`. On qdrant the query goes to the client. Locally: every point
     * failing the filter is skipped, the others are scored by cosine
     * similarity, and the hits are stably sorted by descending score and
     * cut to `top_k`. The stored points are left as they are.
     */
    method Search(query: seq<real>, topK: int := DefaultTopK, filter: Option<Metadata> := None, norm: seq<real> -> real)
      returns (outcome: SearchOutcome)
      requires Valid()
      ensures backend == Qdrant ==> outcome == Delegated
      ensures backend == Local ==> outcome == LocalSearch(localPoints, query, topK, filter, norm)
    {
      if backend == Qdrant && client.Some? {
        return Delegated;
      }
      var scan := ScanLocal(localPoints, query, filter, norm);
      if scan.None? {
        return ShapeMismatch;
      }
      var sorted := StableSortDesc(scan.value, LocalHitScore);
      outcome := Ranked(PySliceTo(sorted, topK));
    }
  }

  /**
   * The loop over `_local_points`: filter, then score; numpy's ValueError on
   * a length mismatch ends the scan.
   */
  method ScanLocal(points: seq<Point>, query: seq<real>, filter: Option<Metadata>, norm: seq<real> -> real)
    returns (scan: Option<seq<LocalHit>>)
    ensures scan == ScanPoints(points, |points|, query, filter, norm)
  {
    var queryNorm := NonZeroOr(norm(query));
    var hits: seq<LocalHit> := [];
    for k := 0 to |points|
      invariant ScanPoints(points, k, query, filter, norm) == Some(hits)
    {
      var point := points[k];
      var payload := point.payload;
      assert ScanPoints(points, k + 1, query, filter, norm)
        == if !MatchesFilter(payload.metadata, filter) then Some(hits)
           else if |point.vector| != |query| then None
           else Some(hits + [LocalHit(Cosine(query, point.vector, norm), payload)]);
      var isMatch := CheckFilter(payload.metadata, filter);
      if !isMatch {
        continue;
      }
      var v := point.vector;
      if |v| != |query| {
        NoneStaysNone(points, k + 1, |points|, query, filter, norm);
        return None;
      }
      var vectorNorm := NonZeroOr(norm(v));
      var score := Quotient(Dot(query, v), queryNorm, vectorNorm);
      hits := hits + [LocalHit(score, payload)];
    }
    scan := Some(hits);
  }

  /** Once the scan has failed it stays failed. */
  lemma {:induction false} NoneStaysNone(points: seq<Point>, m: nat, n: nat, query: seq<real>,
                                         filter: Option<Metadata>, norm: seq<real> -> real)
    requires m <= n <= |points| && ScanPoints(points, m, query, filter, norm).None?
    ensures ScanPoints(points, n, query, filter, norm).None?
    decreases n - m
  {
    if m < n {
      NoneStaysNone(points, m, n - 1, query, filter, norm);
    }
  }
}
