/**
 * The sliding-window chunker of app/retrieval/chunker.py: `ChunkText`
 * (chunk_text) and `ChunkDocuments` (chunk_documents).
 *
 * Positions refer to the stripped text `t`. A window is the span
 * [start, min(start + size, |t|)); after a window that does not reach the
 * end, the next window starts `overlap` characters before its end.
 */
module Chunker {
  import opened Documents
  import opened Text

  /** The defaults the application passes (settings.py:28-29). */
  const DefaultMaxChunkSize: int := 800
  const DefaultOverlap: int := 120

  /** A window [lo, hi) of the stripped text. */
  datatype Span = Span(lo: nat, hi: nat)

  /** `min(start + max_chunk_size, text_len)`. */
  function WindowEnd(start: nat, size: nat, n: nat): nat {
    if start + size <= n then start + size else n
  }

  /** The step as written at chunker.py:21: `max(0, end - overlap)`. */
  function SourceNextStart(end: int, overlap: int): nat {
    if end - overlap >= 0 then end - overlap else 0
  }

  /**
   * The corrected step: `max(start + 1, end - overlap)`. It always moves
   * forward, and equals chunker.py's step whenever that step moves forward.
   */
  function NextStart(start: nat, end: nat, overlap: int): (r: nat)
    ensures r > start
    ensures r >= end - overlap
  {
    if end - overlap > start then end - overlap else start + 1
  }

  /** The windows the loop visits, starting at `start`, over a text of length `n`. */
  function SpansFrom(n: nat, size: nat, overlap: int, start: nat): seq<Span>
    requires size > 0
    decreases n - start
  {
    if start >= n then []
    else
      var end := WindowEnd(start, size, n);
      if end >= n then [Span(start, end)]
      else [Span(start, end)] + SpansFrom(n, size, overlap, NextStart(start, end, overlap))
  }

  /**
   * The shape of the windows: each lies inside the text and is as long as
   * the size allows; the first starts at `start`; with a non-negative
   * overlap the last window reaches the end.
   */
  lemma {:induction false} SpansFromShape(n: nat, size: nat, overlap: int, start: nat)
    requires size > 0
    ensures var r := SpansFrom(n, size, overlap, start);
      && (forall i :: 0 <= i < |r| ==> start <= r[i].lo < r[i].hi <= n && r[i].hi == WindowEnd(r[i].lo, size, n))
      && (start < n <==> r != [])
      && (start < n ==> r[0].lo == start)
      && (overlap >= 0 && start < n ==> r[|r| - 1].hi == n)
    decreases n - start
  {
    if start < n {
      var end := WindowEnd(start, size, n);
      if end < n {
        var next := NextStart(start, end, overlap);
        SpansFromShape(n, size, overlap, next);
        var r := SpansFrom(n, size, overlap, start);
        var rest := SpansFrom(n, size, overlap, next);
        assert r == [Span(start, end)] + rest;
        assert overlap >= 0 ==> next <= end;
      }
    }
  }

  /**
   * Every window but the last ends before the text does, and the next one
   * starts at the corrected step.
   */
  lemma {:induction false} SpansFromSteps(n: nat, size: nat, overlap: int, start: nat)
    requires size > 0
    ensures var r := SpansFrom(n, size, overlap, start);
      forall i :: 0 <= i < |r| - 1 ==> r[i].hi < n && r[i + 1].lo == NextStart(r[i].lo, r[i].hi, overlap)
    decreases n - start
  {
    if start < n {
      var end := WindowEnd(start, size, n);
      if end < n {
        var next := NextStart(start, end, overlap);
        SpansFromSteps(n, size, overlap, next);
        SpansFromShape(n, size, overlap, next);
        var r := SpansFrom(n, size, overlap, start);
        var rest := SpansFrom(n, size, overlap, next);
        assert r == [Span(start, end)] + rest;
        forall i | 0 <= i < |r| - 1
          ensures r[i].hi < n && r[i + 1].lo == NextStart(r[i].lo, r[i].hi, overlap)
        {
          if i > 0 {
            assert r[i] == rest[i - 1] && r[i + 1] == rest[i];
          } else {
            assert r[i] == Span(start, end) && r[i + 1] == rest[0];
          }
        }
      } else {
        assert |SpansFrom(n, size, overlap, start)| == 1;
      }
    }
  }

  /** The raw windows `text[start:end]` the loop visits from `start` on, before stripping. */
  function WindowsFrom(t: string, size: nat, overlap: int, start: nat): seq<string>
    requires size > 0
    decreases |t| - start
  {
    if start >= |t| then []
    else
      var end := WindowEnd(start, size, |t|);
      if end >= |t| then [t[start..end]]
      else [t[start..end]] + WindowsFrom(t, size, overlap, NextStart(start, end, overlap))
  }

  /** The windows are exactly the text between the bounds of the spans. */
  lemma {:induction false} WindowsMatchSpans(t: string, size: nat, overlap: int, start: nat)
    requires size > 0
    ensures var ws := WindowsFrom(t, size, overlap, start);
      var r := SpansFrom(|t|, size, overlap, start);
      |ws| == |r| && forall i :: 0 <= i < |r| ==> r[i].lo <= r[i].hi <= |t| && ws[i] == t[r[i].lo..r[i].hi]
    decreases |t| - start
  {
    var n := |t|;
    if start < n {
      var end := WindowEnd(start, size, n);
      if end < n {
        var next := NextStart(start, end, overlap);
        WindowsMatchSpans(t, size, overlap, next);
        var ws := WindowsFrom(t, size, overlap, start);
        var r := SpansFrom(n, size, overlap, start);
        var ws' := WindowsFrom(t, size, overlap, next);
        var r' := SpansFrom(n, size, overlap, next);
        assert ws == [t[start..end]] + ws' && r == [Span(start, end)] + r';
        forall i | 0 <= i < |r| ensures r[i].lo <= r[i].hi <= n && ws[i] == t[r[i].lo..r[i].hi] {
          if i > 0 {
            assert r[i] == r'[i - 1] && ws[i] == ws'[i - 1];
          }
        }
      }
    }
  }

  /** `chunk.strip()` applied to every window, in order. */
  function StripEach(ws: seq<string>): (ps: seq<string>)
    ensures |ps| == |ws|
  {
    if ws == [] then [] else StripEach(ws[..|ws| - 1]) + [Strip(ws[|ws| - 1])]
  }

  /** Piece `i` is window `i` stripped. */
  lemma {:induction false} StripEachAt(ws: seq<string>)
    ensures forall i :: 0 <= i < |ws| ==> StripEach(ws)[i] == Strip(ws[i])
  {
    if ws != [] {
      var init := ws[..|ws| - 1];
      var ps := StripEach(ws);
      StripEachAt(init);
      assert ps == StripEach(init) + [Strip(ws[|ws| - 1])];
      forall i | 0 <= i < |ws| ensures ps[i] == Strip(ws[i]) {
        if i < |init| {
          assert ws[i] == init[i] && ps[i] == StripEach(init)[i];
        }
      }
    }
  }

  /** `[c for c in chunks if c]`: the non-empty pieces, in order. */
  function KeepNonEmpty(ps: seq<string>): (r: seq<string>)
    ensures |r| <= |ps|
  {
    if ps == [] then []
    else if ps[0] == [] then KeepNonEmpty(ps[1..])
    else [ps[0]] + KeepNonEmpty(ps[1..])
  }

  /** The filter keeps exactly the non-empty pieces. */
  lemma {:induction false} KeepNonEmptyMembers(ps: seq<string>)
    ensures forall c :: c in KeepNonEmpty(ps) <==> c in ps && c != []
  {
    if ps != [] {
      KeepNonEmptyMembers(ps[1..]);
      assert ps == [ps[0]] + ps[1..];
    }
  }

  /** What chunk_text returns (chunker.py:4-23). */
  function ChunkTextSpec(text: string, maxChunkSize: int, overlap: int): seq<string> {
    var t := Strip(text);
    if t == [] then []
    else if maxChunkSize <= 0 then [t]
    else KeepNonEmpty(StripEach(WindowsFrom(t, maxChunkSize, overlap, 0)))
  }

  /** chunk_text: the sliding-window loop. */
  method ChunkText(text: string, maxChunkSize: int, overlap: int) returns (chunks: seq<string>)
    ensures chunks == ChunkTextSpec(text, maxChunkSize, overlap)
  {
    var t := Strip(text);
    if t == [] {
      return [];
    }
    if maxChunkSize <= 0 {
      return [t];
    }
    var n := |t|;
    var pieces: seq<string> := [];
    ghost var windows: seq<string> := [];
    var start: nat := 0;
    while start < n
      invariant windows + WindowsFrom(t, maxChunkSize, overlap, start) == WindowsFrom(t, maxChunkSize, overlap, 0)
      invariant pieces == StripEach(windows)
      decreases n - start
    {
      var end := WindowEnd(start, maxChunkSize, n);
      var window := t[start..end];
      ghost var rest := if end >= n then [] else WindowsFrom(t, maxChunkSize, overlap, NextStart(start, end, overlap));
      assert WindowsFrom(t, maxChunkSize, overlap, start) == [window] + rest;
      assert (windows + [window])[..|windows|] == windows;
      assert StripEach(windows + [window]) == pieces + [Strip(window)];
      assert (windows + [window]) + rest == windows + ([window] + rest);
      pieces := pieces + [Strip(window)];
      windows := windows + [window];
      if end >= n {
        break;
      }
      start := NextStart(start, end, overlap);
    }
    assert windows == WindowsFrom(t, maxChunkSize, overlap, 0);
    chunks := KeepNonEmpty(pieces);
  }

  // ---------------------------------------------------------------------------
  // Properties of chunk_text

  /** Blank input gives no chunks; a non-positive size gives the whole stripped text. */
  lemma ChunkTextDegenerateCases(text: string, maxChunkSize: int, overlap: int)
    ensures AllWhitespace(text) ==> ChunkTextSpec(text, maxChunkSize, overlap) == []
    ensures !AllWhitespace(text) && maxChunkSize <= 0 ==> ChunkTextSpec(text, maxChunkSize, overlap) == [Strip(text)]
  {
    StripEmptyIff(text);
  }

  /** Every chunk is non-empty, stripped, and at most `maxChunkSize` long. */
  lemma ChunksAreBoundedAndStripped(text: string, maxChunkSize: int, overlap: int)
    ensures forall c :: c in ChunkTextSpec(text, maxChunkSize, overlap) ==>
      c != [] && IsStripped(c) && (maxChunkSize > 0 ==> |c| <= maxChunkSize)
  {
    var t := Strip(text);
    StripIsStripped(text);
    if t != [] && maxChunkSize > 0 {
      var r := SpansFrom(|t|, maxChunkSize, overlap, 0);
      SpansFromShape(|t|, maxChunkSize, overlap, 0);
      WindowsMatchSpans(t, maxChunkSize, overlap, 0);
      var ws := WindowsFrom(t, maxChunkSize, overlap, 0);
      var ps := StripEach(ws);
      StripEachAt(ws);
      KeepNonEmptyMembers(ps);
      forall c | c in ps ensures IsStripped(c) && |c| <= maxChunkSize {
        var i :| 0 <= i < |ps| && ps[i] == c;
        StripIsStripped(ws[i]);
        assert |ws[i]| == r[i].hi - r[i].lo <= maxChunkSize;
      }
    }
  }

  /**
   * With 0 <= overlap < size each window after the first starts exactly
   * `overlap` characters before the previous window's end; the first
   * starts at 0 and the last ends at the end of the text.
   */
  lemma SpansOverlapExactly(n: nat, size: nat, overlap: int)
    requires 0 <= overlap < size && n > 0
    ensures var r := SpansFrom(n, size, overlap, 0);
      r != [] && r[0].lo == 0 && r[|r| - 1].hi == n
      && forall i :: 0 <= i < |r| - 1 ==> r[i + 1].lo == r[i].hi - overlap
  {
    var r := SpansFrom(n, size, overlap, 0);
    SpansFromShape(n, size, overlap, 0);
    SpansFromSteps(n, size, overlap, 0);
    forall i | 0 <= i < |r| - 1 ensures r[i + 1].lo == r[i].hi - overlap {
      assert r[i].hi == r[i].lo + size;
    }
  }

  /** `w[k:]` in Python: empty when `k` exceeds the length. */
  function DropPrefix(w: string, k: nat): string {
    if k <= |w| then w[k..] else []
  }

  function RejoinTail(ws: seq<string>, k: nat): string {
    if ws == [] then [] else DropPrefix(ws[0], k) + RejoinTail(ws[1..], k)
  }

  /** The first window, followed by every later window without its first `k` characters. */
  function Rejoin(ws: seq<string>, k: nat): string {
    if ws == [] then [] else ws[0] + RejoinTail(ws[1..], k)
  }

  /** The first `k` characters of the first window, then the tail form. */
  lemma RejoinSplit(ws: seq<string>, k: nat)
    requires ws != [] && k <= |ws[0]|
    ensures Rejoin(ws, k) == ws[0][..k] + RejoinTail(ws, k)
  {
    var w := ws[0];
    var rest := RejoinTail(ws[1..], k);
    assert Rejoin(ws, k) == w + rest;
    assert RejoinTail(ws, k) == w[k..] + rest;
    assert w == w[..k] + w[k..];
    assert w + rest == w[..k] + (w[k..] + rest);
  }

  /** Rejoining the windows from `start` rebuilds the text from `start`. */
  lemma {:induction false} RejoinFrom(t: string, size: nat, overlap: nat, start: nat)
    requires overlap < size && start < |t|
    ensures Rejoin(WindowsFrom(t, size, overlap, start), overlap) == t[start..]
    decreases |t| - start
  {
    var n := |t|;
    var end := WindowEnd(start, size, n);
    var all := WindowsFrom(t, size, overlap, start);
    if end < n {
      var next := NextStart(start, end, overlap);
      assert next == end - overlap;
      RejoinFrom(t, size, overlap, next);
      var ws := WindowsFrom(t, size, overlap, next);
      var e2 := WindowEnd(next, size, n);
      assert ws[0] == t[next..e2];
      RejoinSplit(ws, overlap);
      assert t[next..e2][..overlap] == t[next..end];
      var rt := RejoinTail(ws, overlap);
      assert rt == t[end..] by {
        assert t[next..] == t[next..end] + t[end..];
        assert (t[next..end] + rt)[overlap..] == rt;
        assert (t[next..end] + t[end..])[overlap..] == t[end..];
      }
      assert all == [t[start..end]] + ws;
      assert all[1..] == ws;
      assert t[start..] == t[start..end] + t[end..];
    } else {
      assert all == [t[start..n]];
      assert t[start..n] == t[start..];
    }
  }

  /**
   * Round trip: with 0 <= overlap < size, the raw windows of a non-empty
   * stripped text rejoin (dropping each later window's first `overlap`
   * characters) to exactly that text.
   */
  lemma WindowsReconstructText(text: string, maxChunkSize: int, overlap: int)
    requires 0 <= overlap < maxChunkSize
    ensures var t := Strip(text);
      Rejoin(WindowsFrom(t, maxChunkSize, overlap, 0), overlap) == t
  {
    var t := Strip(text);
    if t != [] {
      RejoinFrom(t, maxChunkSize, overlap, 0);
    }
  }

  // ---------------------------------------------------------------------------
  // The non-termination at chunker.py:21 and its correction

  /** The `start` the loop as written holds after `steps` iterations. */
  function SourceStartAfter(steps: nat, n: nat, size: nat, overlap: int): nat {
    if steps == 0 then 0
    else SourceNextStart(WindowEnd(SourceStartAfter(steps - 1, n, size, overlap), size, n), overlap)
  }

  /**
   * As written, when `overlap >= size` and the stripped text is longer than
   * `size`, the loop returns to start 0 after every window and never reaches
   * its `break` (the window always ends at `size < n`): it runs forever.
   */
  lemma {:induction false} SourceLoopNeverAdvances(steps: nat, n: nat, size: nat, overlap: int)
    requires 0 < size < n && overlap >= size
    ensures SourceStartAfter(steps, n, size, overlap) == 0
    ensures WindowEnd(SourceStartAfter(steps, n, size, overlap), size, n) == size < n
  {
    if steps > 0 {
      SourceLoopNeverAdvances(steps - 1, n, size, overlap);
    }
  }

  /** Where chunker.py does advance (overlap < size), the corrected step is its step. */
  lemma NextStartAgreesWithSource(start: nat, size: nat, n: nat, overlap: int)
    requires overlap < size && start + size < n
    ensures NextStart(start, WindowEnd(start, size, n), overlap) == SourceNextStart(WindowEnd(start, size, n), overlap)
    ensures NextStart(start, WindowEnd(start, size, n), overlap) == start + size - overlap
  {
  }

  /**
   * With the application's defaults (800 and 120) each step of chunker.py
   * advances by 680 characters, and the corrected step takes the same one.
   */
  lemma DefaultStepIsWritten(start: nat, n: nat)
    requires start + DefaultMaxChunkSize < n
    ensures var end := WindowEnd(start, DefaultMaxChunkSize, n);
      && end == start + DefaultMaxChunkSize
      && NextStart(start, end, DefaultOverlap) == SourceNextStart(end, DefaultOverlap) == start + 680
  {
    NextStartAgreesWithSource(start, DefaultMaxChunkSize, n, DefaultOverlap);
  }

  // ---------------------------------------------------------------------------
  // chunk_documents

  /** `dict(doc.metadata)` with `chunk_index` and `chunk_count` set. */
  function ChunkMetadata(parent: Metadata, index: nat, count: nat): (m: Metadata)
    ensures m.Keys == parent.Keys + {"chunk_index", "chunk_count"}
    ensures m["chunk_index"] == VInt(index) && m["chunk_count"] == VInt(count)
    ensures forall k :: k in parent && k != "chunk_index" && k != "chunk_count" ==> m[k] == parent[k]
  {
    parent["chunk_index" := VInt(index)]["chunk_count" := VInt(count)]
  }

  /** The chunk documents made from one parent and its pieces. */
  function PieceDocuments(doc: SourceDocument, pieces: seq<string>): (r: seq<SourceDocument>)
    ensures |r| == |pieces|
  {
    seq(|pieces|, i requires 0 <= i < |pieces| =>
      SourceDocument(doc.source, doc.kind, pieces[i], ChunkMetadata(doc.metadata, i, |pieces|)))
  }

  /** What chunk_documents returns (chunker.py:26-44). */
  function ChunkDocumentsSpec(docs: seq<SourceDocument>, maxChunkSize: int, overlap: int): seq<SourceDocument> {
    if docs == [] then []
    else
      var last := docs[|docs| - 1];
      ChunkDocumentsSpec(docs[..|docs| - 1], maxChunkSize, overlap)
        + PieceDocuments(last, ChunkTextSpec(last.content, maxChunkSize, overlap))
  }

  /** The inner loop of chunk_documents: append one chunk document per piece. */
  method AppendPieces(chunked: seq<SourceDocument>, doc: SourceDocument, pieces: seq<string>)
    returns (extended: seq<SourceDocument>)
    ensures extended == chunked + PieceDocuments(doc, pieces)
  {
    ghost var made := PieceDocuments(doc, pieces);
    extended := chunked;
    for idx := 0 to |pieces|
      invariant extended == chunked + made[..idx]
    {
      var metadata := doc.metadata;
      metadata := metadata["chunk_index" := VInt(idx)];
      metadata := metadata["chunk_count" := VInt(|pieces|)];
      assert made[idx] == SourceDocument(doc.source, doc.kind, pieces[idx], metadata);
      assert made[..idx + 1] == made[..idx] + [made[idx]];
      extended := extended + [SourceDocument(doc.source, doc.kind, pieces[idx], metadata)];
    }
    assert made[..|pieces|] == made;
  }

  /** chunk_documents: per-document fan-out. */
  method ChunkDocuments(docs: seq<SourceDocument>, maxChunkSize: int, overlap: int) returns (chunked: seq<SourceDocument>)
    ensures chunked == ChunkDocumentsSpec(docs, maxChunkSize, overlap)
  {
    chunked := [];
    for i := 0 to |docs|
      invariant chunked == ChunkDocumentsSpec(docs[..i], maxChunkSize, overlap)
    {
      var doc := docs[i];
      var pieces := ChunkText(doc.content, maxChunkSize, overlap);
      assert docs[..i + 1][..i] == docs[..i] && docs[..i + 1][i] == doc;
      assert ChunkDocumentsSpec(docs[..i + 1], maxChunkSize, overlap) == chunked + PieceDocuments(doc, pieces);
      if pieces == [] {
        assert PieceDocuments(doc, pieces) == [];
        continue;
      }
      chunked := AppendPieces(chunked, doc, pieces);
    }
    assert docs[..|docs|] == docs;
  }

  /** Sum over the documents of the number of chunks each yields. */
  function TotalPieces(docs: seq<SourceDocument>, maxChunkSize: int, overlap: int): nat {
    if docs == [] then 0
    else TotalPieces(docs[..|docs| - 1], maxChunkSize, overlap) + |ChunkTextSpec(docs[|docs| - 1].content, maxChunkSize, overlap)|
  }

  lemma {:induction false} ChunkDocumentsCount(docs: seq<SourceDocument>, maxChunkSize: int, overlap: int)
    ensures |ChunkDocumentsSpec(docs, maxChunkSize, overlap)| == TotalPieces(docs, maxChunkSize, overlap)
    decreases |docs|
  {
    if docs != [] {
      ChunkDocumentsCount(docs[..|docs| - 1], maxChunkSize, overlap);
    }
  }

  /** Output is ordered by document: chunking a concatenation concatenates the chunks. */
  lemma {:induction false} ChunkDocumentsConcat(a: seq<SourceDocument>, b: seq<SourceDocument>, maxChunkSize: int, overlap: int)
    ensures ChunkDocumentsSpec(a + b, maxChunkSize, overlap)
      == ChunkDocumentsSpec(a, maxChunkSize, overlap) + ChunkDocumentsSpec(b, maxChunkSize, overlap)
    decreases |b|
  {
    if b == [] {
      assert a + b == a;
    } else {
      var b' := b[..|b| - 1];
      var last := b[|b| - 1];
      var tail := PieceDocuments(last, ChunkTextSpec(last.content, maxChunkSize, overlap));
      assert (a + b)[..|a + b| - 1] == a + b' && (a + b)[|a + b| - 1] == last;
      assert ChunkDocumentsSpec(a + b, maxChunkSize, overlap) == ChunkDocumentsSpec(a + b', maxChunkSize, overlap) + tail;
      assert ChunkDocumentsSpec(b, maxChunkSize, overlap) == ChunkDocumentsSpec(b', maxChunkSize, overlap) + tail;
      ChunkDocumentsConcat(a, b', maxChunkSize, overlap);
    }
  }

  /**
   * The chunk `c` is piece `idx` of `doc`: same source and type, that piece as
   * content, the parent's metadata plus chunk_index and chunk_count.
   */
  ghost predicate IsChunkOf(c: SourceDocument, doc: SourceDocument, maxChunkSize: int, overlap: int) {
    var pieces := ChunkTextSpec(doc.content, maxChunkSize, overlap);
    exists idx :: 0 <= idx < |pieces| && c == PieceDocuments(doc, pieces)[idx]
  }

  /** Every output chunk is a piece of one of the input documents. */
  lemma {:induction false} ChunkDocumentsProvenance(docs: seq<SourceDocument>, maxChunkSize: int, overlap: int)
    ensures forall c :: c in ChunkDocumentsSpec(docs, maxChunkSize, overlap) ==>
      exists d :: d in docs && IsChunkOf(c, d, maxChunkSize, overlap)
    decreases |docs|
  {
    if docs != [] {
      var init := docs[..|docs| - 1];
      var last := docs[|docs| - 1];
      assert docs == init + [last];
      ChunkDocumentsProvenance(init, maxChunkSize, overlap);
      var pieces := ChunkTextSpec(last.content, maxChunkSize, overlap);
      var tail := PieceDocuments(last, pieces);
      forall c | c in tail ensures IsChunkOf(c, last, maxChunkSize, overlap) {
        var idx :| 0 <= idx < |tail| && tail[idx] == c;
      }
    }
  }
}
