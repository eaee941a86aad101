/**
 * Documents, metadata values and the exact-match metadata filter shared by the
 * hybrid retriever and the local vector store.
 */
module Documents {

  datatype Option<+T> = None | Some(value: T) {
    function GetOr(default: T): T {
      match this
      case Some(v) => v
      case None => default
    }
  }

  /** The scalar values a metadata dictionary holds; VNone is Python's None. */
  datatype Value = VNone | VBool(b: bool) | VInt(i: int) | VReal(r: real) | VStr(s: string)

  type Metadata = map<string, Value>

  /** A scraped or chunked document; `kind` is the Python `type` field. */
  datatype SourceDocument = SourceDocument(source: string, kind: string, content: string, metadata: Metadata)

  /** `metadata.get(key)`: the stored value, or None when the key is absent. */
  function Lookup(metadata: Metadata, key: string): Value {
    if key in metadata then metadata[key] else VNone
  }

  /** Booleans, integers and floats compare numerically in Python (True == 1 == 1.0). */
  function NumericValue(v: Value): Option<real> {
    match v
    case VBool(b) => Some(if b then 1.0 else 0.0)
    case VInt(i) => Some(i as real)
    case VReal(r) => Some(r)
    case _ => None
  }

  /** Python's `==` on two metadata values. */
  predicate PyEq(a: Value, b: Value) {
    if NumericValue(a).Some? && NumericValue(b).Some? then NumericValue(a) == NumericValue(b)
    else a == b
  }

  /**
   * The exact-match conjunctive filter: a missing or empty filter accepts
   * everything; otherwise every filter key must look up to an equal value.
   */
  predicate MatchesFilter(metadata: Metadata, filter: Option<Metadata>) {
    filter.None? || forall key :: key in filter.value ==> PyEq(Lookup(metadata, key), filter.value[key])
  }

  /** The filter loop: walks the filter's keys and stops at the first mismatch. */
  method CheckFilter(metadata: Metadata, filter: Option<Metadata>) returns (isMatch: bool)
    ensures isMatch <==> MatchesFilter(metadata, filter)
    ensures filter.None? || filter.value == map[] ==> isMatch
    ensures !isMatch ==> exists key :: key in filter.value && !PyEq(Lookup(metadata, key), filter.value[key])
  {
    isMatch := true;
    if filter.Some? && filter.value != map[] {
      var conditions := filter.value;
      var pending := conditions.Keys;
      while pending != {}
        invariant pending <= conditions.Keys
        invariant forall key :: key in conditions && key !in pending ==> PyEq(Lookup(metadata, key), conditions[key])
        decreases pending
      {
        var key :| key in pending;
        if !PyEq(Lookup(metadata, key), conditions[key]) {
          isMatch := false;
          break;
        }
        pending := pending - {key};
      }
    }
  }

  /** Python's `==` on metadata values is an equivalence relation (no NaN among the values). */
  lemma PyEqIsEquivalence(a: Value, b: Value, c: Value)
    ensures PyEq(a, a)
    ensures PyEq(a, b) ==> PyEq(b, a)
    ensures PyEq(a, b) && PyEq(b, c) ==> PyEq(a, c)
  {
  }

  /** Every document passes the filter built from its own metadata. */
  lemma MatchesOwnMetadata(metadata: Metadata)
    ensures MatchesFilter(metadata, Some(metadata))
  {
    forall key | key in metadata ensures PyEq(Lookup(metadata, key), metadata[key]) {
      PyEqIsEquivalence(metadata[key], metadata[key], metadata[key]);
    }
  }

  /**
   * Dropping conditions from a filter can only let more documents through:
   * a document that passes a filter passes every sub-filter of it.
   */
  lemma MatchesSubFilter(metadata: Metadata, small: Metadata, large: Metadata)
    requires forall key :: key in small ==> key in large && small[key] == large[key]
    requires MatchesFilter(metadata, Some(large))
    ensures MatchesFilter(metadata, Some(small))
  {
    forall key | key in small ensures PyEq(Lookup(metadata, key), small[key]) {
      assert key in large;
    }
  }
}
