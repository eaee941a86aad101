/**
 * Python's `str.strip()` without arguments: removal of leading and trailing
 * characters for which `str.isspace()` holds.
 *
 * The functions carry only their length bound; what they remove and keep is
 * stated by the lemmas below, so that callers pay for those facts only
 * where they use them.
 */
module Text {

  /** The code points Python's `str.isspace()` accepts. */
  predicate IsWhitespace(c: char) {
    var n := c as int;
    (9 <= n <= 13) || (28 <= n <= 32) || n == 0x85 || n == 0xA0 || n == 0x1680
    || (0x2000 <= n <= 0x200A) || n == 0x2028 || n == 0x2029 || n == 0x202F
    || n == 0x205F || n == 0x3000
  }

  predicate AllWhitespace(s: string) {
    forall i :: 0 <= i < |s| ==> IsWhitespace(s[i])
  }

  /** Neither begins nor ends with whitespace (vacuous for the empty string). */
  predicate IsStripped(s: string) {
    s != [] ==> !IsWhitespace(s[0]) && !IsWhitespace(s[|s| - 1])
  }

  /** `s.lstrip()`. */
  function TrimStart(s: string): (r: string)
    ensures |r| <= |s|
  {
    if s != [] && IsWhitespace(s[0]) then TrimStart(s[1..]) else s
  }

  /** `s.rstrip()`. */
  function TrimEnd(s: string): (r: string)
    ensures |r| <= |s|
  {
    if s != [] && IsWhitespace(s[|s| - 1]) then TrimEnd(s[..|s| - 1]) else s
  }

  /** `s.strip()`. */
  function Strip(s: string): (r: string)
    ensures |r| <= |s|
  {
    TrimEnd(TrimStart(s))
  }

  /** `lstrip` keeps a suffix and drops exactly the leading whitespace. */
  lemma {:induction false} TrimStartShape(s: string)
    ensures var r := TrimStart(s);
      && r == s[|s| - |r|..]
      && (forall i :: 0 <= i < |s| - |r| ==> IsWhitespace(s[i]))
      && (r != [] ==> !IsWhitespace(r[0]))
  {
    if s != [] && IsWhitespace(s[0]) {
      TrimStartShape(s[1..]);
      var r := TrimStart(s);
      forall i | 0 <= i < |s| - |r| ensures IsWhitespace(s[i]) {
        if i > 0 {
          assert s[i] == s[1..][i - 1];
        }
      }
    }
  }

  /** `rstrip` keeps a prefix and drops exactly the trailing whitespace. */
  lemma {:induction false} TrimEndShape(s: string)
    ensures var r := TrimEnd(s);
      && r == s[..|r|]
      && (forall i :: |r| <= i < |s| ==> IsWhitespace(s[i]))
      && (r != [] ==> !IsWhitespace(r[|r| - 1]))
  {
    if s != [] && IsWhitespace(s[|s| - 1]) {
      var s' := s[..|s| - 1];
      TrimEndShape(s');
      var r := TrimEnd(s);
      forall i | |r| <= i < |s| ensures IsWhitespace(s[i]) {
        if i < |s| - 1 {
          assert s[i] == s'[i];
        }
      }
    }
  }

  /**
   * `strip` keeps a contiguous slice of `s` that neither begins nor ends
   * with whitespace, and everything it drops is whitespace.
   */
  lemma StripShape(s: string)
    ensures var r := Strip(s); var lead := |s| - |TrimStart(s)|;
      && lead + |r| <= |s|
      && r == s[lead..lead + |r|]
      && IsStripped(r)
      && (forall i :: 0 <= i < lead || lead + |r| <= i < |s| ==> IsWhitespace(s[i]))
  {
    var t := TrimStart(s);
    var r := Strip(s);
    var lead := |s| - |t|;
    TrimStartShape(s);
    TrimEndShape(t);
    assert r != [] ==> r[0] == t[0];
    forall i | lead + |r| <= i < |s| ensures IsWhitespace(s[i]) {
      assert s[i] == t[i - lead];
    }
  }

  /** Only an all-whitespace string strips to nothing. */
  lemma StripEmptyIff(s: string)
    ensures Strip(s) == [] <==> AllWhitespace(s)
  {
    StripShape(s);
    if Strip(s) != [] {
      var lead := |s| - |TrimStart(s)|;
      assert Strip(s)[0] == s[lead];
    }
  }

  /** The stripped string has no whitespace at either end. */
  lemma StripIsStripped(s: string)
    ensures IsStripped(Strip(s))
  {
    StripShape(s);
  }

  /** Stripping is idempotent. */
  lemma StripIdempotent(s: string)
    ensures Strip(Strip(s)) == Strip(s)
  {
    var r := Strip(s);
    StripShape(s);
    assert TrimStart(r) == r;
    assert TrimEnd(r) == r;
  }
}
