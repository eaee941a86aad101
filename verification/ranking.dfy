/**
 * Python's `list.sort(key=..., reverse=True)` and `list[:k]`, the two list
 * operations both retrieval paths end with.
 *
 * `sort` with `reverse=True` is stable: elements with equal keys keep their
 * original order. `StableSortDesc` is an insertion sort that has exactly
 * that result; `IsStableSortDesc` states it without reference to any
 * algorithm, and `StableSortDescUnique` shows that statement admits only
 * one answer.
 */
module Ranking {

  /** Keys never increase along `s`. */
  ghost predicate NonIncreasing<T>(s: seq<T>, key: T -> real) {
    forall i, j :: 0 <= i < j < |s| ==> key(s[i]) >= key(s[j])
  }

  /** The elements of `s` whose key is `v`, in their order in `s`. */
  function WithKey<T>(s: seq<T>, key: T -> real, v: real): (r: seq<T>)
    ensures |r| <= |s|
  {
    if s == [] then []
    else (if key(s[0]) == v then [s[0]] else []) + WithKey(s[1..], key, v)
  }

  /**
   * `r` is what a stable descending sort of `s` returns: keys never
   * increase, and for every key value the elements carrying it appear in
   * `r` exactly as they do in `s`.
   */
  ghost predicate IsStableSortDesc<T>(s: seq<T>, r: seq<T>, key: T -> real) {
    NonIncreasing(r, key) && forall v :: WithKey(r, key, v) == WithKey(s, key, v)
  }

  /** Insert `x` after every element whose key is at least `key(x)`. */
  function InsertDesc<T>(x: T, s: seq<T>, key: T -> real): (r: seq<T>)
    ensures |r| == |s| + 1
  {
    if s == [] then [x]
    else if key(s[0]) < key(x) then [x] + s
    else [s[0]] + InsertDesc(x, s[1..], key)
  }

  /** `sorted(s, key=key, reverse=True)`. */
  function StableSortDesc<T>(s: seq<T>, key: T -> real): (r: seq<T>)
    ensures |r| == |s|
  {
    if s == [] then [] else InsertDesc(s[|s| - 1], StableSortDesc(s[..|s| - 1], key), key)
  }

  lemma {:induction false} WithKeyAppend<T>(a: seq<T>, b: seq<T>, key: T -> real, v: real)
    ensures WithKey(a + b, key, v) == WithKey(a, key, v) + WithKey(b, key, v)
  {
    if a != [] {
      assert (a + b)[1..] == a[1..] + b;
      WithKeyAppend(a[1..], b, key, v);
    } else {
      assert a + b == b;
    }
  }

  lemma {:induction false} WithKeyNone<T>(s: seq<T>, key: T -> real, v: real)
    requires forall i :: 0 <= i < |s| ==> key(s[i]) != v
    ensures WithKey(s, key, v) == []
  {
    if s != [] {
      WithKeyNone(s[1..], key, v);
    }
  }

  /** Inserting adds exactly `x`. */
  lemma {:induction false} InsertDescMultiset<T>(x: T, s: seq<T>, key: T -> real)
    ensures multiset(InsertDesc(x, s, key)) == multiset(s) + multiset{x}
  {
    if s != [] && key(s[0]) >= key(x) {
      InsertDescMultiset(x, s[1..], key);
      assert s == [s[0]] + s[1..];
    }
  }

  /** No key in the result exceeds a bound that `x` and all of `s` respect. */
  lemma {:induction false} InsertDescBounded<T>(x: T, s: seq<T>, key: T -> real, b: real)
    requires key(x) <= b && forall i :: 0 <= i < |s| ==> key(s[i]) <= b
    ensures forall i :: 0 <= i < |s| + 1 ==> key(InsertDesc(x, s, key)[i]) <= b
  {
    if s != [] && key(s[0]) >= key(x) {
      var rest := InsertDesc(x, s[1..], key);
      InsertDescBounded(x, s[1..], key, b);
      forall i | 1 <= i < |s| + 1 ensures key(InsertDesc(x, s, key)[i]) <= b {
        assert InsertDesc(x, s, key)[i] == rest[i - 1];
      }
    }
  }

  lemma {:induction false} InsertDescSorted<T>(x: T, s: seq<T>, key: T -> real)
    requires NonIncreasing(s, key)
    ensures NonIncreasing(InsertDesc(x, s, key), key)
  {
    var r := InsertDesc(x, s, key);
    if s != [] && key(s[0]) >= key(x) {
      var rest := InsertDesc(x, s[1..], key);
      InsertDescSorted(x, s[1..], key);
      InsertDescBounded(x, s[1..], key, key(s[0]));
      forall i, j | 0 <= i < j < |r| ensures key(r[i]) >= key(r[j]) {
        assert r[j] == rest[j - 1];
        if i > 0 {
          assert r[i] == rest[i - 1];
        }
      }
    }
  }

  /** One unfolding of `WithKey` on a sequence built from its head. */
  lemma WithKeyCons<T>(h: T, t: seq<T>, key: T -> real, v: real)
    ensures WithKey([h] + t, key, v) == (if key(h) == v then [h] else []) + WithKey(t, key, v)
  {
    assert ([h] + t)[0] == h && ([h] + t)[1..] == t;
  }

  lemma NonIncreasingTail<T>(s: seq<T>, key: T -> real)
    requires s != [] && NonIncreasing(s, key)
    ensures NonIncreasing(s[1..], key)
  {
    forall i, j | 0 <= i < j < |s| - 1 ensures key(s[1..][i]) >= key(s[1..][j]) {
      assert s[1..][i] == s[i + 1] && s[1..][j] == s[j + 1];
    }
  }

  /** Inserting `x` places it after every element with the same key. */
  lemma {:induction false} InsertDescGroups<T>(x: T, s: seq<T>, key: T -> real, v: real)
    requires NonIncreasing(s, key)
    ensures WithKey(InsertDesc(x, s, key), key, v) == WithKey(s, key, v) + (if key(x) == v then [x] else [])
  {
    var tagX := if key(x) == v then [x] else [];
    if s == [] {
      WithKeyCons(x, [], key, v);
      assert [x] + [] == [x];
    } else if key(s[0]) < key(x) {
      assert InsertDesc(x, s, key) == [x] + s;
      WithKeyCons(x, s, key, v);
      if key(x) == v {
        WithKeyBelowHead(s, key, v);
      }
    } else {
      var tail := s[1..];
      var tagS := if key(s[0]) == v then [s[0]] else [];
      assert InsertDesc(x, s, key) == [s[0]] + InsertDesc(x, tail, key);
      assert s == [s[0]] + tail;
      NonIncreasingTail(s, key);
      InsertDescGroups(x, tail, key, v);
      WithKeyCons(s[0], InsertDesc(x, tail, key), key, v);
      WithKeyCons(s[0], tail, key, v);
      assert tagS + (WithKey(tail, key, v) + tagX) == (tagS + WithKey(tail, key, v)) + tagX;
    }
  }

  lemma {:induction false} StableSortDescSorted<T>(s: seq<T>, key: T -> real)
    ensures NonIncreasing(StableSortDesc(s, key), key)
  {
    if s != [] {
      StableSortDescSorted(s[..|s| - 1], key);
      InsertDescSorted(s[|s| - 1], StableSortDesc(s[..|s| - 1], key), key);
    }
  }

  lemma {:induction false} StableSortDescMultiset<T>(s: seq<T>, key: T -> real)
    ensures multiset(StableSortDesc(s, key)) == multiset(s)
  {
    if s != [] {
      var init := s[..|s| - 1];
      StableSortDescMultiset(init, key);
      InsertDescMultiset(s[|s| - 1], StableSortDesc(init, key), key);
      assert s == init + [s[|s| - 1]];
    }
  }

  lemma {:induction false} StableSortDescGroups<T>(s: seq<T>, key: T -> real, v: real)
    ensures WithKey(StableSortDesc(s, key), key, v) == WithKey(s, key, v)
  {
    if s != [] {
      var init := s[..|s| - 1];
      var x := s[|s| - 1];
      var sorted := StableSortDesc(init, key);
      StableSortDescGroups(init, key, v);
      StableSortDescSorted(init, key);
      InsertDescGroups(x, sorted, key, v);
      assert s == init + [x];
      WithKeyAppend(init, [x], key, v);
      WithKeyCons(x, [], key, v);
      assert [x] + [] == [x];
    }
  }

  /** The insertion sort meets the specification of a stable descending sort. */
  lemma StableSortDescCorrect<T>(s: seq<T>, key: T -> real)
    ensures IsStableSortDesc(s, StableSortDesc(s, key), key)
    ensures multiset(StableSortDesc(s, key)) == multiset(s)
  {
    StableSortDescSorted(s, key);
    StableSortDescMultiset(s, key);
    forall v ensures WithKey(StableSortDesc(s, key), key, v) == WithKey(s, key, v) {
      StableSortDescGroups(s, key, v);
    }
  }

  /**
   * The specification admits exactly one answer: two sequences that are
   * both a stable descending sort of `s` are equal.
   */
  lemma {:induction false} StableSortDescUnique<T>(s: seq<T>, r1: seq<T>, r2: seq<T>, key: T -> real)
    requires IsStableSortDesc(s, r1, key) && IsStableSortDesc(s, r2, key)
    ensures r1 == r2
  {
    SameGroupsSame(r1, r2, key);
  }

  /** The first element is in its own key group. */
  lemma WithKeyOfHead<T>(s: seq<T>, key: T -> real)
    requires s != []
    ensures WithKey(s, key, key(s[0])) != []
  {
  }

  /** Below the largest key, every element sits in the tail. */
  lemma {:induction false} WithKeyBelowHead<T>(s: seq<T>, key: T -> real, v: real)
    requires s != [] && NonIncreasing(s, key) && v > key(s[0])
    ensures WithKey(s, key, v) == []
  {
    WithKeyNone(s, key, v);
  }

  lemma {:induction false} SameGroupsSame<T>(r1: seq<T>, r2: seq<T>, key: T -> real)
    requires NonIncreasing(r1, key) && NonIncreasing(r2, key)
    requires forall v :: WithKey(r1, key, v) == WithKey(r2, key, v)
    ensures r1 == r2
    decreases |r1|
  {
    if r1 == [] || r2 == [] {
      if r1 != r2 {
        var r := if r1 == [] then r2 else r1;
        WithKeyOfHead(r, key);
        assert false;
      }
    } else {
      var k1 := key(r1[0]);
      var k2 := key(r2[0]);
      if k1 < k2 {
        WithKeyBelowHead(r1, key, k2);
        assert false;
      } else if k2 < k1 {
        WithKeyBelowHead(r2, key, k1);
        assert false;
      } else {
        var h := r1[0];
        var t1 := r1[1..];
        var t2 := r2[1..];
        assert r1 == [h] + t1 && r2 == [r2[0]] + t2;
        WithKeyCons(h, t1, key, k1);
        WithKeyCons(r2[0], t2, key, k1);
        assert WithKey(r1, key, k1)[0] == h && WithKey(r2, key, k1)[0] == r2[0];
        assert r2[0] == h;
        forall v ensures WithKey(t1, key, v) == WithKey(t2, key, v) {
          var tag := if k1 == v then [h] else [];
          WithKeyCons(h, t1, key, v);
          WithKeyCons(h, t2, key, v);
          assert (tag + WithKey(t1, key, v))[|tag|..] == WithKey(t1, key, v);
          assert (tag + WithKey(t2, key, v))[|tag|..] == WithKey(t2, key, v);
        }
        NonIncreasingTail(r1, key);
        NonIncreasingTail(r2, key);
        SameGroupsSame(t1, t2, key);
      }
    }
  }

  /** Two elements already in descending order stay as they are. */
  lemma SortedPairStays<T>(a: T, b: T, key: T -> real)
    requires key(a) >= key(b)
    ensures StableSortDesc([a, b], key) == [a, b]
  {
    assert [a, b][..1] == [a];
    assert StableSortDesc([a], key) == [a];
    assert InsertDesc(b, [a], key) == [a] + InsertDesc(b, [], key);
  }

  /** Python's `s[:k]`; a negative `k` counts from the end. */
  function PySliceTo<T>(s: seq<T>, k: int): (r: seq<T>)
    ensures |r| <= |s| && r == s[..|r|]
    ensures k >= 0 ==> |r| == if k <= |s| then k else |s|
    ensures k < 0 ==> |r| == if |s| + k >= 0 then |s| + k else 0
  {
    if k >= 0 then (if k <= |s| then s[..k] else s)
    else if |s| + k >= 0 then s[..|s| + k] else []
  }

  /** A prefix of a sequence whose keys never increase has the same property. */
  lemma PrefixNonIncreasing<T>(s: seq<T>, k: int, key: T -> real)
    requires NonIncreasing(s, key)
    ensures NonIncreasing(PySliceTo(s, k), key)
    ensures forall x :: x in PySliceTo(s, k) ==> x in s
  {
    var r := PySliceTo(s, k);
    forall i, j | 0 <= i < j < |r| ensures key(r[i]) >= key(r[j]) {
      assert r[i] == s[i] && r[j] == s[j];
    }
  }
}
