/** A value-level stand-in for std::ranges::sort: callers are promised only that the
    result is ordered by the key and is a permutation of the input. */
module Sorting {

  predicate SortedByKey<T>(s: seq<T>, key: T -> int) {
    forall i, j :: 0 <= i < j < |s| ==> key(s[i]) <= key(s[j])
  }

  function Insert<T>(x: T, s: seq<T>, key: T -> int): (r: seq<T>)
    requires SortedByKey(s, key)
    ensures SortedByKey(r, key)
    ensures multiset(r) == multiset(s) + multiset{x}
    ensures |r| == |s| + 1
  {
    if s == [] || key(x) <= key(s[0]) then
      [x] + s
    else
      var rest := Insert(x, s[1..], key);
      PrependSorted(s, x, rest, key);
      [s[0]] + rest
  }

  lemma PrependSorted<T>(s: seq<T>, x: T, rest: seq<T>, key: T -> int)
    requires s != [] && SortedByKey(s, key) && key(s[0]) < key(x)
    requires SortedByKey(rest, key) && multiset(rest) == multiset(s[1..]) + multiset{x}
    ensures SortedByKey([s[0]] + rest, key)
    ensures multiset([s[0]] + rest) == multiset(s) + multiset{x}
  {
    assert s == [s[0]] + s[1..];
    forall k | 0 <= k < |rest|
      ensures key(s[0]) <= key(rest[k])
    {
      assert rest[k] in multiset(rest);
      if rest[k] != x {
        assert rest[k] in multiset(s[1..]);
        var m :| 0 <= m < |s[1..]| && s[1..][m] == rest[k];
        assert s[m + 1] == rest[k];
      }
    }
    var r := [s[0]] + rest;
    forall i, j | 0 <= i < j < |r|
      ensures key(r[i]) <= key(r[j])
    {
      if i > 0 {
        assert r[i] == rest[i - 1] && r[j] == rest[j - 1];
      } else {
        assert r[j] == rest[j - 1];
      }
    }
  }

  /** Sorts s by key (insertion sort). */
  function SortByKey<T>(s: seq<T>, key: T -> int): (r: seq<T>)
    ensures SortedByKey(r, key)
    ensures multiset(r) == multiset(s)
    ensures |r| == |s|
  {
    if s == [] then []
    else
      assert s == s[..|s| - 1] + [s[|s| - 1]];
      Insert(s[|s| - 1], SortByKey(s[..|s| - 1], key), key)
  }

  /** Number of elements of s that satisfy p. */
  function CountIf<T>(s: seq<T>, p: T -> bool): (n: nat)
    ensures n <= |s|
  {
    if s == [] then 0 else CountIf(s[..|s| - 1], p) + (if p(s[|s| - 1]) then 1 else 0)
  }

  lemma {:induction false} CountIfAppend<T>(a: seq<T>, b: seq<T>, p: T -> bool)
    ensures CountIf(a + b, p) == CountIf(a, p) + CountIf(b, p)
    decreases |b|
  {
    if b == [] {
      assert a + b == a;
    } else {
      assert (a + b)[..|a + b| - 1] == a + b[..|b| - 1];
      CountIfAppend(a, b[..|b| - 1], p);
    }
  }

  /** Counting is invariant under permutation. */
  lemma {:induction false} CountIfPermutation<T>(a: seq<T>, b: seq<T>, p: T -> bool)
    requires multiset(a) == multiset(b)
    ensures CountIf(a, p) == CountIf(b, p)
    decreases |a|
  {
    if a != [] {
      var x := a[|a| - 1];
      var a' := a[..|a| - 1];
      assert a == a' + [x];
      assert x in multiset(a);
      assert x in multiset(b);
      var k :| 0 <= k < |b| && b[k] == x;
      var b' := b[..k] + b[k + 1..];
      assert b == b[..k] + [x] + b[k + 1..];
      assert multiset(b) == multiset(b[..k]) + multiset{x} + multiset(b[k + 1..]);
      assert multiset(b') == multiset(b[..k]) + multiset(b[k + 1..]);
      assert multiset(a) == multiset(a') + multiset{x};
      assert multiset(a') == multiset(a) - multiset{x};
      assert multiset(b') == multiset(b) - multiset{x};
      CountIfPermutation(a', b', p);
      CountIfAppend(a', [x], p);
      CountIfAppend(b[..k] + [x], b[k + 1..], p);
      CountIfAppend(b[..k], [x], p);
      CountIfAppend(b[..k], b[k + 1..], p);
    } else {
      assert |b| == |multiset(b)| == |multiset(a)| == 0;
    }
  }

  /** A weaker predicate counts at least as many elements. */
  lemma {:induction false} CountIfMono<T>(s: seq<T>, f: T -> bool, g: T -> bool)
    requires forall m :: 0 <= m < |s| ==> f(s[m]) ==> g(s[m])
    ensures CountIf(s, f) <= CountIf(s, g)
    decreases |s|
  {
    if s != [] {
      var init := s[..|s| - 1];
      assert forall m :: 0 <= m < |init| ==> init[m] == s[m];
      CountIfMono(init, f, g);
    }
  }

  lemma {:induction false} CountIfNone<T>(s: seq<T>, f: T -> bool)
    requires forall m :: 0 <= m < |s| ==> !f(s[m])
    ensures CountIf(s, f) == 0
    decreases |s|
  {
    if s != [] {
      var init := s[..|s| - 1];
      assert forall m :: 0 <= m < |init| ==> init[m] == s[m];
      CountIfNone(init, f);
    }
  }

  lemma CountIfSplit<T>(s: seq<T>, j: nat, f: T -> bool)
    requires j <= |s|
    ensures CountIf(s, f) == CountIf(s[..j], f) + CountIf(s[j..], f)
  {
    assert s == s[..j] + s[j..];
    CountIfAppend(s[..j], s[j..], f);
  }

  lemma CountIfPair<T>(s: seq<T>, a: T, b: T, p: T -> bool)
    ensures CountIf(s + [a, b], p) == CountIf(s, p) + (if p(a) then 1 else 0) + (if p(b) then 1 else 0)
  {
    assert (s + [a, b])[..|s| + 1] == s + [a];
    assert (s + [a])[..|s|] == s;
  }
}
