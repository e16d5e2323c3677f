/** What every sort promises, stable or not: a permutation in order of the key. */
module Sorting {
  ghost predicate Sorted<T>(s: seq<T>, key: T -> int) {
    forall i, j :: 0 <= i < j < |s| ==> key(s[i]) <= key(s[j])
  }

  ghost predicate IsSortOf<T>(sorted: seq<T>, s: seq<T>, key: T -> int) {
    Sorted(sorted, key) && multiset(sorted) == multiset(s)
  }

  function Keys<T>(s: seq<T>, key: T -> int): seq<int> { seq(|s|, i requires 0 <= i < |s| => key(s[i])) }

  lemma CancelOne<T>(a: multiset<T>, b: multiset<T>, x: T)
    requires a + multiset{x} == b + multiset{x}
    ensures a == b
  {
    assert a == (a + multiset{x}) - multiset{x};
    assert b == (b + multiset{x}) - multiset{x};
  }

  lemma MultisetHasIndex<T>(s: seq<T>, x: T) returns (i: nat)
    requires x in multiset(s)
    ensures i < |s| && s[i] == x
    ensures multiset(s) == multiset(s[..i] + s[i + 1..]) + multiset{x}
  {
    i :| 0 <= i < |s| && s[i] == x;
    assert s == s[..i] + [x] + s[i + 1..];
  }

  lemma {:induction false} KeysOfPermutation<T>(s: seq<T>, t: seq<T>, key: T -> int)
    requires multiset(s) == multiset(t)
    ensures multiset(Keys(s, key)) == multiset(Keys(t, key))
  {
    assert |multiset(s)| == |s| && |multiset(t)| == |t|;
    if s != [] {
      var front, x := s[..|s| - 1], s[|s| - 1];
      assert s == front + [x];
      assert x in multiset(s);
      var i := MultisetHasIndex(t, x);
      var rest := t[..i] + t[i + 1..];
      CancelOne(multiset(front), multiset(rest), x);
      KeysOfPermutation(front, rest, key);
      assert Keys(s, key) == Keys(front, key) + [key(x)];
      assert Keys(rest, key) == Keys(t[..i], key) + Keys(t[i + 1..], key);
      assert Keys(t, key) == Keys(t[..i], key) + [key(x)] + Keys(t[i + 1..], key);
    }
  }

  ghost predicate Ascending(a: seq<int>) { forall i, j :: 0 <= i < j < |a| ==> a[i] <= a[j] }

  ghost predicate StrictlyAscending(a: seq<int>) { forall i, j :: 0 <= i < j < |a| ==> a[i] < a[j] }

  lemma LastIsLargest(a: seq<int>, b: seq<int>)
    requires Ascending(b) && multiset(a) == multiset(b) && a != [] && |a| == |b|
    ensures a[|a| - 1] <= b[|b| - 1]
  {
    assert a[|a| - 1] in multiset(a);
    var i :| 0 <= i < |b| && b[i] == a[|a| - 1];
  }

  lemma {:induction false} AscendingIsUnique(a: seq<int>, b: seq<int>)
    requires Ascending(a) && Ascending(b) && multiset(a) == multiset(b)
    ensures a == b
  {
    assert |multiset(a)| == |a| && |multiset(b)| == |b|;
    if a != [] {
      var n := |a| - 1;
      assert a == a[..n] + [a[n]] && b == b[..n] + [b[n]];
      LastIsLargest(a, b);
      LastIsLargest(b, a);
      CancelOne(multiset(a[..n]), multiset(b[..n]), a[n]);
      AscendingIsUnique(a[..n], b[..n]);
    }
  }

  /** Two sorts of permutations of one another differ at most in the order of rows with equal keys. */
  lemma SortsAgreeOnKeys<T>(s: seq<T>, t: seq<T>, key: T -> int)
    requires Sorted(s, key) && Sorted(t, key) && multiset(s) == multiset(t)
    ensures Keys(s, key) == Keys(t, key)
  {
    KeysOfPermutation(s, t, key);
    AscendingIsUnique(Keys(s, key), Keys(t, key));
  }
}
