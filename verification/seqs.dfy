/** Sequence operations shared by the dashboards and the scraper: ordering by an integer key
    (the model of pandas' `sort_values` and Python's `sort`/`max` with a `key=`). */
module Seqs {

  /** `s` is in non-decreasing order of `key`. */
  predicate SortedBy<T>(s: seq<T>, key: T -> int) {
    forall i, j :: 0 <= i < j < |s| ==> key(s[i]) <= key(s[j])
  }

  /** Inserts `x` before the first element whose key exceeds its own. */
  function InsertBy<T>(x: T, s: seq<T>, key: T -> int): (r: seq<T>)
    requires SortedBy(s, key)
    ensures SortedBy(r, key)
    ensures multiset(r) == multiset(s) + multiset{x}
  {
    if |s| == 0 then [x]
    else if key(x) < key(s[0]) then [x] + s
    else
      var tail := InsertBy(x, s[1..], key);
      assert s == [s[0]] + s[1..];
      HeadBelowTail(x, s, key, tail);
      [s[0]] + tail
  }

  /** The head of a sorted sequence is no greater than the rest with `x` inserted. */
  lemma HeadBelowTail<T>(x: T, s: seq<T>, key: T -> int, tail: seq<T>)
    requires |s| > 0 && SortedBy(s, key) && key(s[0]) <= key(x)
    requires multiset(tail) == multiset(s[1..]) + multiset{x}
    ensures forall i :: 0 <= i < |tail| ==> key(s[0]) <= key(tail[i])
  {
    forall i | 0 <= i < |tail|
      ensures key(s[0]) <= key(tail[i])
    {
      assert tail[i] in multiset(tail);
      if tail[i] != x {
        assert tail[i] in multiset(s[1..]);
        var k :| 0 <= k < |s[1..]| && s[1..][k] == tail[i];
        assert s[k + 1] == tail[i];
      }
    }
  }

  /** Stable insertion sort by `key`, ascending. */
  function SortBy<T>(s: seq<T>, key: T -> int): (r: seq<T>)
    ensures SortedBy(r, key)
    ensures multiset(r) == multiset(s)
    ensures |r| == |s|
  {
    if |s| == 0 then []
    else
      var init, last := s[..|s| - 1], s[|s| - 1];
      assert s == init + [last];
      var r := InsertBy(last, SortBy(init, key), key);
      assert multiset(r) == multiset(s);
      assert |r| == |multiset(r)| == |multiset(s)| == |s|;
      r
  }

  /** A permutation has the same elements. */
  lemma SameElements<T>(a: seq<T>, b: seq<T>, x: T)
    requires multiset(a) == multiset(b)
    ensures x in a <==> x in b
  {
    assert x in a <==> x in multiset(a);
    assert x in b <==> x in multiset(b);
  }

  /** The index of the first element whose key is maximal; `-1` for the empty sequence. */
  function FirstMaxIndex<T>(s: seq<T>, key: T -> int): (r: int)
    ensures |s| == 0 <==> r == -1
    ensures |s| > 0 ==> 0 <= r < |s|
    ensures |s| > 0 ==> forall j :: 0 <= j < |s| ==> key(s[j]) <= key(s[r])
    ensures |s| > 0 ==> forall j :: 0 <= j < r ==> key(s[j]) < key(s[r])
  {
    if |s| == 0 then -1
    else
      var m := FirstMaxIndex(s[..|s| - 1], key);
      if m == -1 || key(s[m]) < key(s[|s| - 1]) then |s| - 1 else m
  }

  /** Applies `f` to every element, keeping the order. */
  function Map<A, B>(s: seq<A>, f: A -> B): (r: seq<B>)
    ensures |r| == |s|
    ensures forall i :: 0 <= i < |s| ==> r[i] == f(s[i])
  {
    seq(|s|, i requires 0 <= i < |s| => f(s[i]))
  }

  /** Mapping two permutations of each other gives two permutations of each other. */
  lemma {:induction false} MapPermutation<A, B>(a: seq<A>, b: seq<A>, f: A -> B)
    requires multiset(a) == multiset(b)
    ensures multiset(Map(a, f)) == multiset(Map(b, f))
  {
    if |a| == 0 {
      assert |multiset(b)| == 0;
      assert b == [];
    } else {
      var x := a[0];
      assert x in multiset(b);
      var j :| 0 <= j < |b| && b[j] == x;
      var tb := b[..j] + b[j + 1..];
      RemoveFirst(a);
      RemoveAt(b, j);
      MapPermutation(a[1..], tb, f);
      var ma, mb := Map(a, f), Map(b, f);
      MapTail(a, f);
      MapAt(b, j, f);
      RemoveFirst(ma);
      RemoveAt(mb, j);
      SameAfterRemoval(multiset(ma), multiset(mb), f(x));
    }
  }

  lemma RemoveFirst<T>(s: seq<T>)
    requires |s| > 0
    ensures multiset(s[1..]) == multiset(s) - multiset{s[0]}
    ensures s[0] in multiset(s)
  {
    assert s == [s[0]] + s[1..];
  }

  lemma MapTail<A, B>(s: seq<A>, f: A -> B)
    requires |s| > 0
    ensures Map(s[1..], f) == Map(s, f)[1..]
    ensures Map(s, f)[0] == f(s[0])
  {
  }

  /** Two multisets holding `y` that agree once one `y` is taken out agree. */
  lemma SameAfterRemoval<T>(m: multiset<T>, n: multiset<T>, y: T)
    requires y in m && y in n
    requires m - multiset{y} == n - multiset{y}
    ensures m == n
  {
    assert m == m - multiset{y} + multiset{y};
    assert n == n - multiset{y} + multiset{y};
  }

  /** Removing the element at `j` removes one occurrence of it. */
  lemma RemoveAt<T>(s: seq<T>, j: nat)
    requires j < |s|
    ensures multiset(s[..j] + s[j + 1..]) == multiset(s) - multiset{s[j]}
    ensures s[j] in multiset(s)
  {
    assert s == s[..j] + [s[j]] + s[j + 1..];
  }

  /** Mapping commutes with removing the element at `j`. */
  lemma MapAt<A, B>(s: seq<A>, j: nat, f: A -> B)
    requires j < |s|
    ensures Map(s[..j] + s[j + 1..], f) == Map(s, f)[..j] + Map(s, f)[j + 1..]
    ensures Map(s, f)[j] == f(s[j])
  {
  }

  /** A sequence holding only `x` holds it once per position and nothing else. */
  lemma {:induction false} ConstantOccurrences<T>(s: seq<T>, x: T, y: T)
    requires forall i :: 0 <= i < |s| ==> s[i] == x
    ensures multiset(s)[y] == if y == x then |s| else 0
  {
    if |s| > 0 {
      assert s == [s[0]] + s[1..];
      ConstantOccurrences(s[1..], x, y);
    }
  }
}
