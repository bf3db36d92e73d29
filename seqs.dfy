/** Sequence helpers standing in for Python's list comprehensions and its stable `sorted`. */
module Seqs {

  /** `[x for x in s if keep(x)]`. */
  function Filter<T(!new)>(s: seq<T>, keep: T -> bool): (r: seq<T>)
    ensures |r| <= |s|
  {
    if s == [] then []
    else
      assert s == [s[0]] + s[1..];
      if keep(s[0]) then [s[0]] + Filter(s[1..], keep)
      else Filter(s[1..], keep)
  }

  /** The kept elements are exactly the input's elements that satisfy `keep`. */
  lemma {:induction false} FilterMember<T(!new)>(s: seq<T>, keep: T -> bool, x: T)
    ensures x in Filter(s, keep) <==> x in s && keep(x)
  {
    if s != [] {
      FilterMember(s[1..], keep, x);
      assert s == [s[0]] + s[1..];
    }
  }

  /** Filtering commutes with concatenation, so the kept elements stay in input order. */
  lemma {:induction false} FilterAppend<T(!new)>(a: seq<T>, b: seq<T>, keep: T -> bool)
    ensures Filter(a + b, keep) == Filter(a, keep) + Filter(b, keep)
  {
    if a == [] {
      assert a + b == b;
    } else {
      assert (a + b)[1..] == a[1..] + b;
      FilterAppend(a[1..], b, keep);
    }
  }

  lemma FilterSingle<T(!new)>(x: T, keep: T -> bool)
    ensures Filter([x], keep) == if keep(x) then [x] else []
  {
    assert [x][1..] == [];
  }

  lemma {:induction false} FilterNone<T(!new)>(s: seq<T>, keep: T -> bool)
    requires forall k :: 0 <= k < |s| ==> !keep(s[k])
    ensures Filter(s, keep) == []
  {
    if s != [] {
      FilterNone(s[1..], keep);
    }
  }

  /** Counting an element in a filtered sequence: it is the count in the input when kept, else 0. */
  lemma {:induction false} FilterCount<T(!new)>(s: seq<T>, keep: T -> bool, x: T)
    ensures multiset(Filter(s, keep))[x] == if keep(x) then multiset(s)[x] else 0
  {
    if s != [] {
      FilterCount(s[1..], keep, x);
      assert s == [s[0]] + s[1..];
    }
  }

  /** Filtering two permutations of one another keeps the same number of elements. */
  lemma FilterPermutation<T(!new)>(a: seq<T>, b: seq<T>, keep: T -> bool)
    requires multiset(a) == multiset(b)
    ensures |Filter(a, keep)| == |Filter(b, keep)|
  {
    forall x ensures multiset(Filter(a, keep))[x] == multiset(Filter(b, keep))[x] {
      FilterCount(a, keep, x);
      FilterCount(b, keep, x);
    }
    assert multiset(Filter(a, keep)) == multiset(Filter(b, keep));
    assert |multiset(Filter(a, keep))| == |Filter(a, keep)|;
    assert |multiset(Filter(b, keep))| == |Filter(b, keep)|;
  }

  /** When the first `m` elements are all kept, at least `m` elements are kept. */
  lemma {:induction false} FilterKeepsPrefix<T(!new)>(s: seq<T>, keep: T -> bool, m: nat)
    requires m <= |s|
    requires forall j :: 0 <= j < m ==> keep(s[j])
    ensures |Filter(s, keep)| >= m
  {
    if m > 0 {
      FilterKeepsPrefix(s[1..], keep, m - 1);
    }
  }

  /** When the elements from index `m` on are all kept, at least `|s| - m` elements are kept. */
  lemma FilterKeepsSuffix<T(!new)>(s: seq<T>, keep: T -> bool, m: nat)
    requires m <= |s|
    requires forall j :: m <= j < |s| ==> keep(s[j])
    ensures |Filter(s, keep)| >= |s| - m
  {
    assert s == s[..m] + s[m..];
    FilterAppend(s[..m], s[m..], keep);
    FilterKeepsPrefix(s[m..], keep, |s| - m);
  }

  /** A sub-multiset of another sequence's elements is no longer than it. */
  lemma SubMultisetLength<T>(a: seq<T>, b: seq<T>)
    requires multiset(a) <= multiset(b)
    ensures |a| <= |b|
  {
    var rest := multiset(b) - multiset(a);
    assert multiset(b) == multiset(a) + rest;
    assert |multiset(b)| == |multiset(a)| + |rest|;
    assert |multiset(a)| == |a| && |multiset(b)| == |b|;
  }

  /** Non-increasing by `key`. */
  ghost predicate SortedDesc<T>(s: seq<T>, key: T -> real) {
    forall i, j :: 0 <= i < j < |s| ==> key(s[i]) >= key(s[j])
  }

  /** Stable sort by non-increasing key (Python's `sorted(s, key=key, reverse=True)`):
      elements with equal keys keep their input order. */
  function SortByKeyDesc<T(!new)>(s: seq<T>, key: T -> real): (r: seq<T>)
    ensures multiset(r) == multiset(s)
    ensures |r| == |s|
    ensures SortedDesc(r, key)
    decreases |s|
  {
    if s == [] then []
    else
      var rest := s[..|s| - 1];
      assert s == rest + [s[|s| - 1]];
      InsertAfterEqual(s[|s| - 1], SortByKeyDesc(rest, key), key)
  }

  /** Every element of `t`, which holds the elements of `u` and `x`, has a key of at least `b`
      when `x` and every element of `u` has. */
  lemma KeysAtLeast<T>(t: seq<T>, u: seq<T>, x: T, key: T -> real, b: real)
    requires multiset(t) == multiset(u) + multiset{x}
    requires forall i :: 0 <= i < |u| ==> key(u[i]) >= b
    requires key(x) >= b
    ensures forall i :: 0 <= i < |t| ==> key(t[i]) >= b
  {
    forall i | 0 <= i < |t| ensures key(t[i]) >= b {
      assert t[i] in multiset(t);
      if t[i] != x {
        assert t[i] in multiset(u);
        var k :| 0 <= k < |u| && u[k] == t[i];
      }
    }
  }

  /** Appending an element whose key is at most every key keeps the order. */
  lemma SortedSnoc<T>(t: seq<T>, y: T, key: T -> real)
    requires SortedDesc(t, key)
    requires forall i :: 0 <= i < |t| ==> key(t[i]) >= key(y)
    ensures SortedDesc(t + [y], key)
  {
  }

  /** When `x` has a larger key than the last element, it is placed among the others and the
      last element stays last. */
  lemma InsertBeforeLast<T(!new)>(x: T, s: seq<T>, key: T -> real)
    requires SortedDesc(s, key) && s != [] && key(s[|s| - 1]) < key(x)
    ensures SortedDesc(s[..|s| - 1], key)
    ensures InsertAfterEqual(x, s, key) == InsertAfterEqual(x, s[..|s| - 1], key) + [s[|s| - 1]]
    ensures forall e :: e in s[..|s| - 1] ==> e in s
  {
  }

  /** Places `x` after every element whose key is larger than or equal to its own: used when `x`
      comes later in the input than all elements of `s`, which keeps the sort stable. */
  function InsertAfterEqual<T(!new)>(x: T, s: seq<T>, key: T -> real): (r: seq<T>)
    requires SortedDesc(s, key)
    ensures multiset(r) == multiset(s) + multiset{x}
    ensures |r| == |s| + 1
    ensures SortedDesc(r, key)
    decreases |s|
  {
    if s == [] then [x]
    else
      var last := s[|s| - 1];
      if key(last) >= key(x) then
        s + [x]
      else
        var init := s[..|s| - 1];
        assert s == init + [last];
        var t := InsertAfterEqual(x, init, key);
        KeysAtLeast(t, init, x, key, key(last));
        SortedSnoc(t, last, key);
        t + [last]
  }
}
