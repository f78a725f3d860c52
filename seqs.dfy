/**
 * Sequence operations that JavaScript's arrays and insertion-ordered `Set`s provide:
 * `filter`, `new Set(arr)` followed by `Array.from` (first-occurrence de-duplication),
 * `includes`, and counting.
 */
module Seqs {

  /** `arr.filter(p)`: the elements satisfying `p`, in their original order. */
  function Filter<T>(s: seq<T>, p: T -> bool): (r: seq<T>)
    ensures |r| <= |s|
    ensures forall i :: 0 <= i < |r| ==> r[i] in s && p(r[i])
    ensures forall i :: 0 <= i < |s| && p(s[i]) ==> s[i] in r
  {
    if s == [] then []
    else if p(s[0]) then [s[0]] + Filter(s[1..], p)
    else Filter(s[1..], p)
  }

  /** A filter keeps the order of what it keeps. */
  lemma {:induction false} FilterIsSubseq<T>(s: seq<T>, p: T -> bool)
    ensures IsSubseq(Filter(s, p), s)
  {
    if s != [] {
      FilterIsSubseq(s[1..], p);
      if p(s[0]) {
        assert Filter(s, p)[1..] == Filter(s[1..], p);
      }
    }
  }

  /** `a` can be obtained from `b` by deleting elements (order is kept). */
  predicate IsSubseq<T(==)>(a: seq<T>, b: seq<T>)
    decreases |b|
  {
    if a == [] then true
    else if b == [] then false
    else if a[0] == b[0] then IsSubseq(a[1..], b[1..])
    else IsSubseq(a, b[1..])
  }

  /** Number of occurrences of `x` in `s`. */
  function Count<T(==)>(s: seq<T>, x: T): (n: nat)
    ensures n <= |s|
    ensures n > 0 <==> x in s
  {
    if s == [] then 0 else (if s[0] == x then 1 else 0) + Count(s[1..], x)
  }

  /** No element occurs twice. */
  predicate NoDups<T(==)>(s: seq<T>) {
    forall i, j :: 0 <= i < j < |s| ==> s[i] != s[j]
  }

  /** Position of the first occurrence of `x` (JavaScript's `indexOf`), or `|s|` when absent. */
  function IndexOf<T(==)>(s: seq<T>, x: T): (k: nat)
    ensures k <= |s|
    ensures k < |s| <==> x in s
    ensures k < |s| ==> s[k] == x && x !in s[..k]
  {
    if s == [] then 0
    else if s[0] == x then 0
    else
      var k := 1 + IndexOf(s[1..], x);
      assert s[1..][..k - 1] == s[1..k];
      k
  }

  /**
   * `Array.from(new Set(s))`: the distinct elements of `s`, each at the place of its first
   * occurrence. Built left to right, as the `Set` constructor inserts.
   */
  function Dedup<T(==)>(s: seq<T>): (r: seq<T>)
    ensures NoDups(r)
    ensures forall i :: 0 <= i < |r| ==> r[i] in s
    ensures forall i :: 0 <= i < |s| ==> s[i] in r
    ensures |r| <= |s|
    ensures forall i, j :: 0 <= i < j < |r| ==> IndexOf(s, r[i]) < IndexOf(s, r[j])
    decreases |s|
  {
    if s == [] then []
    else
      var init, last := s[..|s| - 1], s[|s| - 1];
      assert s == init + [last];
      var r := Dedup(init);
      DedupStep(init, last, r);
      if last in r then r else r + [last]
  }

  /** The induction step of Dedup: what appending one element does to the de-duplicated prefix. */
  lemma DedupStep<T>(init: seq<T>, last: T, r: seq<T>)
    requires NoDups(r)
    requires forall i :: 0 <= i < |r| ==> r[i] in init
    requires forall i :: 0 <= i < |init| ==> init[i] in r
    requires |r| <= |init|
    requires forall i, j :: 0 <= i < j < |r| ==> IndexOf(init, r[i]) < IndexOf(init, r[j])
    ensures var s, r' := init + [last], if last in r then r else r + [last];
      && NoDups(r')
      && (forall i :: 0 <= i < |r'| ==> r'[i] in s)
      && (forall i :: 0 <= i < |s| ==> s[i] in r')
      && |r'| <= |s|
      && (forall i, j :: 0 <= i < j < |r'| ==> IndexOf(s, r'[i]) < IndexOf(s, r'[j]))
  {
    var s := init + [last];
    IndexOfExtend(init, last);
    forall i | 0 <= i < |r| ensures IndexOf(s, r[i]) == IndexOf(init, r[i]) {
    }
    if last in r {
      forall i | 0 <= i < |s| ensures s[i] in r {
        if i < |init| {
          assert s[i] == init[i];
        }
      }
    } else {
      DedupAppendNew(init, last, r);
    }
  }

  /** DedupStep when `last` is new: it goes at the end, after every earlier first occurrence. */
  lemma DedupAppendNew<T>(init: seq<T>, last: T, r: seq<T>)
    requires NoDups(r) && last !in r
    requires forall i :: 0 <= i < |r| ==> r[i] in init
    requires forall i :: 0 <= i < |init| ==> init[i] in r
    requires |r| <= |init|
    requires forall i, j :: 0 <= i < j < |r| ==> IndexOf(init, r[i]) < IndexOf(init, r[j])
    requires forall i :: 0 <= i < |r| ==> IndexOf(init + [last], r[i]) == IndexOf(init, r[i])
    requires last !in init ==> IndexOf(init + [last], last) == |init|
    ensures var s, r' := init + [last], r + [last];
      && NoDups(r')
      && (forall i :: 0 <= i < |r'| ==> r'[i] in s)
      && (forall i :: 0 <= i < |s| ==> s[i] in r')
      && |r'| <= |s|
      && (forall i, j :: 0 <= i < j < |r'| ==> IndexOf(s, r'[i]) < IndexOf(s, r'[j]))
  {
    var s, r' := init + [last], r + [last];
    assert last !in init;
    forall i | 0 <= i < |r| ensures IndexOf(init, r[i]) < |init| {
      assert r[i] in init;
    }
    forall i, j | 0 <= i < j < |r'| ensures IndexOf(s, r'[i]) < IndexOf(s, r'[j]) {
      if j < |r| {
        assert r'[i] == r[i] && r'[j] == r[j];
      } else {
        assert r'[i] == r[i] && r'[j] == last;
      }
    }
    forall i | 0 <= i < |s| ensures s[i] in r' {
      if i < |init| {
        assert s[i] == init[i];
      }
    }
  }

  /** Cutting a suffix at two points. */
  lemma SuffixCuts<T>(s: seq<T>, p: nat, q: nat, e: nat)
    requires p <= q <= e <= |s|
    ensures s[p..] == s[p..q] + s[q..e] + s[e..]
  {
    var l, r := s[p..], s[p..q] + s[q..e] + s[e..];
    assert |l| == |r|;
    forall k | 0 <= k < |l| ensures l[k] == r[k] {
      if k < q - p {
      } else if k < e - p {
      } else {
      }
    }
  }

  /** Appending an element does not move the first occurrence of anything already present. */
  lemma IndexOfExtend<T>(s: seq<T>, y: T)
    ensures forall x :: x in s ==> IndexOf(s + [y], x) == IndexOf(s, x)
    ensures y !in s ==> IndexOf(s + [y], y) == |s|
  {
    forall x | x in s ensures IndexOf(s + [y], x) == IndexOf(s, x) {
      IndexOfPrefix(s, [y], x);
    }
    if y !in s {
      IndexOfAbsentPrefix(s, [y], y);
    }
  }

  lemma {:induction false} IndexOfPrefix<T>(a: seq<T>, b: seq<T>, x: T)
    requires x in a
    ensures IndexOf(a + b, x) == IndexOf(a, x)
  {
    if a[0] != x {
      assert (a + b)[1..] == a[1..] + b;
      IndexOfPrefix(a[1..], b, x);
    }
  }

  lemma {:induction false} IndexOfAbsentPrefix<T>(a: seq<T>, b: seq<T>, x: T)
    requires x !in a
    ensures IndexOf(a + b, x) == |a| + IndexOf(b, x)
  {
    if a != [] {
      assert (a + b)[1..] == a[1..] + b;
      IndexOfAbsentPrefix(a[1..], b, x);
    } else {
      assert a + b == b;
    }
  }

  /** Filtering distributes over concatenation. */
  lemma {:induction false} FilterConcat<T>(a: seq<T>, b: seq<T>, p: T -> bool)
    ensures Filter(a + b, p) == Filter(a, p) + Filter(b, p)
  {
    if a == [] {
      assert a + b == b;
    } else {
      assert (a + b)[1..] == a[1..] + b;
      FilterConcat(a[1..], b, p);
    }
  }

  /** Filtering keeps the number of occurrences of every kept element. */
  lemma {:induction false} FilterCount<T>(s: seq<T>, p: T -> bool, x: T)
    ensures Count(Filter(s, p), x) == if p(x) then Count(s, x) else 0
  {
    if s != [] {
      FilterCount(s[1..], p, x);
    }
  }

  /** Two filters with complementary predicates split the occurrences of every element. */
  lemma {:induction false} FilterComplementCount<T>(s: seq<T>, p: T -> bool, q: T -> bool, x: T)
    requires forall y :: q(y) == !p(y)
    ensures Count(Filter(s, p), x) + Count(Filter(s, q), x) == Count(s, x)
  {
    if s != [] {
      FilterComplementCount(s[1..], p, q, x);
    }
  }

  /** Two filters with complementary predicates split the length. */
  lemma {:induction false} FilterComplementLength<T>(s: seq<T>, p: T -> bool, q: T -> bool)
    requires forall y :: q(y) == !p(y)
    ensures |Filter(s, p)| + |Filter(s, q)| == |s|
  {
    if s != [] {
      FilterComplementLength(s[1..], p, q);
    }
  }

  /** Filtering with a predicate that agrees on every element gives the same result. */
  lemma {:induction false} FilterCongruent<T>(s: seq<T>, p: T -> bool, q: T -> bool)
    requires forall i :: 0 <= i < |s| ==> p(s[i]) == q(s[i])
    ensures Filter(s, p) == Filter(s, q)
  {
    if s != [] {
      FilterCongruent(s[1..], p, q);
    }
  }

  /** Filtering a sequence without duplicates gives one without duplicates. */
  lemma {:induction false} FilterNoDups<T>(s: seq<T>, p: T -> bool)
    requires NoDups(s)
    ensures NoDups(Filter(s, p))
  {
    if s != [] {
      FilterNoDups(s[1..], p);
      assert s[0] !in s[1..];
      if p(s[0]) {
        var r := Filter(s, p);
        assert r == [s[0]] + Filter(s[1..], p);
        forall i, j | 0 <= i < j < |r| ensures r[i] != r[j] {
          if i == 0 {
            assert r[j] == Filter(s[1..], p)[j - 1];
          }
        }
      }
    }
  }

  /** Two successive filters are one filter by the conjunction `pq`. */
  lemma {:induction false} FilterFilter<T>(s: seq<T>, p: T -> bool, q: T -> bool, pq: T -> bool)
    requires forall i :: 0 <= i < |s| ==> pq(s[i]) == (p(s[i]) && q(s[i]))
    ensures Filter(Filter(s, p), q) == Filter(s, pq)
  {
    if s != [] {
      FilterFilter(s[1..], p, q, pq);
    }
  }

  /** A filter that keeps every element is the identity. */
  lemma {:induction false} FilterNone<T>(s: seq<T>, p: T -> bool)
    requires forall x :: x in s ==> !p(x)
    ensures Filter(s, p) == []
  {
    if s != [] {
      assert s[0] in s;
      FilterNone(s[1..], p);
    }
  }

  lemma {:induction false} FilterAll<T>(s: seq<T>, p: T -> bool)
    requires forall i :: 0 <= i < |s| ==> p(s[i])
    ensures Filter(s, p) == s
  {
    if s != [] {
      FilterAll(s[1..], p);
    }
  }

  /**
   * `prev.includes(x) ? prev.filter(y => y !== x) : [...prev, x]`: removes every copy of a
   * present element, or appends an absent one.
   */
  function Toggled<T(==)>(s: seq<T>, x: T): (r: seq<T>)
    ensures x in r <==> x !in s
    ensures forall i :: 0 <= i < |s| && s[i] != x ==> s[i] in r
    ensures forall i :: 0 <= i < |r| && r[i] != x ==> r[i] in s
    ensures x in s ==> IsSubseq(r, s)
    ensures x !in s ==> |r| == |s| + 1 && r[..|s|] == s
  {
    if x in s then
      FilterIsSubseq(s, y => y != x);
      Filter(s, y => y != x)
    else s + [x]
  }

  /** Toggling keeps a sequence free of duplicates. */
  lemma ToggledNoDups<T>(s: seq<T>, x: T)
    requires NoDups(s)
    ensures NoDups(Toggled(s, x))
  {
    if x in s {
      FilterNoDups(s, y => y != x);
    }
  }

  /** Toggling an absent element twice restores the sequence. */
  lemma ToggledTwice<T>(s: seq<T>, x: T)
    requires x !in s
    ensures Toggled(Toggled(s, x), x) == s
  {
    var t := s + [x];
    FilterConcat(s, [x], y => y != x);
    FilterAll(s, y => y != x);
  }
}
