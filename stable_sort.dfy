/**
 * JavaScript's `Array.prototype.sort(cmp)`, which the language requires to be stable. A
 * comparator `cmp` is represented by the relation `leq(a, b) := cmp(a, b) <= 0` ("a may stay
 * before b"). The reference definition is an insertion sort that inserts each element before
 * the first one it may precede; the in-place method on an array computes the same sequence.
 */
module StableSort {
  import opened Seqs

  /** `leq` is total and transitive, as a consistent comparator is. */
  ghost predicate TotalPreorder<T(!new)>(leq: (T, T) -> bool) {
    && (forall a, b :: leq(a, b) || leq(b, a))
    && (forall a, b, c :: leq(a, b) && leq(b, c) ==> leq(a, c))
  }

  predicate Sorted<T>(s: seq<T>, leq: (T, T) -> bool) {
    forall i, j :: 0 <= i < j < |s| ==> leq(s[i], s[j])
  }

  /** Places `x` immediately before the first element of `t` that it may precede. */
  function Insert<T>(x: T, t: seq<T>, leq: (T, T) -> bool): (r: seq<T>)
    ensures |r| == |t| + 1
  {
    if t == [] then [x]
    else if leq(x, t[0]) then [x] + t
    else [t[0]] + Insert(x, t[1..], leq)
  }

  /** The result of `s.sort(cmp)`. */
  function Sort<T>(s: seq<T>, leq: (T, T) -> bool): (r: seq<T>)
    ensures |r| == |s|
  {
    if s == [] then [] else Insert(s[0], Sort(s[1..], leq), leq)
  }

  lemma {:induction false} InsertPermutation<T>(x: T, t: seq<T>, leq: (T, T) -> bool)
    ensures multiset(Insert(x, t, leq)) == multiset(t) + multiset{x}
  {
    if t != [] && !leq(x, t[0]) {
      InsertPermutation(x, t[1..], leq);
      assert t == [t[0]] + t[1..];
    }
  }

  /** The sort only reorders: its result is a permutation of the input. */
  lemma {:induction false} SortPermutation<T>(s: seq<T>, leq: (T, T) -> bool)
    ensures multiset(Sort(s, leq)) == multiset(s)
  {
    if s != [] {
      SortPermutation(s[1..], leq);
      InsertPermutation(s[0], Sort(s[1..], leq), leq);
      assert s == [s[0]] + s[1..];
    }
  }

  lemma {:induction false} InsertSorted<T(!new)>(x: T, t: seq<T>, leq: (T, T) -> bool)
    requires TotalPreorder(leq)
    requires Sorted(t, leq)
    ensures Sorted(Insert(x, t, leq), leq)
  {
    if t != [] && !leq(x, t[0]) {
      InsertSorted(x, t[1..], leq);
      var r := Insert(x, t, leq);
      var rest := Insert(x, t[1..], leq);
      InsertPermutation(x, t[1..], leq);
      assert r == [t[0]] + rest;
      forall j | 1 <= j < |r| ensures leq(t[0], r[j]) {
        assert r[j] in multiset(rest);
        assert r[j] in multiset(t[1..]) + multiset{x};
        if r[j] != x {
          assert r[j] in t[1..];
        }
      }
    }
  }

  /** The sort orders its result whenever the comparator is consistent. */
  lemma {:induction false} SortSorted<T(!new)>(s: seq<T>, leq: (T, T) -> bool)
    requires TotalPreorder(leq)
    ensures Sorted(Sort(s, leq), leq)
  {
    if s != [] {
      SortSorted(s[1..], leq);
      InsertSorted(s[0], Sort(s[1..], leq), leq);
    }
  }

  /** What inserting `x` does to the elements selected by `p`. */
  lemma {:induction false} InsertFilter<T>(x: T, t: seq<T>, leq: (T, T) -> bool, p: T -> bool)
    ensures !p(x) ==> Filter(Insert(x, t, leq), p) == Filter(t, p)
    ensures p(x) && (forall i :: 0 <= i < |t| && p(t[i]) ==> leq(x, t[i])) ==>
      Filter(Insert(x, t, leq), p) == [x] + Filter(t, p)
  {
    if t != [] && !leq(x, t[0]) {
      InsertFilter(x, t[1..], leq, p);
      var r := Insert(x, t, leq);
      assert r[1..] == Insert(x, t[1..], leq);
      if p(x) && (forall i :: 0 <= i < |t| && p(t[i]) ==> leq(x, t[i])) {
        assert !p(t[0]);
        forall i | 0 <= i < |t[1..]| && p(t[1..][i]) ensures leq(x, t[1..][i]) {
          assert t[1..][i] == t[i + 1];
        }
      }
    }
  }

  /**
   * Stability: the elements picked out by `p`, when they are pairwise allowed to precede one
   * another (an equivalence class of the comparator), keep their input order.
   */
  lemma {:induction false} SortStable<T>(s: seq<T>, leq: (T, T) -> bool, p: T -> bool)
    requires forall i, j :: 0 <= i < |s| && 0 <= j < |s| && p(s[i]) && p(s[j]) ==> leq(s[i], s[j])
    ensures Filter(Sort(s, leq), p) == Filter(s, p)
  {
    if s != [] {
      var t := Sort(s[1..], leq);
      forall i, j | 0 <= i < |s[1..]| && 0 <= j < |s[1..]| && p(s[1..][i]) && p(s[1..][j])
        ensures leq(s[1..][i], s[1..][j])
      {
        assert s[1..][i] == s[i + 1] && s[1..][j] == s[j + 1];
      }
      SortStable(s[1..], leq, p);
      InsertFilter(s[0], t, leq, p);
      if p(s[0]) {
        SortPermutation(s[1..], leq);
        forall i | 0 <= i < |t| && p(t[i]) ensures leq(s[0], t[i]) {
          assert t[i] in multiset(s[1..]);
          var k :| 0 <= k < |s[1..]| && s[1..][k] == t[i];
          assert s[k + 1] == t[i];
        }
      }
    }
  }

  /**
   * `a.sort(cmp)` in place: an insertion sort that grows a sorted suffix leftwards, shifting
   * each new element right past the elements it may not precede.
   */
  method SortInPlace<T>(a: array<T>, leq: (T, T) -> bool)
    modifies a
    ensures a[..] == Sort(old(a[..]), leq)
  {
    if a.Length == 0 {
      return;
    }
    ghost var s := a[..];
    var i := a.Length - 1;
    assert a[i..] == [s[i]] == Sort(s[i..], leq);
    while i > 0
      invariant 0 <= i < a.Length
      invariant a[..i] == s[..i]
      invariant a[i..] == Sort(s[i..], leq)
      decreases i
    {
      i := i - 1;
      assert s[i..][1..] == s[i + 1..];
      InsertAt(a, i, leq);
    }
    assert a[..] == a[0..];
  }

  /** Inserts `a[i]` into the suffix after it, shifting the elements it may not precede. */
  method InsertAt<T>(a: array<T>, i: nat, leq: (T, T) -> bool)
    requires i < a.Length
    modifies a
    ensures a[..i] == old(a[..i])
    ensures a[i..] == Insert(old(a[i]), old(a[i + 1..]), leq)
  {
    ghost var x, t := a[i], a[i + 1..];
    var j := ShiftPast(a, i, leq);
    InsertAfterSkipped(x, t, j - i, leq);
  }

  /**
   * The inner loop: shifts left by one the elements after `a[i]` that it may not precede,
   * then puts `a[i]` in the gap, returning where it went.
   */
  method ShiftPast<T>(a: array<T>, i: nat, leq: (T, T) -> bool) returns (j: nat)
    requires i < a.Length
    modifies a
    ensures i <= j < a.Length
    ensures a[..i] == old(a[..i])
    ensures a[i..] == old(a[i + 1..])[..j - i] + [old(a[i])] + old(a[i + 1..])[j - i..]
    ensures j + 1 == a.Length || leq(old(a[i]), old(a[i + 1..])[j - i])
    ensures PrecedesNone(old(a[i]), old(a[i + 1..]), j - i, leq)
  {
    var x := a[i];
    ghost var t := a[i + 1..];
    j := i;
    while j + 1 < a.Length && !leq(x, a[j + 1])
      invariant i <= j < a.Length
      invariant forall k :: 0 <= k < i ==> a[k] == old(a[k])
      invariant forall k :: i <= k < j ==> a[k] == t[k - i]
      invariant forall k :: j < k < a.Length ==> a[k] == t[k - i - 1]
      invariant forall k :: 0 <= k < j - i ==> !leq(x, t[k])
      decreases a.Length - j
    {
      a[j] := a[j + 1];
      j := j + 1;
    }
    a[j] := x;
    ghost var w := t[..j - i] + [x] + t[j - i..];
    assert |a[i..]| == |w|;
    forall k | 0 <= k < |w| ensures a[i..][k] == w[k] {
      if k < j - i {
        assert a[i + k] == t[k];
      } else if k > j - i {
        assert a[i + k] == t[k - 1];
      }
    }
  }

  /** `x` may precede none of the first `k` elements of `t`. */
  predicate PrecedesNone<T>(x: T, t: seq<T>, k: nat, leq: (T, T) -> bool)
    requires k <= |t|
  {
    forall m :: 0 <= m < k ==> !leq(x, t[m])
  }

  /** `x` goes right after the elements it may not precede, before the first it may. */
  lemma {:induction false} InsertAfterSkipped<T>(x: T, t: seq<T>, k: nat, leq: (T, T) -> bool)
    requires k <= |t| && (k == |t| || leq(x, t[k]))
    requires PrecedesNone(x, t, k, leq)
    ensures Insert(x, t, leq) == t[..k] + [x] + t[k..]
    decreases k
  {
    if k == 0 {
      assert t[..0] + [x] + t[0..] == [x] + t;
    } else {
      InsertAfterSkipped(x, t[1..], k - 1, leq);
      assert t[1..][..k - 1] == t[1..k];
      assert t[1..][k - 1..] == t[k..];
      assert t[..k] == [t[0]] + t[1..k];
    }
  }
}
