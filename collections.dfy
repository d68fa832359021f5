/** The array idioms the services use: `filter` (order-preserving selection),
    `[...new Set(xs)]` (distinct values in first-occurrence order) and `find`
    (the first element that matches). */
module Collections {
  import opened Wrappers

  /** `s.filter(keep)`. */
  function Filter<T>(s: seq<T>, keep: T -> bool): (r: seq<T>)
    ensures |r| <= |s|
    ensures forall i | 0 <= i < |r| :: r[i] in s && keep(r[i])
    ensures forall i | 0 <= i < |s| :: keep(s[i]) ==> s[i] in r
  {
    if s == [] then []
    else
      var rest := Filter(s[1..], keep);
      assert forall i | 1 <= i < |s| :: s[i] == s[1..][i - 1];
      if keep(s[0]) then [s[0]] + rest else rest
  }

  /** `a` is `b` with some elements removed, the others kept in order. */
  predicate IsSubsequence<T(==)>(a: seq<T>, b: seq<T>)
    decreases |b|
  {
    if a == [] then true
    else if b == [] then false
    else if a[0] == b[0] then IsSubsequence(a[1..], b[1..])
    else IsSubsequence(a, b[1..])
  }

  lemma {:induction false} SubsequenceRefl<T>(s: seq<T>)
    ensures IsSubsequence(s, s)
    decreases |s|
  {
    if s != [] {
      SubsequenceRefl(s[1..]);
    }
  }

  lemma {:induction false} SubsequenceTrans<T>(a: seq<T>, b: seq<T>, c: seq<T>)
    requires IsSubsequence(a, b) && IsSubsequence(b, c)
    ensures IsSubsequence(a, c)
    decreases |c|
  {
    if a != [] && c != [] {
      if b[0] == c[0] {
        if a[0] == b[0] {
          SubsequenceTrans(a[1..], b[1..], c[1..]);
        } else {
          SubsequenceTrans(a, b[1..], c[1..]);
        }
      } else {
        SubsequenceTrans(a, b, c[1..]);
        if a[0] == c[0] {
          SubsequenceTail(a, c[1..]);
        }
      }
    }
  }

  /** Dropping the head of a subsequence leaves a subsequence. */
  lemma {:induction false} SubsequenceTail<T>(a: seq<T>, b: seq<T>)
    requires a != [] && IsSubsequence(a, b)
    ensures IsSubsequence(a[1..], b)
    decreases |b|, 1
  {
    if a[0] != b[0] {
      SubsequenceTail(a, b[1..]);
    }
    SubsequenceWeaken(a[1..], b);
  }

  /** A subsequence of the tail of b is a subsequence of b. */
  lemma {:induction false} SubsequenceWeaken<T>(a: seq<T>, b: seq<T>)
    requires b != [] && IsSubsequence(a, b[1..])
    ensures IsSubsequence(a, b)
    decreases |b|, 0
  {
    if a != [] && a[0] == b[0] {
      SubsequenceTail(a, b[1..]);
    }
  }

  /** Filtering keeps every copy of a kept value and no copy of the others. */
  lemma {:induction false} FilterMultiplicity<T>(s: seq<T>, keep: T -> bool)
    ensures forall x | x in s :: multiset(Filter(s, keep))[x] == if keep(x) then multiset(s)[x] else 0
    decreases |s|
  {
    if s != [] {
      var rest := Filter(s[1..], keep);
      FilterMultiplicity(s[1..], keep);
      assert s == [s[0]] + s[1..];
      assert multiset(s) == multiset{s[0]} + multiset(s[1..]);
      var r := Filter(s, keep);
      assert multiset(r) == if keep(s[0]) then multiset{s[0]} + multiset(rest) else multiset(rest) by {
        if keep(s[0]) {
          assert r == [s[0]] + rest;
        }
      }
      forall x | x in s && x !in s[1..]
        ensures multiset(rest)[x] == 0
      {
        assert x !in rest;
      }
    }
  }

  /** Filtering keeps the surviving elements in their original order. */
  lemma {:induction false} FilterSubsequence<T>(s: seq<T>, keep: T -> bool)
    ensures IsSubsequence(Filter(s, keep), s)
    decreases |s|
  {
    if s != [] {
      FilterSubsequence(s[1..], keep);
      if keep(s[0]) {
        assert Filter(s, keep)[1..] == Filter(s[1..], keep);
      }
    }
  }

  /** Two filters in a row are one filter by the conjunction. */
  lemma {:induction false} FilterFilter<T>(s: seq<T>, p: T -> bool, q: T -> bool)
    ensures Filter(Filter(s, p), q) == Filter(s, x => p(x) && q(x))
    decreases |s|
  {
    if s != [] {
      FilterFilter(s[1..], p, q);
      if p(s[0]) {
        assert Filter(s, p) == [s[0]] + Filter(s[1..], p);
        assert Filter(s, p)[1..] == Filter(s[1..], p);
      }
    }
  }

  /** A filter whose test holds everywhere keeps everything. */
  lemma {:induction false} FilterAll<T>(s: seq<T>, keep: T -> bool)
    requires forall i | 0 <= i < |s| :: keep(s[i])
    ensures Filter(s, keep) == s
    decreases |s|
  {
    if s != [] {
      assert keep(s[0]);
      FilterAll(s[1..], keep);
      assert [s[0]] + s[1..] == s;
    }
  }

  /** A filter applied only when its parameter was given: it keeps exactly the
      elements that pass, in order, and never adds any. */
  function Narrow<T>(s: seq<T>, given: bool, keep: T -> bool): (r: seq<T>)
    ensures IsSubsequence(r, s)
    ensures forall i | 0 <= i < |r| :: r[i] in s
    ensures given ==> forall i | 0 <= i < |r| :: keep(r[i])
    ensures given ==> forall i | 0 <= i < |s| :: keep(s[i]) ==> s[i] in r
    ensures forall x | x in s :: multiset(r)[x] == if !given || keep(x) then multiset(s)[x] else 0
    ensures !given ==> r == s
  {
    if given then
      FilterSubsequence(s, keep);
      FilterMultiplicity(s, keep);
      Filter(s, keep)
    else
      SubsequenceRefl(s);
      s
  }

  /** An element survives a conditional filter exactly when it was there and,
      if the filter applies, passes it. */
  lemma NarrowMembers<T>(s: seq<T>, given: bool, keep: T -> bool, x: T)
    ensures x in Narrow(s, given, keep) <==> x in s && (given ==> keep(x))
  {
    var r := Narrow(s, given, keep);
    if x in r {
      var i :| 0 <= i < |r| && r[i] == x;
    }
    if x in s && (given ==> keep(x)) {
      var i :| 0 <= i < |s| && s[i] == x;
    }
  }

  predicate NoDuplicates<T(==)>(s: seq<T>)
  {
    forall i, j | 0 <= i < j < |s| :: s[i] != s[j]
  }

  /** `[...new Set(s)]`: a set remembers insertion order and ignores a value
      it already holds, so each value appears once, where it first occurred. */
  function Dedupe<T(==)>(s: seq<T>): (r: seq<T>)
    ensures forall i | 0 <= i < |r| :: r[i] in s
    ensures forall i | 0 <= i < |s| :: s[i] in r
    ensures NoDuplicates(r)
    ensures |r| <= |s|
  {
    if s == [] then []
    else
      var init, last := s[..|s| - 1], s[|s| - 1];
      var d := Dedupe(init);
      assert s == init + [last];
      if last in init then d else d + [last]
  }

  /** Adding a value the sequence already holds changes nothing; adding a new one
      appends it at the end. */
  lemma DedupeAppend<T>(s: seq<T>, x: T)
    ensures Dedupe(s + [x]) == if x in s then Dedupe(s) else Dedupe(s) + [x]
  {
    assert (s + [x])[..|s|] == s;
  }

  /** The position where x first occurs in s. */
  function FirstIndex<T(==)>(s: seq<T>, x: T): (i: nat)
    requires x in s
    ensures i < |s| && s[i] == x && x !in s[..i]
  {
    if s[0] == x then 0
    else
      assert x in s[1..] by {
        var k :| 0 <= k < |s| && s[k] == x;
        assert s[1..][k - 1] == x;
      }
      var i := 1 + FirstIndex(s[1..], x);
      assert s[..i] == [s[0]] + s[1..][..i - 1];
      i
  }

  /** Only the first occurrence has no earlier occurrence before it. */
  lemma FirstIndexUnique<T>(s: seq<T>, x: T, i: nat)
    requires i < |s| && s[i] == x && x !in s[..i]
    ensures FirstIndex(s, x) == i
  {
    var j := FirstIndex(s, x);
  }

  /** Appending a value does not move where earlier values first occur. */
  lemma FirstIndexAppend<T>(s: seq<T>, y: T, x: T)
    requires x in s
    ensures x in s + [y] && FirstIndex(s + [y], x) == FirstIndex(s, x)
  {
    var i := FirstIndex(s, x);
    assert (s + [y])[..i] == s[..i];
    FirstIndexUnique(s + [y], x, i);
  }

  /** r lists values of s in the order in which they first occur in s. */
  predicate InFirstOrder<T(==)>(r: seq<T>, s: seq<T>)
  {
    && (forall x | x in r :: x in s)
    && forall i, j | 0 <= i < j < |r| :: FirstIndex(s, r[i]) < FirstIndex(s, r[j])
  }

  /** The distinct values come in the order of their first occurrences: a set
      built left to right lists `[a, b]` for `[a, b, a]`, never `[b, a]`. */
  lemma {:induction false} DedupeFirstOrder<T>(s: seq<T>)
    ensures InFirstOrder(Dedupe(s), s)
    decreases |s|
  {
    if s != [] {
      var init, last := s[..|s| - 1], s[|s| - 1];
      assert s == init + [last];
      DedupeFirstOrder(init);
      OrderKept(init, last, Dedupe(init));
      if last !in init {
        assert s[..|init|] == init;
        FirstIndexUnique(s, last, |init|);
        OrderAppend(s, Dedupe(init), last);
      }
    }
  }

  /** Appending a value to s keeps the first-occurrence order of its values. */
  lemma OrderKept<T>(init: seq<T>, last: T, d: seq<T>)
    requires InFirstOrder(d, init)
    ensures InFirstOrder(d, init + [last])
    ensures forall x | x in d :: FirstIndex(init + [last], x) < |init|
  {
    forall x | x in d
      ensures x in init + [last] && FirstIndex(init + [last], x) == FirstIndex(init, x) < |init|
    {
      FirstIndexAppend(init, last, x);
    }
    var s := init + [last];
    forall i, j | 0 <= i < j < |d|
      ensures FirstIndex(s, d[i]) < FirstIndex(s, d[j])
    {
      assert d[i] in d && d[j] in d;
    }
  }

  /** A value that first occurs after all of d may follow d. */
  lemma OrderAppend<T>(s: seq<T>, d: seq<T>, x: T)
    requires InFirstOrder(d, s) && x in s
    requires forall y | y in d :: FirstIndex(s, y) < FirstIndex(s, x)
    ensures InFirstOrder(d + [x], s)
  {
    var r := d + [x];
    forall i, j | 0 <= i < j < |r|
      ensures FirstIndex(s, r[i]) < FirstIndex(s, r[j])
    {
      assert r[i] == d[i] && d[i] in d;
      if j < |d| {
        assert r[j] == d[j];
      }
    }
  }

  /** The first-occurrence order pins the sequence: two sequences listing the
      same values of s in that order are equal. So the distinct values of s in
      the order a set is filled are exactly `Dedupe(s)`. */
  lemma {:induction false} FirstOrderUnique<T>(s: seq<T>, a: seq<T>, b: seq<T>)
    requires InFirstOrder(a, s) && InFirstOrder(b, s)
    requires forall x :: x in a <==> x in b
    ensures a == b
    decreases |a|
  {
    SameValuesEmpty(a, b);
    if a != [] {
      assert a[0] in a && a[0] in b;
      assert b[0] in b && b[0] in a;
      var i :| 0 <= i < |a| && a[i] == b[0];
      var j :| 0 <= j < |b| && b[j] == a[0];
      assert FirstIndex(s, a[0]) <= FirstIndex(s, a[i]);
      assert FirstIndex(s, b[0]) <= FirstIndex(s, b[j]);
      assert a[0] == s[FirstIndex(s, a[0])] == s[FirstIndex(s, b[0])] == b[0];
      OrderTail(s, a);
      OrderTail(s, b);
      forall x
        ensures x in a[1..] <==> x in b[1..]
      {
        assert x in a <==> x == a[0] || x in a[1..];
        assert x in b <==> x == b[0] || x in b[1..];
      }
      FirstOrderUnique(s, a[1..], b[1..]);
      assert a == [a[0]] + a[1..] && b == [b[0]] + b[1..];
    }
  }

  /** Two sequences holding the same values are empty together. */
  lemma SameValuesEmpty<T>(a: seq<T>, b: seq<T>)
    requires forall x :: x in a <==> x in b
    ensures a == [] <==> b == []
  {
    if a != [] {
      assert a[0] in b;
    }
    if b != [] {
      assert b[0] in a;
    }
  }

  /** The head of a sequence in first-occurrence order does not recur, and the
      tail is in that order too. */
  lemma OrderTail<T>(s: seq<T>, a: seq<T>)
    requires a != [] && InFirstOrder(a, s)
    ensures a[0] !in a[1..] && InFirstOrder(a[1..], s)
  {
    forall k | 0 <= k < |a[1..]|
      ensures a[1..][k] != a[0]
    {
      assert a[1..][k] == a[k + 1];
    }
    var t := a[1..];
    forall x | x in t
      ensures x in s
    {
      assert x in a;
    }
    forall i, j | 0 <= i < j < |t|
      ensures FirstIndex(s, t[i]) < FirstIndex(s, t[j])
    {
      assert t[i] == a[i + 1] && t[j] == a[j + 1];
    }
  }

  /** `Dedupe(s)` is the one duplicate-free listing of the values of s in the
      order of their first occurrences. */
  lemma DedupeUnique<T>(s: seq<T>, r: seq<T>)
    requires InFirstOrder(r, s) && forall x | x in s :: x in r
    ensures r == Dedupe(s)
  {
    DedupeFirstOrder(s);
    forall x
      ensures x in r <==> x in Dedupe(s)
    {
      if x in Dedupe(s) {
        var i :| 0 <= i < |Dedupe(s)| && Dedupe(s)[i] == x;
      }
      if x in s {
        var i :| 0 <= i < |s| && s[i] == x;
      }
    }
    FirstOrderUnique(s, r, Dedupe(s));
  }

  /** The distinct values keep the order of the input. */
  lemma {:induction false} DedupeSubsequence<T>(s: seq<T>)
    ensures IsSubsequence(Dedupe(s), s)
    decreases |s|
  {
    if s != [] {
      var init, last := s[..|s| - 1], s[|s| - 1];
      DedupeSubsequence(init);
      assert s == init + [last];
      if last in init {
        SubsequenceExtend(Dedupe(init), init, last);
      } else {
        SubsequenceAppend(Dedupe(init), init, last);
      }
    }
  }

  lemma {:induction false} SubsequenceExtend<T>(a: seq<T>, b: seq<T>, x: T)
    requires IsSubsequence(a, b)
    ensures IsSubsequence(a, b + [x])
    decreases |b|
  {
    if a != [] && b != [] {
      assert (b + [x])[1..] == b[1..] + [x];
      if a[0] == b[0] {
        SubsequenceExtend(a[1..], b[1..], x);
      } else {
        SubsequenceExtend(a, b[1..], x);
      }
    }
  }

  lemma {:induction false} SubsequenceAppend<T>(a: seq<T>, b: seq<T>, x: T)
    requires IsSubsequence(a, b)
    ensures IsSubsequence(a + [x], b + [x])
    decreases |b|
  {
    if a == [] {
      assert [] + [x] == [x];
      SubsequenceSingle(b, x);
    } else {
      assert (a + [x])[0] == a[0] && (a + [x])[1..] == a[1..] + [x];
      assert (b + [x])[0] == b[0] && (b + [x])[1..] == b[1..] + [x];
      if a[0] == b[0] {
        SubsequenceAppend(a[1..], b[1..], x);
      } else {
        SubsequenceAppend(a, b[1..], x);
      }
    }
  }

  lemma {:induction false} SubsequenceSingle<T>(b: seq<T>, x: T)
    ensures IsSubsequence([x], b + [x])
    decreases |b|
  {
    if b == [] {
      assert [x][1..] == [];
    } else {
      assert (b + [x])[1..] == b[1..] + [x];
      if b[0] == x {
        assert [x][1..] == [];
      } else {
        SubsequenceSingle(b[1..], x);
      }
    }
  }

  /** `s.find(p)`: the first element satisfying p, or `undefined`. */
  function Find<T>(s: seq<T>, p: T -> bool): (r: Option<T>)
    ensures r.None? <==> forall i | 0 <= i < |s| :: !p(s[i])
    ensures r.Some? ==> exists i | 0 <= i < |s| :: s[i] == r.value && p(s[i]) && forall j | 0 <= j < i :: !p(s[j])
  {
    if s == [] then None
    else if p(s[0]) then Some(s[0])
    else
      var r := Find(s[1..], p);
      assert forall i | 1 <= i < |s| :: s[i] == s[1..][i - 1];
      r
  }
}
