/** Generic facts about sequences used by both engines. */
module Sequences {

  /** Sum of a sequence of integers, peeled from the back. */
  function Sum(xs: seq<int>): int
  {
    if |xs| == 0 then 0 else Sum(xs[..|xs| - 1]) + xs[|xs| - 1]
  }

  /** Overwriting one element changes the sum by exactly the difference. */
  lemma {:induction false} SumUpdate(xs: seq<int>, i: nat, v: int)
    requires i < |xs|
    ensures Sum(xs[i := v]) == Sum(xs) - xs[i] + v
    decreases |xs|
  {
    var n := |xs| - 1;
    if i == n {
      assert xs[i := v][..n] == xs[..n];
    } else {
      assert xs[i := v][..n] == xs[..n][i := v];
      SumUpdate(xs[..n], i, v);
    }
  }

  /** The sum distributes over concatenation. */
  lemma {:induction false} SumConcat(a: seq<int>, b: seq<int>)
    ensures Sum(a + b) == Sum(a) + Sum(b)
    decreases |b|
  {
    if |b| == 0 {
      assert a + b == a;
    } else {
      var n := |b| - 1;
      assert (a + b)[..|a + b| - 1] == a + b[..n];
      SumConcat(a, b[..n]);
    }
  }

  /** No element occurs twice (a list of distinct Python objects). */
  predicate Distinct<T(==)>(xs: seq<T>)
  {
    forall i, j :: 0 <= i < j < |xs| ==> xs[i] != xs[j]
  }
  /** How often `c` occurs after putting `x` in front. */
  lemma ConsCount<T>(x: T, s: seq<T>, c: T)
    ensures multiset([x] + s)[c] == multiset(s)[c] + (if x == c then 1 else 0)
  {
    assert multiset([x] + s) == multiset{x} + multiset(s);
  }

  /** Cutting a from the end and then b more is cutting a + b. */
  lemma PrefixOfPrefix<T>(s: seq<T>, a: nat, b: nat)
    requires a + b <= |s|
    ensures s[..|s| - a][..|s| - a - b] == s[..|s| - (a + b)]
  {
  }

  /** The first two elements split off, one to each part. */
  /** A slice inside the first part of a concatenation. */
  lemma SliceOfAppend<T>(s: seq<T>, x: seq<T>, i: nat, j: nat)
    requires i <= j <= |s|
    ensures (s + x)[i..j] == s[i..j]
  {
    assert (s + x)[..|s|] == s;
  }

  lemma ConservePair<T>(s: seq<T>, x: seq<T>, y: seq<T>)
    requires |s| >= 2 && multiset(x) + multiset(y) == multiset(s[2..])
    ensures multiset([s[1]] + x) + multiset([s[0]] + y) == multiset(s)
  {
    assert s == [s[0]] + [s[1]] + s[2..];
  }

  /** The first element split off to the first part. */
  lemma ConserveOne<T>(s: seq<T>, x: seq<T>, y: seq<T>)
    requires |s| >= 1 && multiset(x) + multiset(y) == multiset(s[1..])
    ensures multiset([s[0]] + x) + multiset(y) == multiset(s)
  {
    assert s == [s[0]] + s[1..];
  }

  /** Moving the first element of `b` onto the end of `a`. */
  lemma ShiftOne<T>(a: seq<T>, b: seq<T>)
    requires |b| > 0
    ensures a + b == a + [b[0]] + b[1..]
    ensures (a + b)[|a|] == b[0]
  {
    assert b == [b[0]] + b[1..];
  }

  /** In a list without repeats, an element occurs before no copy of itself,
      and removing it leaves a list without repeats. */
  lemma DistinctSplit<T>(a: seq<T>, x: T, b: seq<T>)
    requires Distinct(a + [x] + b)
    ensures forall k :: 0 <= k < |a| ==> a[k] != x
    ensures Distinct(a + b)
  {
    var s := a + [x] + b;
    forall k | 0 <= k < |a|
      ensures a[k] != x
    {
      assert a[k] == s[k] && x == s[|a|];
    }
    var r := a + b;
    forall i, j | 0 <= i < j < |r|
      ensures r[i] != r[j]
    {
      var i' := if i < |a| then i else i + 1;
      var j' := if j < |a| then j else j + 1;
      assert r[i] == s[i'] && r[j] == s[j'];
    }
  }


  /** `a` can be obtained from `b` by deleting elements: order is kept. */
  predicate IsSubseq<T(==)>(a: seq<T>, b: seq<T>)
    decreases |b|
  {
    if |a| == 0 then true
    else if |b| == 0 then false
    else if a[0] == b[0] then IsSubseq(a[1..], b[1..])
    else IsSubseq(a, b[1..])
  }

  lemma {:induction false} SubseqOfCons<T>(a: seq<T>, x: T, b: seq<T>)
    requires IsSubseq(a, b)
    ensures IsSubseq([x] + a, [x] + b)
  {
    assert ([x] + b)[1..] == b;
    assert ([x] + a)[1..] == a;
  }

  lemma {:induction false} SubseqRefl<T>(a: seq<T>)
    ensures IsSubseq(a, a)
    decreases |a|
  {
    if |a| > 0 {
      SubseqRefl(a[1..]);
    }
  }

  /** Every element of a subsequence occurs in the larger sequence. */
  lemma {:induction false} SubseqMembers<T>(a: seq<T>, b: seq<T>)
    requires IsSubseq(a, b)
    ensures forall x :: x in a ==> x in b
    ensures |a| <= |b|
    decreases |b|
  {
    if |a| == 0 {
    } else if a[0] == b[0] {
      SubseqMembers(a[1..], b[1..]);
      assert a == [a[0]] + a[1..];
      assert b == [b[0]] + b[1..];
    } else {
      SubseqMembers(a, b[1..]);
      assert b == [b[0]] + b[1..];
    }
  }
}
