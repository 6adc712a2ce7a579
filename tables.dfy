/** Tables are sequences of rows. This module holds the two row-wise
    operations every step of the pipeline is built from (a boolean-mask
    selection and a per-row derivation) and the facts about them that the
    steps rely on: a mask keeps exactly the rows it accepts, in their order. */
module Tables {

  /** `df[mask]`: the rows that satisfy `p`, in their original order. */
  function Filter<T>(s: seq<T>, p: T -> bool): (r: seq<T>)
    ensures |r| <= |s|
    ensures forall x :: x in r ==> x in s && p(x)
  {
    if s == [] then [] else (if p(s[0]) then [s[0]] else []) + Filter(s[1..], p)
  }

  /** A derived column or a column projection: one output row per input row. */
  function Map<T, U>(s: seq<T>, f: T -> U): (r: seq<U>)
    ensures |r| == |s|
    ensures forall i :: 0 <= i < |s| ==> r[i] == f(s[i])
  {
    if s == [] then [] else [f(s[0])] + Map(s[1..], f)
  }

  /** `a` can be obtained from `b` by deleting rows (order is kept). */
  ghost predicate IsSubsequence<T>(a: seq<T>, b: seq<T>)
    decreases |b|
  {
    if a == [] then true
    else if b == [] then false
    else (a[0] == b[0] && IsSubsequence(a[1..], b[1..])) || IsSubsequence(a, b[1..])
  }

  /** A mask keeps every row it accepts. */
  lemma {:induction false} FilterKeeps<T>(s: seq<T>, p: T -> bool, x: T)
    requires x in s && p(x)
    ensures x in Filter(s, p)
  {
    if s[0] != x {
      FilterKeeps(s[1..], p, x);
    }
  }

  /** A mask keeps the order of the rows it accepts. */
  lemma {:induction false} FilterIsSubsequence<T>(s: seq<T>, p: T -> bool)
    ensures IsSubsequence(Filter(s, p), s)
  {
    if s != [] {
      FilterIsSubsequence(s[1..], p);
      if p(s[0]) {
        assert Filter(s, p) == [s[0]] + Filter(s[1..], p);
        assert Filter(s, p)[1..] == Filter(s[1..], p);
      } else {
        assert Filter(s, p) == Filter(s[1..], p);
      }
    }
  }

  /** Selection distributes over concatenation: rows of an earlier block
      come before rows of a later block in the result. */
  lemma {:induction false} FilterAppend<T>(a: seq<T>, b: seq<T>, p: T -> bool)
    ensures Filter(a + b, p) == Filter(a, p) + Filter(b, p)
  {
    if a == [] {
      assert a + b == b;
    } else {
      assert (a + b)[1..] == a[1..] + b;
      FilterAppend(a[1..], b, p);
    }
  }

  /** Deriving distributes over concatenation. */
  lemma {:induction false} MapAppend<T, U>(a: seq<T>, b: seq<T>, f: T -> U)
    ensures Map(a + b, f) == Map(a, f) + Map(b, f)
  {
    var l := Map(a + b, f);
    var r := Map(a, f) + Map(b, f);
    assert |l| == |r|;
    forall i | 0 <= i < |l|
      ensures l[i] == r[i]
    {
      if i < |a| {
        assert (a + b)[i] == a[i];
      } else {
        assert (a + b)[i] == b[i - |a|];
      }
    }
  }

  /** A mask that accepts every row leaves the table unchanged. */
  lemma {:induction false} FilterAll<T>(s: seq<T>, p: T -> bool)
    requires forall x :: x in s ==> p(x)
    ensures Filter(s, p) == s
  {
    if s != [] {
      FilterAll(s[1..], p);
    }
  }

  /** A mask keeps every row exactly when it accepts every row. */
  lemma {:induction false} FilterFull<T>(s: seq<T>, p: T -> bool)
    ensures |Filter(s, p)| == |s| <==> forall x :: x in s ==> p(x)
  {
    if s != [] {
      FilterFull(s[1..], p);
      assert s == [s[0]] + s[1..];
    }
  }

  /** A mask and its negation split a table: every row goes to exactly one side. */
  lemma {:induction false} FilterPartition<T>(s: seq<T>, p: T -> bool, q: T -> bool)
    requires forall x :: x in s ==> (q(x) <==> !p(x))
    ensures |Filter(s, p)| + |Filter(s, q)| == |s|
  {
    if s != [] {
      FilterPartition(s[1..], p, q);
    }
  }

  /** Two masks applied one after the other commute. */
  lemma {:induction false} FilterCommute<T>(s: seq<T>, p: T -> bool, q: T -> bool)
    ensures Filter(Filter(s, p), q) == Filter(Filter(s, q), p)
  {
    if s != [] {
      FilterCommute(s[1..], p, q);
      FilterAppend(if p(s[0]) then [s[0]] else [], Filter(s[1..], p), q);
      FilterAppend(if q(s[0]) then [s[0]] else [], Filter(s[1..], q), p);
    }
  }

  /** Two masks applied one after the other are one mask that asks both. */
  lemma {:induction false} FilterFilter<T>(s: seq<T>, p: T -> bool, q: T -> bool, pq: T -> bool)
    requires forall x :: x in s ==> (pq(x) <==> p(x) && q(x))
    ensures Filter(Filter(s, p), q) == Filter(s, pq)
  {
    if s != [] {
      FilterFilter(s[1..], p, q, pq);
      FilterAppend(if p(s[0]) then [s[0]] else [], Filter(s[1..], p), q);
    }
  }
}
