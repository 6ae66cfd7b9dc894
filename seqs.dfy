/** `Array.prototype.filter` on sequences: a specification function, the
    loop that computes it, and the facts the filter screen builds on. */
module Seqs {

  /** The elements of `s` that satisfy `p`, in their original order. */
  function Filter<T(==)>(s: seq<T>, p: T -> bool): (r: seq<T>)
    ensures |r| <= |s|
    ensures forall i :: 0 <= i < |r| ==> r[i] in s && p(r[i])
    ensures forall i :: 0 <= i < |s| && p(s[i]) ==> s[i] in r
  {
    if s == [] then []
    else if p(s[0]) then [s[0]] + Filter(s[1..], p)
    else Filter(s[1..], p)
  }

  /** `s.filter(p)`: one pass over `s`, appending every element that passes. */
  method Keep<T(==)>(s: seq<T>, p: T -> bool) returns (r: seq<T>)
    ensures r == Filter(s, p)
  {
    r := [];
    var i := 0;
    while i < |s|
      invariant 0 <= i <= |s|
      invariant r == Filter(s[..i], p)
    {
      FilterAppend(s[..i], [s[i]], p);
      assert s[..i + 1] == s[..i] + [s[i]];
      if p(s[i]) {
        r := r + [s[i]];
      }
      i := i + 1;
    }
    assert s[..i] == s;
  }

  /** Filtering distributes over concatenation. */
  lemma {:induction false} FilterAppend<T>(a: seq<T>, b: seq<T>, p: T -> bool)
    ensures Filter(a + b, p) == Filter(a, p) + Filter(b, p)
  {
    if a == [] {
      assert a + b == b;
    } else {
      assert (a + b)[1..] == a[1..] + b;
      FilterAppend(a[1..], b, p);
    }
  }

  /** Each occurrence of an element is kept, or dropped, together with all
      the others: no element is duplicated and none appears from nowhere. */
  lemma {:induction false} FilterMultiset<T>(s: seq<T>, p: T -> bool, x: T)
    ensures multiset(Filter(s, p))[x] == if p(x) then multiset(s)[x] else 0
  {
    if s != [] {
      FilterMultiset(s[1..], p, x);
      assert s == [s[0]] + s[1..];
    }
  }

  /** `idx` lists, in increasing order, the positions of `s` that make up `r`. */
  ghost predicate Embedding<T>(idx: seq<nat>, r: seq<T>, s: seq<T>)
  {
    && |idx| == |r|
    && (forall j :: 0 <= j < |idx| ==> idx[j] < |s| && r[j] == s[idx[j]])
    && (forall j, k :: 0 <= j < k < |idx| ==> idx[j] < idx[k])
  }

  /** `r` is `s` with some elements deleted and the rest in their order. */
  ghost predicate IsSubsequence<T>(r: seq<T>, s: seq<T>)
  {
    exists idx :: Embedding(idx, r, s)
  }

  /** The positions of the elements `Filter` keeps. */
  ghost function FilterPositions<T>(s: seq<T>, p: T -> bool): (idx: seq<nat>)
    ensures Embedding(idx, Filter(s, p), s)
  {
    if s == [] then []
    else
      var rest := FilterPositions(s[1..], p);
      var shifted := Shifted(rest);
      ShiftedEmbedding(rest, Filter(s[1..], p), s);
      if p(s[0]) then [0] + shifted else shifted
  }

  /** Every position moved one place to the right. */
  ghost function Shifted(idx: seq<nat>): (r: seq<nat>)
    ensures |r| == |idx| && forall j :: 0 <= j < |idx| ==> r[j] == idx[j] + 1
  {
    seq(|idx|, j requires 0 <= j < |idx| => idx[j] + 1)
  }

  /** An embedding into the tail of `s`, shifted, embeds into `s`; a kept
      head element can be put in front of it. */
  lemma ShiftedEmbedding<T>(idx: seq<nat>, r: seq<T>, s: seq<T>)
    requires s != [] && Embedding(idx, r, s[1..])
    ensures Embedding(Shifted(idx), r, s)
    ensures Embedding([0] + Shifted(idx), [s[0]] + r, s)
  {
    var sh := Shifted(idx);
    forall j | 0 <= j < |sh| ensures sh[j] < |s| && r[j] == s[sh[j]] {
      assert s[1..][idx[j]] == s[idx[j] + 1];
    }
  }

  /** The result of a filter is an order-preserving subsequence of its input. */
  lemma FilterIsSubsequence<T>(s: seq<T>, p: T -> bool)
    ensures IsSubsequence(Filter(s, p), s)
  {
    var idx := FilterPositions(s, p);
    assert Embedding(idx, Filter(s, p), s);
  }

  /** A filter that every element passes changes nothing. */
  lemma {:induction false} FilterAllPass<T>(s: seq<T>, p: T -> bool)
    requires forall i :: 0 <= i < |s| ==> p(s[i])
    ensures Filter(s, p) == s
  {
    if s != [] {
      FilterAllPass(s[1..], p);
    }
  }

  /** The filter depends only on the predicate's values on `s`. */
  lemma {:induction false} FilterSamePredicate<T>(s: seq<T>, p: T -> bool, q: T -> bool)
    requires forall i :: 0 <= i < |s| ==> p(s[i]) == q(s[i])
    ensures Filter(s, p) == Filter(s, q)
  {
    if s != [] {
      FilterSamePredicate(s[1..], p, q);
    }
  }

  /** Two filter passes in a row are one pass with the conjunction. */
  lemma {:induction false} FilterFilter<T>(s: seq<T>, p: T -> bool, q: T -> bool, pq: T -> bool)
    requires forall i :: 0 <= i < |s| ==> pq(s[i]) == (p(s[i]) && q(s[i]))
    ensures Filter(Filter(s, p), q) == Filter(s, pq)
  {
    if s != [] {
      FilterFilter(s[1..], p, q, pq);
    }
  }

  /** One guarded filter stage: applying `keep` when `on` (and nothing
      otherwise) to the result of filtering by `prev` is filtering by `next`,
      the conjunction of `prev` with the guarded stage. */
  lemma GuardedStage<T>(s: seq<T>, prev: T -> bool, keep: T -> bool, on: bool, next: T -> bool,
                        before: seq<T>, after: seq<T>)
    requires before == Filter(s, prev)
    requires after == if on then Filter(before, keep) else before
    requires forall i :: 0 <= i < |s| ==> next(s[i]) == (prev(s[i]) && (on ==> keep(s[i])))
    ensures after == Filter(s, next)
  {
    if on {
      FilterFilter(s, prev, keep, next);
    } else {
      FilterSamePredicate(s, prev, next);
    }
  }

  /** The order of two filter passes does not matter. */
  lemma FilterCommute<T>(s: seq<T>, p: T -> bool, q: T -> bool)
    ensures Filter(Filter(s, p), q) == Filter(Filter(s, q), p)
  {
    var pq := x => p(x) && q(x);
    FilterFilter(s, p, q, pq);
    FilterFilter(s, q, p, pq);
  }

  /** Filtering by a stronger predicate keeps a subsequence of what the
      weaker one keeps, so never more elements. */
  lemma FilterStronger<T>(s: seq<T>, strong: T -> bool, weak: T -> bool)
    requires forall i :: 0 <= i < |s| ==> strong(s[i]) ==> weak(s[i])
    ensures Filter(s, strong) == Filter(Filter(s, weak), strong)
    ensures IsSubsequence(Filter(s, strong), Filter(s, weak))
    ensures |Filter(s, strong)| <= |Filter(s, weak)|
  {
    FilterFilter(s, weak, strong, strong);
    FilterIsSubsequence(Filter(s, weak), strong);
  }
}
