/**
 * The two shapes of nested scanning loop the extraction uses, over an index
 * range: collecting the values a per-index step produces (a step may produce
 * nothing), and concatenating the sequences a per-index step produces. Both
 * keep index order.
 */
module Collect {
  import opened Wrappers

  function OptionToSeq<T>(o: Option<T>): (s: seq<T>)
    ensures |s| <= 1
  {
    if o.Some? then [o.value] else []
  }

  /** The values `f` yields at `lo`, `lo + 1`, ..., `hi - 1`, in that order, skipping the indices that yield nothing. */
  function Present<T>(lo: nat, hi: nat, f: nat -> Option<T>): seq<T>
    decreases hi
  {
    if hi <= lo then [] else Present(lo, hi - 1, f) + OptionToSeq(f(hi - 1))
  }

  /** A value is collected exactly when some index in the range yields it. */
  lemma {:induction false} PresentMember<T>(lo: nat, hi: nat, f: nat -> Option<T>, x: T)
    ensures x in Present(lo, hi, f) <==> exists i :: lo <= i < hi && f(i) == Some(x)
    decreases hi
  {
    if hi > lo {
      PresentMember(lo, hi - 1, f, x);
      if f(hi - 1) == Some(x) {
        assert x in OptionToSeq(f(hi - 1));
      }
    }
  }

  /** Collecting over a range is collecting over its two halves, the lower half first. */
  lemma {:induction false} PresentSplit<T>(lo: nat, mid: nat, hi: nat, f: nat -> Option<T>)
    requires lo <= mid <= hi
    ensures Present(lo, hi, f) == Present(lo, mid, f) + Present(mid, hi, f)
    decreases hi
  {
    if hi > mid {
      PresentSplit(lo, mid, hi - 1, f);
    }
  }

  /** What index `i` yields sits between what the indices below and above it yield. */
  lemma PresentAround<T>(lo: nat, i: nat, hi: nat, f: nat -> Option<T>)
    requires lo <= i < hi
    ensures Present(lo, hi, f) == Present(lo, i, f) + OptionToSeq(f(i)) + Present(i + 1, hi, f)
  {
    var below, here, above := Present(lo, i, f), OptionToSeq(f(i)), Present(i + 1, hi, f);
    PresentSplit(lo, i, hi, f);
    PresentSplit(i, i + 1, hi, f);
    assert Present(i, i + 1, f) == here;
    AppendAssociative(below, here, above);
  }

  /** At most one value per index. */
  lemma {:induction false} PresentLength<T>(lo: nat, hi: nat, f: nat -> Option<T>)
    requires lo <= hi
    ensures |Present(lo, hi, f)| <= hi - lo
    decreases hi
  {
    if hi > lo {
      PresentLength(lo, hi - 1, f);
    }
  }

  /** The sequences `f` yields at `lo`, ..., `hi - 1`, joined in that order. */
  function Concat<T>(lo: nat, hi: nat, f: nat -> seq<T>): seq<T>
    decreases hi
  {
    if hi <= lo then [] else Concat(lo, hi - 1, f) + f(hi - 1)
  }

  /** A value is in the join exactly when some index in the range yields it. */
  lemma {:induction false} ConcatMember<T>(lo: nat, hi: nat, f: nat -> seq<T>, x: T)
    ensures x in Concat(lo, hi, f) <==> exists i :: lo <= i < hi && x in f(i)
    decreases hi
  {
    if hi > lo {
      ConcatMember(lo, hi - 1, f, x);
    }
  }

  /** What index `i` yields sits between what the indices below and above it yield. */
  lemma ConcatAround<T>(lo: nat, i: nat, hi: nat, f: nat -> seq<T>)
    requires lo <= i < hi
    ensures Concat(lo, hi, f) == Concat(lo, i, f) + f(i) + Concat(i + 1, hi, f)
  {
    var below, here, above := Concat(lo, i, f), f(i), Concat(i + 1, hi, f);
    ConcatSplit(lo, i, hi, f);
    ConcatSplit(i, i + 1, hi, f);
    assert Concat(i, i + 1, f) == here;
    AppendAssociative(below, here, above);
  }

  /** Joining over a range is joining over its two halves, the lower half first. */
  lemma {:induction false} ConcatSplit<T>(lo: nat, mid: nat, hi: nat, f: nat -> seq<T>)
    requires lo <= mid <= hi
    ensures Concat(lo, hi, f) == Concat(lo, mid, f) + Concat(mid, hi, f)
    decreases hi
  {
    if hi > mid {
      ConcatSplit(lo, mid, hi - 1, f);
    }
  }

  lemma AppendAssociative<T>(a: seq<T>, b: seq<T>, c: seq<T>)
    ensures a + (b + c) == (a + b) + c
  {
  }

  /**
   * `f` applied to each element in turn, built one element at a time. Unlike
   * a column it states nothing about every position at once, so a proof
   * meets the value at a position only when it asks for it (`MappedAt`).
   */
  function Mapped<A, B>(xs: seq<A>, f: A -> B): (ys: seq<B>)
    ensures |ys| == |xs|
  {
    if xs == [] then [] else Mapped(xs[..|xs| - 1], f) + [f(xs[|xs| - 1])]
  }

  lemma {:induction false} MappedAt<A, B>(xs: seq<A>, f: A -> B, i: nat)
    requires i < |xs|
    ensures Mapped(xs, f)[i] == f(xs[i])
  {
    var n := |xs| - 1;
    if i < n {
      MappedAt(xs[..n], f, i);
      assert xs[..n][i] == xs[i];
    }
  }
}
