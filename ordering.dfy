/**
 * Orders used by the queries: SQLite's BINARY collation on text (the order in
 * which `week_start_date >= ?` and `ORDER BY week_start_date` compare the
 * stored `yyyy-MM-dd` strings), sorting distinct keys ascending, and sorting
 * result rows by a numeric column.
 */
module Ordering {

  /** Code-point lexicographic order on strings (`a <= b` under the BINARY collation). */
  predicate StrLe(a: string, b: string)
    decreases |a|
  {
    if a == [] then true
    else if b == [] then false
    else if a[0] != b[0] then a[0] < b[0]
    else StrLe(a[1..], b[1..])
  }

  predicate StrLt(a: string, b: string)
  {
    StrLe(a, b) && a != b
  }

  lemma {:induction false} StrLeReflexive(a: string)
    ensures StrLe(a, a)
    decreases |a|
  {
    if a != [] {
      StrLeReflexive(a[1..]);
    }
  }

  lemma {:induction false} StrLeAntisymmetric(a: string, b: string)
    requires StrLe(a, b) && StrLe(b, a)
    ensures a == b
    decreases |a|
  {
    if a != [] && b != [] {
      StrLeAntisymmetric(a[1..], b[1..]);
      assert a == [a[0]] + a[1..];
      assert b == [b[0]] + b[1..];
    }
  }

  lemma {:induction false} StrLeTransitive(a: string, b: string, c: string)
    requires StrLe(a, b) && StrLe(b, c)
    ensures StrLe(a, c)
    decreases |a|
  {
    if a != [] && b != [] && c != [] && a[0] == b[0] && b[0] == c[0] {
      StrLeTransitive(a[1..], b[1..], c[1..]);
    }
  }

  lemma {:induction false} StrLeTotal(a: string, b: string)
    ensures StrLe(a, b) || StrLe(b, a)
    decreases |a|
  {
    if a != [] && b != [] && a[0] == b[0] {
      StrLeTotal(a[1..], b[1..]);
    }
  }

  /** Exactly one of `a < b`, `a == b`, `b < a`. */
  lemma StrTrichotomy(a: string, b: string)
    ensures StrLt(a, b) || a == b || StrLt(b, a)
    ensures !(StrLt(a, b) && StrLt(b, a))
  {
    StrLeTotal(a, b);
    if StrLe(a, b) && StrLe(b, a) {
      StrLeAntisymmetric(a, b);
    }
  }

  lemma StrLtTransitive(a: string, b: string, c: string)
    requires StrLt(a, b) && StrLt(b, c)
    ensures StrLt(a, c)
  {
    StrLeTransitive(a, b, c);
    if a == c {
      StrLeAntisymmetric(a, b);
    }
  }

  /** Strictly ascending, hence free of duplicates. */
  predicate StrictlyAscending(s: seq<string>)
  {
    forall i, j :: 0 <= i < j < |s| ==> StrLt(s[i], s[j])
  }

  /** Everything after the head of an ascending sequence is above the head, and above anything below the head. */
  lemma BelowHead(x: string, s: seq<string>)
    requires StrictlyAscending(s) && s != [] && StrLt(x, s[0])
    ensures forall j :: 0 <= j < |s| ==> StrLt(x, s[j])
  {
    forall j | 0 < j < |s| ensures StrLt(x, s[j]) {
      StrLtTransitive(x, s[0], s[j]);
    }
  }

  /** Adds `x` to an ascending sequence of distinct keys, keeping it ascending and duplicate-free. */
  function InsertKey(x: string, s: seq<string>): (r: seq<string>)
    requires StrictlyAscending(s)
    ensures StrictlyAscending(r)
    ensures forall y :: y in r <==> y == x || y in s
    ensures |r| <= |s| + 1
  {
    if s == [] then [x]
    else if x == s[0] then s
    else if StrLt(x, s[0]) then
      BelowHead(x, s);
      [x] + s
    else
      StrTrichotomy(x, s[0]);
      var rest := InsertKey(x, s[1..]);
      assert forall y :: y in rest ==> StrLt(s[0], y);
      [s[0]] + rest
  }

  /** The distinct values of `xs`, ascending: what `GROUP BY k ORDER BY k` (or `SELECT DISTINCT k ORDER BY k`) enumerates. */
  function SortDistinct(xs: seq<string>): (r: seq<string>)
    ensures StrictlyAscending(r)
    ensures forall y :: y in r <==> y in xs
    ensures |r| <= |xs|
  {
    if xs == [] then [] else InsertKey(xs[|xs| - 1], SortDistinct(xs[..|xs| - 1]))
  }

  /** Two ascending duplicate-free sequences with the same elements are the same sequence. */
  lemma {:induction false} AscendingUnique(s: seq<string>, t: seq<string>)
    requires StrictlyAscending(s) && StrictlyAscending(t)
    requires forall y :: y in s <==> y in t
    ensures s == t
    decreases |s|
  {
    if s != [] {
      assert s[0] in s;
    }
    if t != [] {
      assert t[0] in t;
    }
    if s != [] && t != [] {
      assert t[0] in s;
      assert s[0] in t;
      if s[0] != t[0] {
        var i :| 0 <= i < |s| && s[i] == t[0];
        var j :| 0 <= j < |t| && t[j] == s[0];
        assert StrLt(s[0], t[0]);
        assert StrLt(t[0], s[0]);
        StrTrichotomy(s[0], t[0]);
      }
      forall y ensures y in s[1..] <==> y in t[1..] {
        if y in s[1..] {
          var m :| 0 <= m < |s[1..]| && s[1..][m] == y;
          assert StrLt(s[0], s[m + 1]);
          assert y in s;
          assert y in t;
          var k :| 0 <= k < |t| && t[k] == y;
          assert k != 0;
          assert t[1..][k - 1] == y;
        }
        if y in t[1..] {
          var m :| 0 <= m < |t[1..]| && t[1..][m] == y;
          assert StrLt(t[0], t[m + 1]);
          assert y in t;
          assert y in s;
          var k :| 0 <= k < |s| && s[k] == y;
          assert k != 0;
          assert s[1..][k - 1] == y;
        }
      }
      AscendingUnique(s[1..], t[1..]);
    }
  }

  /** `le` is a total preorder: any two values compare, and comparison chains. */
  ghost predicate TotalPreorder<T(!new)>(le: (T, T) -> bool)
  {
    (forall a, b :: le(a, b) || le(b, a)) &&
    (forall a, b, c :: le(a, b) && le(b, c) ==> le(a, c))
  }

  /** Every earlier row comes before every later row under `le`. */
  predicate Sorted<T>(s: seq<T>, le: (T, T) -> bool)
  {
    forall i, j :: 0 <= i < j < |s| ==> le(s[i], s[j])
  }

  /** `LIMIT n`: the first `n` rows, or all of them when `n` is negative. */
  function Limit<T>(xs: seq<T>, n: int): (r: seq<T>)
    ensures |r| <= |xs| && r == xs[..|r|]
    ensures n < 0 ==> r == xs
    ensures n >= 0 ==> |r| == if n < |xs| then n else |xs|
  {
    if n < 0 || n >= |xs| then xs else xs[..n]
  }

  /** The first rows of a sorted sequence are sorted, and each of them comes before every row cut off. */
  lemma LimitOfSorted<T>(xs: seq<T>, n: int, le: (T, T) -> bool)
    requires Sorted(xs, le)
    ensures Sorted(Limit(xs, n), le)
    ensures forall x :: x in Limit(xs, n) ==> x in xs
    ensures forall p, q :: p in xs && p !in Limit(xs, n) && q in Limit(xs, n) ==> le(q, p)
  {
    var top := Limit(xs, n);
    assert forall k :: 0 <= k < |top| ==> top[k] == xs[k];
    forall p, q | p in xs && p !in top && q in top ensures le(q, p) {
      var i :| 0 <= i < |xs| && xs[i] == p;
      var j :| 0 <= j < |top| && top[j] == q;
      assert |top| <= i;
    }
  }

  /** Adds `x` to a sorted sequence at the first place it fits. */
  function InsertBy<T(!new)>(x: T, s: seq<T>, le: (T, T) -> bool): (r: seq<T>)
    requires TotalPreorder(le) && Sorted(s, le)
    ensures Sorted(r, le)
    ensures multiset(r) == multiset(s) + multiset{x}
  {
    if s == [] || le(x, s[0]) then
      HeadFirst(x, s, le);
      [x] + s
    else
      var rest := InsertBy(x, s[1..], le);
      assert s == [s[0]] + s[1..];
      forall y | y in rest ensures le(s[0], y) {
        assert y in multiset(rest);
        if y != x {
          HeadBoundsTail(s, le);
        }
      }
      ConsSorted(s[0], rest, le);
      [s[0]] + rest
  }

  lemma HeadBoundsTail<T>(s: seq<T>, le: (T, T) -> bool)
    requires Sorted(s, le) && s != []
    ensures forall y :: y in s[1..] ==> le(s[0], y)
  {
    forall y | y in s[1..] ensures le(s[0], y) {
      var m :| 0 <= m < |s[1..]| && s[1..][m] == y;
      assert s[m + 1] == y;
    }
  }

  /** A row that comes before every row of a sorted sequence can go in front of it. */
  lemma ConsSorted<T>(h: T, t: seq<T>, le: (T, T) -> bool)
    requires Sorted(t, le)
    requires forall y :: y in t ==> le(h, y)
    ensures Sorted([h] + t, le)
  {
    var r := [h] + t;
    forall i, j | 0 <= i < j < |r| ensures le(r[i], r[j]) {
      assert r[j] == t[j - 1];
      if i > 0 {
        assert r[i] == t[i - 1];
      } else {
        assert t[j - 1] in t;
      }
    }
  }

  lemma HeadFirst<T(!new)>(x: T, s: seq<T>, le: (T, T) -> bool)
    requires TotalPreorder(le) && Sorted(s, le)
    requires s == [] || le(x, s[0])
    ensures Sorted([x] + s, le)
  {
    forall y | y in s ensures le(x, y) {
      var m :| 0 <= m < |s| && s[m] == y;
      if m > 0 {
        assert le(s[0], s[m]);
      }
    }
    ConsSorted(x, s, le);
  }

  /** `xs` reordered so that it is sorted under `le`; rows that compare both ways keep no particular order, as in SQL. */
  function SortBy<T(!new)>(xs: seq<T>, le: (T, T) -> bool): (r: seq<T>)
    requires TotalPreorder(le)
    ensures Sorted(r, le)
    ensures multiset(r) == multiset(xs)
  {
    if xs == [] then []
    else
      assert xs == xs[..|xs| - 1] + [xs[|xs| - 1]];
      InsertBy(xs[|xs| - 1], SortBy(xs[..|xs| - 1], le), le)
  }

  /** `ORDER BY key DESC` as a comparison. */
  function ByKeyDesc<T>(key: T -> real): (T, T) -> bool
  {
    (a: T, b: T) => key(a) >= key(b)
  }

  lemma ByKeyDescTotal<T(!new)>(key: T -> real)
    ensures TotalPreorder(ByKeyDesc(key))
  {
  }

  /** Rows in non-increasing order of `key`. */
  predicate Descending<T>(s: seq<T>, key: T -> real)
  {
    forall i, j :: 0 <= i < j < |s| ==> key(s[i]) >= key(s[j])
  }

  /** `xs` reordered by non-increasing `key` (`ORDER BY key DESC`). */
  function SortDescending<T(!new)>(xs: seq<T>, key: T -> real): (r: seq<T>)
    ensures Descending(r, key)
    ensures multiset(r) == multiset(xs)
  {
    ByKeyDescTotal(key);
    var r := SortBy(xs, ByKeyDesc(key));
    assert forall i, j :: 0 <= i < j < |r| ==> ByKeyDesc(key)(r[i], r[j]);
    r
  }

  /** A value is in a reordering exactly when it is in the original. */
  lemma MultisetMember<T>(a: seq<T>, b: seq<T>, x: T)
    requires multiset(a) == multiset(b)
    ensures x in a <==> x in b
  {
    assert x in a <==> x in multiset(a);
    assert x in b <==> x in multiset(b);
  }
}
