/**
 * The relational pieces the analytics queries are built from, stated over
 * sequences of rows: `WHERE` (selection keeping row order), the distinct
 * values of a column, `GROUP BY` on a key with `SUM(hours)` per group, and
 * the fact that the group sums of a grouping add up to the total.
 */
module Query {
  import opened Records

  /** `WHERE p`: the rows satisfying `p`, in their original order. */
  function Select<T>(xs: seq<T>, p: T -> bool): (r: seq<T>)
    ensures |r| <= |xs|
  {
    if xs == [] then []
    else Select(xs[..|xs| - 1], p) + (if p(xs[|xs| - 1]) then [xs[|xs| - 1]] else [])
  }

  /** A row is selected exactly when it is one of the rows and satisfies the condition. */
  lemma {:induction false} SelectMember<T>(xs: seq<T>, p: T -> bool, x: T)
    ensures x in Select(xs, p) <==> x in xs && p(x)
  {
    if xs != [] {
      var init := xs[..|xs| - 1];
      SelectMember(init, p, x);
      assert xs == init + [xs[|xs| - 1]];
    }
  }

  /** Every selected row satisfies the condition. */
  lemma SelectSatisfies<T>(xs: seq<T>, p: T -> bool)
    ensures forall x :: x in Select(xs, p) ==> p(x)
  {
    forall x | x in Select(xs, p) ensures p(x) {
      SelectMember(xs, p, x);
    }
  }

  /** `SelectMember` for every value at once. */
  lemma SelectMembers<T>(xs: seq<T>, p: T -> bool)
    ensures forall x :: x in Select(xs, p) <==> x in xs && p(x)
  {
    forall x ensures x in Select(xs, p) <==> x in xs && p(x) {
      SelectMember(xs, p, x);
    }
  }

  /** Selecting with a condition every row meets keeps every row. */
  lemma {:induction false} SelectAll<T>(xs: seq<T>, p: T -> bool)
    requires forall x :: x in xs ==> p(x)
    ensures Select(xs, p) == xs
  {
    if xs != [] {
      SelectAll(xs[..|xs| - 1], p);
      assert xs == xs[..|xs| - 1] + [xs[|xs| - 1]];
    }
  }

  /** Selection distributes over concatenation. */
  lemma {:induction false} SelectAppend<T>(a: seq<T>, b: seq<T>, p: T -> bool)
    ensures Select(a + b, p) == Select(a, p) + Select(b, p)
    decreases |b|
  {
    if b == [] {
      assert a + b == a;
    } else {
      var last := b[|b| - 1];
      assert (a + b)[..|a + b| - 1] == a + b[..|b| - 1];
      SelectAppend(a, b[..|b| - 1], p);
    }
  }

  /** The negation of a row condition. */
  function Not<T>(p: T -> bool): T -> bool
  {
    x => !p(x)
  }

  /** The `hours` of the rows satisfying `p` and of those that do not add up to the total. */
  lemma {:induction false} SumHoursPartition(rs: seq<HourRecord>, p: HourRecord -> bool)
    ensures SumHours(Select(rs, p)) + SumHours(Select(rs, Not(p))) == SumHours(rs)
  {
    if rs != [] {
      var init, last := rs[..|rs| - 1], rs[|rs| - 1];
      SumHoursPartition(init, p);
      if p(last) {
        assert Select(rs, p) == Select(init, p) + [last];
        assert Select(rs, Not(p)) == Select(init, Not(p));
        SumHoursAppend(Select(init, p), [last]);
      } else {
        assert Select(rs, p) == Select(init, p);
        assert Select(rs, Not(p)) == Select(init, Not(p)) + [last];
        SumHoursAppend(Select(init, Not(p)), [last]);
      }
    }
  }

  /** No value occurs twice. */
  predicate NoDuplicates<T(==)>(s: seq<T>)
  {
    forall i, j :: 0 <= i < j < |s| ==> s[i] != s[j]
  }

  /** The distinct values of `xs` in order of first appearance. */
  function Distinct<T(==,!new)>(xs: seq<T>): (r: seq<T>)
    ensures NoDuplicates(r)
    ensures forall x :: x in r <==> x in xs
    ensures |r| <= |xs|
  {
    if xs == [] then []
    else
      var d := Distinct(xs[..|xs| - 1]);
      assert forall x :: x in xs <==> x in xs[..|xs| - 1] || x == xs[|xs| - 1] by {
        assert xs == xs[..|xs| - 1] + [xs[|xs| - 1]];
      }
      if xs[|xs| - 1] in d then d else d + [xs[|xs| - 1]]
  }

  /** Selecting from a duplicate-free sequence leaves it duplicate-free. */
  lemma {:induction false} SelectNoDuplicates<T>(xs: seq<T>, p: T -> bool)
    requires NoDuplicates(xs)
    ensures NoDuplicates(Select(xs, p))
  {
    if xs != [] {
      var init, last := xs[..|xs| - 1], xs[|xs| - 1];
      SelectNoDuplicates(init, p);
      SelectMember(init, p, last);
      assert last !in init by {
        assert forall i :: 0 <= i < |init| ==> init[i] == xs[i];
      }
    }
  }

  /** A duplicate-free sequence has as many elements as the set of its elements. */
  lemma {:induction false} NoDuplicatesCard<T>(xs: seq<T>)
    requires NoDuplicates(xs)
    ensures |set x | x in xs| == |xs|
  {
    if xs != [] {
      var init, last := xs[..|xs| - 1], xs[|xs| - 1];
      NoDuplicatesCard(init);
      assert last !in init by {
        assert forall i :: 0 <= i < |init| ==> init[i] == xs[i];
      }
      assert (set x | x in xs) == (set x | x in init) + {last} by {
        assert xs == init + [last];
      }
    }
  }

  /** No two rows share a key. */
  predicate DistinctKeys<R, K(==)>(s: seq<R>, keyOf: R -> K)
  {
    forall i, j :: 0 <= i < j < |s| ==> keyOf(s[i]) != keyOf(s[j])
  }

  /** Selecting rows keeps their keys distinct. */
  lemma {:induction false} SelectDistinctKeys<R, K>(xs: seq<R>, p: R -> bool, keyOf: R -> K)
    requires DistinctKeys(xs, keyOf)
    ensures DistinctKeys(Select(xs, p), keyOf)
  {
    if xs != [] {
      var init, last := xs[..|xs| - 1], xs[|xs| - 1];
      assert DistinctKeys(init, keyOf) by {
        assert forall i :: 0 <= i < |init| ==> init[i] == xs[i];
      }
      SelectDistinctKeys(init, p, keyOf);
      var s := Select(init, p);
      forall y | y in s ensures keyOf(y) != keyOf(last) {
        SelectMember(init, p, y);
        var i :| 0 <= i < |init| && init[i] == y;
        assert xs[i] == y;
      }
    }
  }

  /** A reordering of a duplicate-free sequence is duplicate-free. */
  lemma PermutationNoDuplicates<T>(a: seq<T>, b: seq<T>)
    requires NoDuplicates(a) && multiset(a) == multiset(b)
    ensures NoDuplicates(b)
  {
    forall i, j | 0 <= i < j < |b| ensures b[i] != b[j] {
      if b[i] == b[j] {
        var x := b[i];
        assert multiset(b[..j])[x] >= 1 by {
          assert b[..j][i] == x;
        }
        assert b == b[..j] + [b[j]] + b[j + 1..];
        assert multiset(b)[x] >= 2;
        CountOnce(a, x);
      }
    }
  }

  /** A value occurs at most once in a duplicate-free sequence. */
  lemma {:induction false} CountOnce<T>(a: seq<T>, x: T)
    requires NoDuplicates(a)
    ensures multiset(a)[x] <= 1
  {
    if a != [] {
      var init := a[..|a| - 1];
      assert a == init + [a[|a| - 1]];
      CountOnce(init, x);
      if a[|a| - 1] == x {
        assert x !in init;
      }
    }
  }

  /** A reordering of rows with distinct keys has distinct keys. */
  lemma PermutationDistinctKeys<R, K>(a: seq<R>, b: seq<R>, keyOf: R -> K)
    requires DistinctKeys(a, keyOf) && multiset(a) == multiset(b)
    ensures DistinctKeys(b, keyOf)
  {
    PermutationNoDuplicates(a, b);
    forall i, j | 0 <= i < j < |b| ensures keyOf(b[i]) != keyOf(b[j]) {
      assert b[i] in multiset(a) && b[j] in multiset(a);
      var p :| 0 <= p < |a| && a[p] == b[i];
      var q :| 0 <= q < |a| && a[q] == b[j];
      assert p != q;
    }
  }

  /** The value of one column for every row, in row order. */
  function Column<T, K>(xs: seq<T>, key: T -> K): (r: seq<K>)
    ensures |r| == |xs|
    ensures forall i :: 0 <= i < |xs| ==> r[i] == key(xs[i])
  {
    seq(|xs|, i requires 0 <= i < |xs| => key(xs[i]))
  }

  /** A value occurs in a column exactly when some row carries it. */
  lemma ColumnMember<T, K>(xs: seq<T>, key: T -> K, k: K)
    ensures k in Column(xs, key) <==> exists x :: x in xs && key(x) == k
  {
    var c := Column(xs, key);
    if k in c {
      var i :| 0 <= i < |c| && c[i] == k;
      assert xs[i] in xs;
    }
    if exists x :: x in xs && key(x) == k {
      var x :| x in xs && key(x) == k;
      var i :| 0 <= i < |xs| && xs[i] == x;
      assert c[i] == k;
    }
  }

  /** A row built from a key that it carries is in the rows built from some keys exactly when its key is one of them. */
  lemma KeyedMember<K, R>(ks: seq<K>, f: K -> R, keyOf: R -> K, x: R)
    requires forall k :: keyOf(f(k)) == k
    ensures x in Column(ks, f) <==> keyOf(x) in ks && x == f(keyOf(x))
  {
    ColumnMember(ks, f, x);
  }

  /** The keys of `GROUP BY key`: one per distinct key value that some row carries. */
  function Keys<T(!new), K(==,!new)>(xs: seq<T>, key: T -> K): (ks: seq<K>)
    ensures NoDuplicates(ks)
    ensures forall k :: k in ks <==> exists x :: x in xs && key(x) == k
  {
    var c := Column(xs, key);
    forall k ensures k in c <==> exists x :: x in xs && key(x) == k {
      ColumnMember(xs, key, k);
    }
    Distinct(c)
  }

  /** The rows of one group of `GROUP BY key`. */
  function Group<K(==)>(rs: seq<HourRecord>, key: HourRecord -> K, k: K): seq<HourRecord>
  {
    Select(rs, r => key(r) == k)
  }

  /** With positive hours, a group's sum lies between 0 and the sum of all the rows. */
  lemma {:induction false} GroupSumBetween<K>(rs: seq<HourRecord>, key: HourRecord -> K, k: K)
    requires forall i :: 0 <= i < |rs| ==> rs[i].hours > 0.0
    ensures 0.0 <= SumHours(Group(rs, key, k)) <= SumHours(rs)
  {
    if rs != [] {
      var init, last := rs[..|rs| - 1], rs[|rs| - 1];
      GroupSumBetween(init, key, k);
      assert rs == init + [last];
      SumHoursAppend(init, [last]);
      if key(last) == k {
        assert Group(rs, key, k) == Group(init, key, k) + [last];
        SumHoursAppend(Group(init, key, k), [last]);
      } else {
        assert Group(rs, key, k) == Group(init, key, k);
      }
    }
  }

  /** A row is in a group exactly when it is one of the rows and carries the group's key. */
  lemma GroupMember<K>(rs: seq<HourRecord>, key: HourRecord -> K, k: K, r: HourRecord)
    ensures r in Group(rs, key, k) <==> r in rs && key(r) == k
  {
    SelectMember(rs, x => key(x) == k, r);
  }

  /** Grouping distributes over concatenation. */
  lemma {:induction false} GroupAppend<K>(a: seq<HourRecord>, b: seq<HourRecord>, key: HourRecord -> K, k: K)
    ensures Group(a + b, key, k) == Group(a, key, k) + Group(b, key, k)
  {
    SelectAppend(a, b, r => key(r) == k);
  }

  /** One more row adds its hours to its own group's sum and to no other. */
  lemma {:induction false} GroupSnocSum<K>(rs: seq<HourRecord>, x: HourRecord, key: HourRecord -> K, k: K)
    ensures SumHours(Group(rs + [x], key, k)) == SumHours(Group(rs, key, k)) + (if key(x) == k then x.hours else 0.0)
  {
    GroupAppend(rs, [x], key, k);
    assert Group([x], key, k) == if key(x) == k then [x] else [];
    SumHoursAppend(Group(rs, key, k), Group([x], key, k));
  }

  /** `n` copies of one row. */
  function Copies(r: HourRecord, n: nat): (c: seq<HourRecord>)
    ensures |c| == n && forall x :: x in c ==> x == r
  {
    if n == 0 then [] else Copies(r, n - 1) + [r]
  }

  /** Each row `count(r)` times, in row order: what an inner join makes of a row that matches `count(r)` rows of the other side. */
  function Repeated(rs: seq<HourRecord>, count: HourRecord -> nat): seq<HourRecord>
  {
    if rs == [] then []
    else Repeated(rs[..|rs| - 1], count) + Copies(rs[|rs| - 1], count(rs[|rs| - 1]))
  }

  /** `x` added up `n` times. */
  function Times(x: real, n: nat): real
  {
    if n == 0 then 0.0 else Times(x, n - 1) + x
  }

  lemma {:induction false} TimesIsProduct(x: real, n: nat)
    ensures Times(x, n) == x * n as real
  {
    if n > 0 {
      TimesIsProduct(x, n - 1);
      assert x * (n - 1) as real + x == x * n as real;
    }
  }

  lemma TimesTwo(x: real)
    ensures Times(x, 2) == x + x
  {
    assert Times(x, 1) == x;
  }

  lemma {:induction false} TimesDistributes(x: real, y: real, n: nat)
    ensures Times(x + y, n) == Times(x, n) + Times(y, n)
  {
    if n > 0 {
      TimesDistributes(x, y, n - 1);
    }
  }

  lemma {:induction false} CopiesSum(r: HourRecord, n: nat)
    ensures SumHours(Copies(r, n)) == Times(r.hours, n)
  {
    if n > 0 {
      CopiesSum(r, n - 1);
      var c := Copies(r, n);
      assert c[..|c| - 1] == Copies(r, n - 1);
    }
  }

  /** The copies of `r` in group `k`: all of them when `r` has that key, none otherwise. */
  lemma {:induction false} CopiesGroup<K>(r: HourRecord, n: nat, key: HourRecord -> K, k: K)
    ensures Group(Copies(r, n), key, k) == if key(r) == k then Copies(r, n) else []
  {
    if n > 0 {
      CopiesGroup(r, n - 1, key, k);
      GroupAppend(Copies(r, n - 1), [r], key, k);
      assert Group([r], key, k) == if key(r) == k then [r] else [];
    }
  }

  /** One more row adds the group's share of its copies. */
  lemma {:induction false} RepeatedStep<K>(rs: seq<HourRecord>, count: HourRecord -> nat, key: HourRecord -> K, k: K)
    requires rs != []
    ensures var init, last := rs[..|rs| - 1], rs[|rs| - 1];
            SumHours(Group(Repeated(rs, count), key, k)) ==
              SumHours(Group(Repeated(init, count), key, k)) + SumHours(Group(Copies(last, count(last)), key, k))
  {
    var init, last := rs[..|rs| - 1], rs[|rs| - 1];
    var a, b := Repeated(init, count), Copies(last, count(last));
    GroupAppend(a, b, key, k);
    SumHoursAppend(Group(a, key, k), Group(b, key, k));
  }

  /** The last row adds its hours to its own group's sum and to no other. */
  lemma GroupLastSum<K>(rs: seq<HourRecord>, key: HourRecord -> K, k: K)
    requires rs != []
    ensures var last := rs[|rs| - 1];
            SumHours(Group(rs, key, k)) == SumHours(Group(rs[..|rs| - 1], key, k)) + (if key(last) == k then last.hours else 0.0)
  {
    var init, last := rs[..|rs| - 1], rs[|rs| - 1];
    if key(last) == k {
      var g := Group(init, key, k) + [last];
      assert Group(rs, key, k) == g;
      assert g[..|g| - 1] == Group(init, key, k);
    } else {
      assert Group(rs, key, k) == Group(init, key, k);
    }
  }

  lemma TimesOfSum(a: real, s: real, h: real, c: nat)
    requires a == s + h
    ensures Times(a, c) == Times(s, c) + Times(h, c)
  {
    TimesDistributes(s, h, c);
  }

  /** When every row of group `k` is repeated `c` times, the group's sum is added up `c` times. */
  lemma {:induction false} RepeatedTimes<K>(rs: seq<HourRecord>, count: HourRecord -> nat, key: HourRecord -> K, k: K, c: nat)
    requires forall r :: key(r) == k ==> count(r) == c
    ensures SumHours(Group(Repeated(rs, count), key, k)) == Times(SumHours(Group(rs, key, k)), c)
  {
    if rs != [] {
      var init, last := rs[..|rs| - 1], rs[|rs| - 1];
      RepeatedTimes(init, count, key, k, c);
      RepeatedStep(rs, count, key, k);
      CopiesGroup(last, count(last), key, k);
      GroupLastSum(rs, key, k);
      if key(last) == k {
        CopiesSum(last, c);
        TimesOfSum(SumHours(Group(rs, key, k)), SumHours(Group(init, key, k)), last.hours, c);
      }
    } else {
      assert Times(0.0, c) == 0.0 by {
        TimesDistributes(0.0, 0.0, c);
      }
    }
  }

  /** `SUM(hours)` of every group, in key order. */
  function GroupSums<K(==)>(rs: seq<HourRecord>, key: HourRecord -> K, ks: seq<K>): (sums: seq<real>)
    ensures |sums| == |ks|
    ensures forall i :: 0 <= i < |ks| ==> sums[i] == SumHours(Group(rs, key, ks[i]))
  {
    Column(ks, k => SumHours(Group(rs, key, k)))
  }

  /** The sum of `SUM(hours)` over the groups with keys `ks`. */
  function SumGroups<K(==)>(rs: seq<HourRecord>, key: HourRecord -> K, ks: seq<K>): real
  {
    if ks == [] then 0.0 else SumGroups(rs, key, ks[..|ks| - 1]) + SumHours(Group(rs, key, ks[|ks| - 1]))
  }

  /** One more row adds its hours to the group sums exactly when its key is among the keys. */
  lemma {:induction false} SumGroupsSnoc<K>(rs: seq<HourRecord>, x: HourRecord, key: HourRecord -> K, ks: seq<K>)
    requires NoDuplicates(ks)
    ensures SumGroups(rs + [x], key, ks) == SumGroups(rs, key, ks) + (if key(x) in ks then x.hours else 0.0)
  {
    if ks != [] {
      var init, k := ks[..|ks| - 1], ks[|ks| - 1];
      assert NoDuplicates(init);
      SumGroupsSnoc(rs, x, key, init);
      GroupSnocSum(rs, x, key, k);
      assert key(x) in ks <==> key(x) in init || key(x) == k by {
        assert ks == init + [k];
      }
      assert k !in init;
    }
  }

  /**
   * Grouping loses and duplicates nothing: when every row's key is among
   * `ks` and no key repeats, the group sums add up to the total.
   */
  lemma {:induction false} SumGroupsTotal<K>(rs: seq<HourRecord>, key: HourRecord -> K, ks: seq<K>)
    requires NoDuplicates(ks)
    requires forall r :: r in rs ==> key(r) in ks
    ensures SumGroups(rs, key, ks) == SumHours(rs)
  {
    if rs == [] {
      SumGroupsEmpty(key, ks);
    } else {
      var init, last := rs[..|rs| - 1], rs[|rs| - 1];
      assert rs == init + [last];
      SumGroupsTotal(init, key, ks);
      SumGroupsSnoc(init, last, key, ks);
    }
  }

  /** The group sums of `GROUP BY key` add up to the total of all rows. */
  lemma SumGroupsOfKeys<K(!new)>(rs: seq<HourRecord>, key: HourRecord -> K)
    ensures SumGroups(rs, key, Keys(rs, key)) == SumHours(rs)
  {
    SumGroupsTotal(rs, key, Keys(rs, key));
  }

  /** Adding up the listed group sums gives `SumGroups`. */
  lemma {:induction false} SumOfGroupSums<K>(rs: seq<HourRecord>, key: HourRecord -> K, ks: seq<K>)
    ensures Sum(GroupSums(rs, key, ks)) == SumGroups(rs, key, ks)
  {
    if ks != [] {
      var init := ks[..|ks| - 1];
      assert GroupSums(rs, key, ks)[..|ks| - 1] == GroupSums(rs, key, init);
      SumOfGroupSums(rs, key, init);
    }
  }

  lemma {:induction false} SumGroupsEmpty<K>(key: HourRecord -> K, ks: seq<K>)
    ensures SumGroups([], key, ks) == 0.0
  {
    if ks != [] {
      SumGroupsEmpty(key, ks[..|ks| - 1]);
    }
  }

  /** The largest of a non-empty list of numbers (`MAX`). */
  function Max(xs: seq<real>): (m: real)
    requires xs != []
    ensures m in xs
    ensures forall i :: 0 <= i < |xs| ==> xs[i] <= m
  {
    if |xs| == 1 then xs[0]
    else
      var m := Max(xs[1..]);
      if xs[0] > m then xs[0] else m
  }

  /** The smallest of a non-empty list of numbers (`MIN`). */
  function Min(xs: seq<real>): (m: real)
    requires xs != []
    ensures m in xs
    ensures forall i :: 0 <= i < |xs| ==> m <= xs[i]
  {
    if |xs| == 1 then xs[0]
    else
      var m := Min(xs[1..]);
      if xs[0] < m then xs[0] else m
  }

  function Sum(xs: seq<real>): real
  {
    if xs == [] then 0.0 else Sum(xs[..|xs| - 1]) + xs[|xs| - 1]
  }

  /** A total lies between the count times a lower bound and the count times an upper bound of its values. */
  lemma {:induction false} SumBetween(xs: seq<real>, lo: real, hi: real)
    requires forall i :: 0 <= i < |xs| ==> lo <= xs[i] <= hi
    ensures |xs| as real * lo <= Sum(xs) <= |xs| as real * hi
  {
    if xs != [] {
      SumBetween(xs[..|xs| - 1], lo, hi);
    }
  }

  /** The average of a non-empty list lies between its minimum and its maximum (`MIN <= AVG <= MAX`). */
  lemma AverageBetween(xs: seq<real>)
    requires xs != []
    ensures Min(xs) <= Sum(xs) / (|xs| as real) <= Max(xs)
  {
    AverageWithin(xs, Min(xs), Max(xs));
  }

  /** The average of values that all lie within bounds lies within them too. */
  lemma AverageWithin(xs: seq<real>, lo: real, hi: real)
    requires xs != []
    requires forall i :: 0 <= i < |xs| ==> lo <= xs[i] <= hi
    ensures lo <= Sum(xs) / (|xs| as real) <= hi
  {
    SumBetween(xs, lo, hi);
    QuotientBetween(lo, Sum(xs), hi, |xs| as real);
  }

  /** A total between `n` times `lo` and `n` times `hi` averages to between `lo` and `hi`. */
  lemma QuotientBetween(lo: real, s: real, hi: real, n: real)
    requires n > 0.0 && n * lo <= s <= n * hi
    ensures lo <= s / n <= hi
  {
    DivideBounds(n * lo, s, n * hi, n);
    CancelFactor(lo, n);
    CancelFactor(hi, n);
  }

  lemma CancelFactor(a: real, n: real)
    requires n > 0.0
    ensures n * a / n == a
  {
  }

  lemma DivideBounds(lo: real, s: real, hi: real, n: real)
    requires n > 0.0 && lo <= s <= hi
    ensures lo / n <= s / n <= hi / n
  {
    assert s / n - lo / n == (s - lo) / n;
    assert hi / n - s / n == (hi - s) / n;
  }
}
