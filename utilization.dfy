/**
 * The utilization distribution: every (employee, resource name, week) group
 * of the window gets a utilization percentage, lands in one of six buckets,
 * and the non-empty buckets are listed in their fixed order with their counts
 * and their share of all groups.
 */
module Utilization {
  import opened Wrappers
  import opened Numbers
  import opened Records
  import opened Query
  import opened Collect
  import opened Demand

  /** The grouping key: one group per employee, resource name and week. */
  function ResourceWeek(r: HourRecord): (string, string, string)
  {
    (r.employeeId, r.resourceName, r.weekStartDate)
  }

  /** `ROUND((SUM(hours) / 40.0) * 100, 1)`. */
  function UtilizationPct(hours: real): real
  {
    SqlRound(hours / 40.0 * 100.0, 1)
  }

  /** The percentage of every group of the window, one per group. */
  function GroupPcts(rs: seq<HourRecord>, startDate: string, endDate: string): (pcts: seq<real>)
    ensures |pcts| == |Keys(Window(rs, startDate, endDate), ResourceWeek)|
  {
    var w := Window(rs, startDate, endDate);
    Column(Keys(w, ResourceWeek), k => UtilizationPct(SumHours(Group(w, ResourceWeek, k))))
  }

  /** The cut-offs between consecutive buckets. */
  const Cutoffs: seq<real> := [25.0, 50.0, 75.0, 100.0, 125.0]

  const Labels: seq<string> := ["0-25%", "25-50%", "50-75%", "75-100%", "100-125%", "125%+"]

  /** The bucket of a percentage: the number of cut-offs it reaches. */
  function BucketIndex(pct: real): (b: nat)
    ensures b < 6
    ensures forall k :: 0 <= k < 5 ==> (k < b <==> Cutoffs[k] <= pct)
  {
    if pct < 25.0 then 0
    else if pct < 50.0 then 1
    else if pct < 75.0 then 2
    else if pct < 100.0 then 3
    else if pct < 125.0 then 4
    else 5
  }

  /** The position the `ORDER BY CASE bucket ...` gives a label. */
  function BucketRank(bucket: string): (rank: nat)
    ensures 1 <= rank <= 6
  {
    if bucket == "0-25%" then 1
    else if bucket == "25-50%" then 2
    else if bucket == "50-75%" then 3
    else if bucket == "75-100%" then 4
    else if bucket == "100-125%" then 5
    else 6
  }

  /** The `b`-th label ranks `b + 1`. */
  lemma LabelRank(b: nat)
    requires b < 6
    ensures BucketRank(Labels[b]) == b + 1
  {
    assert Labels[0] == "0-25%";
    assert Labels[1] == "25-50%";
    assert Labels[2] == "50-75%";
    assert Labels[3] == "75-100%";
    assert Labels[4] == "100-125%";
  }

  /** The number of percentages in bucket `b`. */
  function CountIn(pcts: seq<real>, b: nat): (n: nat)
    ensures n <= |pcts|
  {
    if pcts == [] then 0
    else CountIn(pcts[..|pcts| - 1], b) + (if BucketIndex(pcts[|pcts| - 1]) == b then 1 else 0)
  }

  /** The counts of buckets `0` to `n - 1` together. */
  function CountBelow(pcts: seq<real>, n: nat): nat
  {
    if n == 0 then 0 else CountBelow(pcts, n - 1) + CountIn(pcts, n - 1)
  }

  /** One more percentage adds one to the buckets below `n` exactly when its bucket is below `n`. */
  lemma {:induction false} CountBelowSnoc(pcts: seq<real>, p: real, n: nat)
    ensures CountBelow(pcts + [p], n) == CountBelow(pcts, n) + (if BucketIndex(p) < n then 1 else 0)
  {
    if n > 0 {
      CountBelowSnoc(pcts, p, n - 1);
      assert (pcts + [p])[..|pcts + [p]| - 1] == pcts;
    }
  }

  /** Every group lands in exactly one bucket: the six counts add up to the number of groups. */
  lemma {:induction false} BucketsPartition(pcts: seq<real>)
    ensures CountBelow(pcts, 6) == |pcts|
  {
    if pcts == [] {
      EmptyCounts(6);
    } else {
      var init := pcts[..|pcts| - 1];
      BucketsPartition(init);
      assert pcts == init + [pcts[|pcts| - 1]];
      CountBelowSnoc(init, pcts[|pcts| - 1], 6);
    }
  }

  lemma {:induction false} EmptyCounts(n: nat)
    ensures CountBelow([], n) == 0
  {
    if n > 0 {
      EmptyCounts(n - 1);
    }
  }

  /** A bucket and its number of groups, as the query returns it. */
  datatype BucketCount = BucketCount(bucket: string, count: nat)

  /** The query row of bucket `b`, present only when some group is in it. */
  function BucketRowAt(pcts: seq<real>): nat -> Option<BucketCount>
  {
    (b: nat) => if b < 6 && CountIn(pcts, b) > 0 then Some(BucketCount(Labels[b], CountIn(pcts, b))) else None
  }

  function RankOf(c: BucketCount): int { BucketRank(c.bucket) - 1 }

  /** The SQL part: the non-empty buckets, in the fixed bucket order. */
  function BucketCounts(pcts: seq<real>): (out: seq<BucketCount>)
    ensures forall i, j :: 0 <= i < j < |out| ==> BucketRank(out[i].bucket) < BucketRank(out[j].bucket)
    ensures forall c :: c in out ==> c.count > 0 && c == BucketCountOf(pcts, BucketRank(c.bucket) - 1)
    ensures forall b :: 0 <= b < 6 && CountIn(pcts, b) > 0 ==> BucketCountOf(pcts, b) in out
  {
    var f := BucketRowAt(pcts);
    RowsCarryRank(pcts);
    PresentIncreasing(0, 6, f, RankOf);
    forall c | c in Present(0, 6, f) ensures c.count > 0 && c == BucketCountOf(pcts, BucketRank(c.bucket) - 1) {
      BucketRowMember(pcts, c);
      var b :| 0 <= b < 6 && c == BucketCount(Labels[b], CountIn(pcts, b)) && c.count > 0;
      LabelRank(b);
    }
    forall b | 0 <= b < 6 && CountIn(pcts, b) > 0 ensures BucketCountOf(pcts, b) in Present(0, 6, f) {
      BucketRowMember(pcts, BucketCountOf(pcts, b));
    }
    Present(0, 6, f)
  }

  /** The query row of bucket `b`. */
  function BucketCountOf(pcts: seq<real>, b: nat): BucketCount
    requires b < 6
  {
    BucketCount(Labels[b], CountIn(pcts, b))
  }

  /** The row of bucket `b` ranks `b`. */
  lemma RowsCarryRank(pcts: seq<real>)
    ensures forall i :: 0 <= i < 6 && BucketRowAt(pcts)(i).Some? ==> RankOf(BucketRowAt(pcts)(i).value) == i
  {
    forall i | 0 <= i < 6 && BucketRowAt(pcts)(i).Some? ensures RankOf(BucketRowAt(pcts)(i).value) == i {
      LabelRank(i);
    }
  }

  /** The collected rows are the non-empty buckets with their labels and counts. */
  lemma BucketRowMember(pcts: seq<real>, c: BucketCount)
    ensures c in Present(0, 6, BucketRowAt(pcts)) <==> exists b :: 0 <= b < 6 && c == BucketCount(Labels[b], CountIn(pcts, b)) && c.count > 0
  {
    PresentMember(0, 6, BucketRowAt(pcts), c);
  }

  /** Values collected from indices that carry their own index as rank come out in strictly increasing rank. */
  lemma {:induction false} PresentIncreasing<T>(lo: nat, hi: nat, f: nat -> Option<T>, rank: T -> int)
    requires forall i :: lo <= i < hi && f(i).Some? ==> rank(f(i).value) == i
    ensures forall x :: x in Present(lo, hi, f) ==> lo <= rank(x) < hi
    ensures forall a, b :: 0 <= a < b < |Present(lo, hi, f)| ==> rank(Present(lo, hi, f)[a]) < rank(Present(lo, hi, f)[b])
    decreases hi
  {
    if hi > lo {
      PresentIncreasing(lo, hi - 1, f, rank);
    }
  }

  /** `reduce((sum, r) => sum + r.count, 0)`. */
  function TotalCount(cs: seq<BucketCount>): nat
  {
    if cs == [] then 0 else TotalCount(cs[..|cs| - 1]) + cs[|cs| - 1].count
  }

  /** The listed counts add up to the counts of all six buckets: only empty buckets are left out. */
  lemma {:induction false} TotalOfPresent(pcts: seq<real>, n: nat)
    requires n <= 6
    ensures TotalCount(Present(0, n, BucketRowAt(pcts))) == CountBelow(pcts, n)
  {
    if n > 0 {
      TotalOfPresent(pcts, n - 1);
      var f := BucketRowAt(pcts);
      var init := Present(0, n - 1, f);
      var tail := OptionToSeq(f(n - 1));
      assert Present(0, n, f) == init + tail;
      if f(n - 1).Some? {
        assert (init + tail)[..|init + tail| - 1] == init;
      } else {
        assert init + tail == init;
      }
    }
  }

  /** A bucket with its count and its share of all groups, as the endpoint returns it. */
  datatype BucketRow = BucketRow(bucket: string, count: nat, percentage: real)

  /** `Math.round((count / total) * 100 * 10) / 10`, or 0 when the total is 0. */
  function Percentage(count: nat, total: nat): real
  {
    if total > 0 then MathRound(count as real / total as real * 100.0 * 10.0) as real / 10.0
    else 0.0
  }

  /** A share is rounded to one decimal: it moves by at most half a tenth; with no groups at all it is 0. */
  lemma PercentageNear(count: nat, total: nat)
    ensures total > 0 ==>
              count as real / total as real * 100.0 - 0.05 < Percentage(count, total) <= count as real / total as real * 100.0 + 0.05
    ensures total == 0 ==> Percentage(count, total) == 0.0
  {
    if total > 0 {
      MathRoundBounds(count as real / total as real * 100.0 * 10.0);
    }
  }

  /** The endpoint's row for a query row, given the number of all groups. */
  function RowOf(total: nat): BucketCount -> BucketRow
  {
    (c: BucketCount) => BucketRow(c.bucket, c.count, Percentage(c.count, total))
  }

  function RowPct(r: BucketRow): real { r.percentage }

  /** The rows' counts added up. */
  function RowsTotal(rows: seq<BucketRow>): nat
  {
    if rows == [] then 0 else RowsTotal(rows[..|rows| - 1]) + rows[|rows| - 1].count
  }

  /**
   * `getUtilizationDistribution`. The rows follow the fixed bucket order; a
   * bucket is listed exactly when some group of the window falls in it, with
   * the number of those groups and their share of all groups, rounded to one
   * decimal; the counts add up to the number of groups, and the percentages
   * to 100 up to half a tenth per row.
   */
  function UtilizationDistribution(rs: seq<HourRecord>, startDate: string, endDate: string): (out: seq<BucketRow>)
    ensures forall i, j :: 0 <= i < j < |out| ==> BucketRank(out[i].bucket) < BucketRank(out[j].bucket)
    ensures forall row :: row in out ==>
              row.count > 0 && row == BucketRowOf(GroupPcts(rs, startDate, endDate), BucketRank(row.bucket) - 1)
    ensures forall b :: 0 <= b < 6 && CountIn(GroupPcts(rs, startDate, endDate), b) > 0 ==>
              BucketRowOf(GroupPcts(rs, startDate, endDate), b) in out
    ensures RowsTotal(out) == |Keys(Window(rs, startDate, endDate), ResourceWeek)|
    ensures var n := |Keys(Window(rs, startDate, endDate), ResourceWeek)|;
            forall row :: row in out ==>
              n > 0 && row.count as real / n as real * 100.0 - 0.05 < row.percentage <= row.count as real / n as real * 100.0 + 0.05
    ensures out != [] ==>
              100.0 - 0.05 * |out| as real <= Sum(Column(out, RowPct)) <= 100.0 + 0.05 * |out| as real
  {
    var pcts := GroupPcts(rs, startDate, endDate);
    DistributionRows(pcts);
    DistributionCount(pcts);
    DistributionShares(pcts);
    DistributionSum(BucketCounts(pcts), |pcts|, Column(BucketCounts(pcts), RowOf(|pcts|)));
    Column(BucketCounts(pcts), RowOf(|pcts|))
  }

  /** Which rows the distribution lists, and in which order. */
  lemma DistributionRows(pcts: seq<real>)
    ensures var rows := Column(BucketCounts(pcts), RowOf(|pcts|));
            (forall i, j :: 0 <= i < j < |rows| ==> BucketRank(rows[i].bucket) < BucketRank(rows[j].bucket)) &&
            (forall row :: row in rows ==> row.count > 0 && row == BucketRowOf(pcts, BucketRank(row.bucket) - 1)) &&
            (forall b :: 0 <= b < 6 && CountIn(pcts, b) > 0 ==> BucketRowOf(pcts, b) in rows)
  {
    var counts := BucketCounts(pcts);
    var rows := Column(counts, RowOf(|pcts|));
    RowsOrdered(pcts, counts, rows);
    RowsListed(pcts, counts, rows);
    BucketsListed(pcts, counts, rows);
  }

  /** The distribution's counts add up to the number of groups. */
  lemma DistributionCount(pcts: seq<real>)
    ensures RowsTotal(Column(BucketCounts(pcts), RowOf(|pcts|))) == |pcts|
  {
    var counts := BucketCounts(pcts);
    TotalOfPresent(pcts, 6);
    BucketsPartition(pcts);
    RowsOfCounts(counts, |pcts|);
  }

  /** Each row's percentage is its share of all groups, rounded to one decimal. */
  lemma DistributionShares(pcts: seq<real>)
    ensures forall row :: row in Column(BucketCounts(pcts), RowOf(|pcts|)) ==>
              |pcts| > 0 &&
              row.count as real / |pcts| as real * 100.0 - 0.05 < row.percentage <= row.count as real / |pcts| as real * 100.0 + 0.05
  {
    var counts := BucketCounts(pcts);
    var rows := Column(counts, RowOf(|pcts|));
    RowsListed(pcts, counts, rows);
    RowShares(pcts, rows);
  }

  /** The percentages of rows that count every group add up to about 100. */
  lemma DistributionSum(counts: seq<BucketCount>, total: nat, rows: seq<BucketRow>)
    requires forall c :: c in counts ==> c.count > 0
    requires rows == Column(counts, RowOf(total)) && RowsTotal(rows) == total
    ensures rows != [] ==> 100.0 - 0.05 * |rows| as real <= Sum(Column(rows, RowPct)) <= 100.0 + 0.05 * |rows| as real
  {
    if rows != [] {
      assert counts[|counts| - 1] in counts;
      SharesSum(rows, total);
    }
  }

  /** Rows whose counts add up to `total`, each rounded to its share, add up to about 100 percent. */
  lemma SharesSum(rows: seq<BucketRow>, total: nat)
    requires total > 0 && RowsTotal(rows) == total
    requires forall i :: 0 <= i < |rows| ==> rows[i].percentage == Percentage(rows[i].count, total)
    ensures 100.0 - 0.05 * |rows| as real <= Sum(Column(rows, RowPct)) <= 100.0 + 0.05 * |rows| as real
  {
    PercentagesNear(rows, total);
    WholeShare(total);
  }

  /** The endpoint row of bucket `b`, when some percentage is in it. */
  function BucketRowOf(pcts: seq<real>, b: nat): BucketRow
    requires b < 6
  {
    BucketRow(Labels[b], CountIn(pcts, b), Percentage(CountIn(pcts, b), |pcts|))
  }

  /** The endpoint rows keep the query rows' bucket order. */
  lemma RowsOrdered(pcts: seq<real>, counts: seq<BucketCount>, rows: seq<BucketRow>)
    requires forall i, j :: 0 <= i < j < |counts| ==> BucketRank(counts[i].bucket) < BucketRank(counts[j].bucket)
    requires rows == Column(counts, RowOf(|pcts|))
    ensures forall i, j :: 0 <= i < j < |rows| ==> BucketRank(rows[i].bucket) < BucketRank(rows[j].bucket)
  {
  }

  /** Every endpoint row is the row of a non-empty bucket. */
  lemma RowsListed(pcts: seq<real>, counts: seq<BucketCount>, rows: seq<BucketRow>)
    requires forall c :: c in counts ==> c.count > 0 && c == BucketCountOf(pcts, BucketRank(c.bucket) - 1)
    requires rows == Column(counts, RowOf(|pcts|))
    ensures forall row :: row in rows ==> row.count > 0 && row == BucketRowOf(pcts, BucketRank(row.bucket) - 1)
  {
    forall row | row in rows ensures row.count > 0 && row == BucketRowOf(pcts, BucketRank(row.bucket) - 1) {
      ListedRow(pcts, counts, rows, row);
    }
  }

  /** Every non-empty bucket has its endpoint row. */
  lemma BucketsListed(pcts: seq<real>, counts: seq<BucketCount>, rows: seq<BucketRow>)
    requires forall b :: 0 <= b < 6 && CountIn(pcts, b) > 0 ==> BucketCountOf(pcts, b) in counts
    requires rows == Column(counts, RowOf(|pcts|))
    ensures forall b :: 0 <= b < 6 && CountIn(pcts, b) > 0 ==> BucketRowOf(pcts, b) in rows
  {
    forall b | 0 <= b < 6 && CountIn(pcts, b) > 0 ensures BucketRowOf(pcts, b) in rows {
      var c := BucketCountOf(pcts, b);
      assert c in counts;
      var i :| 0 <= i < |counts| && counts[i] == c;
      assert rows[i] == RowOf(|pcts|)(c);
    }
  }

  /** A listed row is the row of the non-empty bucket its label ranks. */
  lemma ListedRow(pcts: seq<real>, counts: seq<BucketCount>, rows: seq<BucketRow>, row: BucketRow)
    requires forall c :: c in counts ==> c.count > 0 && c == BucketCountOf(pcts, BucketRank(c.bucket) - 1)
    requires rows == Column(counts, RowOf(|pcts|))
    requires row in rows
    ensures row.count > 0 && row == BucketRowOf(pcts, BucketRank(row.bucket) - 1)
  {
    var i :| 0 <= i < |rows| && rows[i] == row;
    assert counts[i] in counts;
    assert rows[i] == RowOf(|pcts|)(counts[i]);
  }

  /** Each listed row's percentage is its count's share of all groups, rounded to one decimal. */
  lemma RowShares(pcts: seq<real>, rows: seq<BucketRow>)
    requires forall row :: row in rows ==> row.count > 0 && row == BucketRowOf(pcts, BucketRank(row.bucket) - 1)
    ensures forall row :: row in rows ==>
              |pcts| > 0 &&
              row.count as real / |pcts| as real * 100.0 - 0.05 < row.percentage <= row.count as real / |pcts| as real * 100.0 + 0.05
  {
    forall row | row in rows
      ensures |pcts| > 0 &&
              row.count as real / |pcts| as real * 100.0 - 0.05 < row.percentage <= row.count as real / |pcts| as real * 100.0 + 0.05
    {
      PercentageNear(row.count, |pcts|);
    }
  }

  /** The rows keep the query rows' counts, so they add up to the same total. */
  lemma {:induction false} RowsOfCounts(counts: seq<BucketCount>, total: nat)
    ensures RowsTotal(Column(counts, RowOf(total))) == TotalCount(counts)
  {
    if counts != [] {
      var init := counts[..|counts| - 1];
      RowsOfCounts(init, total);
      assert Column(counts, RowOf(total))[..|counts| - 1] == Column(init, RowOf(total));
    }
  }

  /** Rounded shares of a non-zero total add up to the rows' exact share, up to half a tenth each. */
  lemma {:induction false} PercentagesNear(rows: seq<BucketRow>, total: nat)
    requires total > 0
    requires forall i :: 0 <= i < |rows| ==> rows[i].percentage == Percentage(rows[i].count, total)
    ensures RowsTotal(rows) as real / total as real * 100.0 - 0.05 * |rows| as real <= Sum(Column(rows, RowPct))
    ensures Sum(Column(rows, RowPct)) <= RowsTotal(rows) as real / total as real * 100.0 + 0.05 * |rows| as real
  {
    if rows != [] {
      var init, last := rows[..|rows| - 1], rows[|rows| - 1];
      PercentagesNear(init, total);
      assert Column(rows, RowPct)[..|rows| - 1] == Column(init, RowPct);
      DivSplit(RowsTotal(init) as real, last.count as real, total as real);
      PercentageNear(last.count, total);
    }
  }

  /** All groups are 100 percent of themselves. */
  lemma WholeShare(total: nat)
    requires total > 0
    ensures total as real / total as real * 100.0 == 100.0
  {
  }
}
