/**
 * The demand queries of the analytics service: the date window every
 * windowed query applies, the weekly demand series (overall, by demand type,
 * as implied FTE) and their summary, the realism metrics, the two share
 * breakdowns, and the project, phase and date-range listings. Each query is
 * a function of the stored `hours` rows.
 */
module Demand {
  import opened Wrappers
  import opened Numbers
  import opened Ordering
  import opened Records
  import opened Query

  function WeekOf(r: HourRecord): string { r.weekStartDate }
  function EmployeeOf(r: HourRecord): string { r.employeeId }
  function ProjectOf(r: HourRecord): string { r.project }
  function DemandTypeOf(r: HourRecord): string { r.demandType }

  /** `week_start_date >= startDate AND week_start_date <= endDate`, compared as text. */
  predicate InWindow(r: HourRecord, startDate: string, endDate: string)
  {
    StrLe(startDate, r.weekStartDate) && StrLe(r.weekStartDate, endDate)
  }

  /** The rows inside the window, in storage order. */
  function Window(rs: seq<HourRecord>, startDate: string, endDate: string): (w: seq<HourRecord>)
    ensures forall r :: r in w <==> r in rs && InWindow(r, startDate, endDate)
  {
    var p := (r: HourRecord) => InWindow(r, startDate, endDate);
    SelectMembers(rs, p);
    Select(rs, p)
  }

  /** `COUNT(DISTINCT key)`: the number of different key values among the rows. */
  function CountDistinct(rs: seq<HourRecord>, key: HourRecord -> string): (n: nat)
    ensures n == |set r | r in rs :: key(r)|
    ensures n <= |rs|
    ensures n == 0 <==> rs == []
  {
    var ks := Keys(rs, key);
    assert rs != [] ==> key(rs[0]) in ks;
    DistinctAtMostRows(rs, key);
    NoDuplicatesCard(ks);
    assert (set k | k in ks) == (set r | r in rs :: key(r));
    |ks|
  }

  /** The distinct employees and projects of some rows. */
  lemma DistinctOf(rs: seq<HourRecord>)
    ensures CountDistinct(rs, EmployeeOf) == |set r | r in rs :: EmployeeOf(r)|
    ensures CountDistinct(rs, ProjectOf) == |set r | r in rs :: ProjectOf(r)|
  {
    var e: HourRecord -> string := EmployeeOf;
    var p: HourRecord -> string := ProjectOf;
    assert (set r | r in rs :: e(r)) == (set r | r in rs :: EmployeeOf(r));
    assert (set r | r in rs :: p(r)) == (set r | r in rs :: ProjectOf(r));
  }

  lemma DistinctAtMostRows(rs: seq<HourRecord>, key: HourRecord -> string)
    ensures |Keys(rs, key)| <= |rs|
  {
  }

  /** The distinct weeks of some rows, ascending (`GROUP BY week_start_date ORDER BY week_start_date`). */
  function Weeks(rs: seq<HourRecord>): (ws: seq<string>)
    ensures StrictlyAscending(ws)
    ensures forall w :: w in ws <==> exists r :: r in rs && r.weekStartDate == w
  {
    var c := Column(rs, WeekOf);
    forall w ensures w in c <==> exists r :: r in rs && r.weekStartDate == w {
      ColumnMember(rs, WeekOf, w);
    }
    SortDistinct(c)
  }

  /** Distinct values listed in ascending order occur once each. */
  lemma AscendingNoDuplicates(s: seq<string>)
    requires StrictlyAscending(s)
    ensures NoDuplicates(s)
  {
  }

  // ---------------------------------------------------------------------
  // Weekly demand trend

  /** The optional demand-type filter: a type applies only when present and non-empty (JavaScript truthiness). */
  predicate TypeMatches(r: HourRecord, demandType: Option<string>)
  {
    demandType.None? || demandType.value == "" || r.demandType == demandType.value
  }

  datatype WeeklyDemand = WeeklyDemand(weekStartDate: string, totalHours: real, resourceCount: nat, projectCount: nat)

  /** The in-window rows of the requested demand type. */
  function TrendRows(rs: seq<HourRecord>, startDate: string, endDate: string, demandType: Option<string>): (t: seq<HourRecord>)
    ensures forall r :: r in t <==> r in rs && InWindow(r, startDate, endDate) && TypeMatches(r, demandType)
  {
    var p := (r: HourRecord) => TypeMatches(r, demandType);
    SelectMembers(Window(rs, startDate, endDate), p);
    Select(Window(rs, startDate, endDate), p)
  }

  function TrendRow(rows: seq<HourRecord>, w: string): WeeklyDemand
  {
    var g := Group(rows, WeekOf, w);
    WeeklyDemand(w, SumHours(g), CountDistinct(g, EmployeeOf), CountDistinct(g, ProjectOf))
  }

  function DemandWeek(d: WeeklyDemand): string { d.weekStartDate }

  /** `getWeeklyDemandTrend`: one row per week that has matching rows, weeks ascending. */
  function WeeklyDemandTrend(rs: seq<HourRecord>, startDate: string, endDate: string, demandType: Option<string>): (out: seq<WeeklyDemand>)
    ensures StrictlyAscending(Column(out, DemandWeek))
    ensures forall w :: w in Column(out, DemandWeek) <==>
                        exists r :: r in rs && InWindow(r, startDate, endDate) && TypeMatches(r, demandType) && r.weekStartDate == w
    ensures forall i :: 0 <= i < |out| ==> out[i] == TrendRow(TrendRows(rs, startDate, endDate, demandType), out[i].weekStartDate)
  {
    var rows := TrendRows(rs, startDate, endDate, demandType);
    var ws := Weeks(rows);
    var out := Column(ws, w => TrendRow(rows, w));
    assert Column(out, DemandWeek) == ws;
    out
  }

  /** A trend row sums exactly the matching rows of its week, and counts their distinct employees and projects. */
  lemma TrendRowMeaning(rows: seq<HourRecord>, w: string, r: HourRecord)
    ensures r in Group(rows, WeekOf, w) <==> r in rows && r.weekStartDate == w
    ensures TrendRow(rows, w).resourceCount == |set x | x in Group(rows, WeekOf, w) :: EmployeeOf(x)|
    ensures TrendRow(rows, w).projectCount == |set x | x in Group(rows, WeekOf, w) :: ProjectOf(x)|
    ensures w in Weeks(rows) ==> 1 <= TrendRow(rows, w).resourceCount <= |Group(rows, WeekOf, w)|
    ensures w in Weeks(rows) ==> 1 <= TrendRow(rows, w).projectCount <= |Group(rows, WeekOf, w)|
  {
    GroupMember(rows, WeekOf, w, r);
    DistinctOf(Group(rows, WeekOf, w));
    if w in Weeks(rows) {
      var x :| x in rows && x.weekStartDate == w;
      GroupMember(rows, WeekOf, w, x);
    }
  }

  /** The weekly totals add up to the total of all matching rows: no hours are lost or counted twice. */
  lemma TrendTotal(rs: seq<HourRecord>, startDate: string, endDate: string, demandType: Option<string>)
    ensures Sum(Column(WeeklyDemandTrend(rs, startDate, endDate, demandType), (d: WeeklyDemand) => d.totalHours))
         == SumHours(TrendRows(rs, startDate, endDate, demandType))
  {
    var rows := TrendRows(rs, startDate, endDate, demandType);
    var ws := Weeks(rows);
    var out := WeeklyDemandTrend(rs, startDate, endDate, demandType);
    assert Column(out, (d: WeeklyDemand) => d.totalHours) == GroupSums(rows, WeekOf, ws);
    SumOfGroupSums(rows, WeekOf, ws);
    AscendingNoDuplicates(ws);
    SumGroupsTotal(rows, WeekOf, ws);
  }

  // ---------------------------------------------------------------------
  // Weekly demand by type

  datatype WeeklyTypeDemand = WeeklyTypeDemand(weekStartDate: string, demandType: string, totalHours: real)

  function WeekAndType(r: HourRecord): (string, string) { (r.weekStartDate, r.demandType) }

  function TypeKey(x: WeeklyTypeDemand): (string, string) { (x.weekStartDate, x.demandType) }

  /** `ORDER BY week_start_date` as a comparison; rows of the same week compare both ways. */
  function ByWeek(a: WeeklyTypeDemand, b: WeeklyTypeDemand): bool
  {
    StrLe(a.weekStartDate, b.weekStartDate)
  }

  lemma ByWeekTotal()
    ensures TotalPreorder(ByWeek)
  {
    forall a, b ensures ByWeek(a, b) || ByWeek(b, a) {
      StrLeTotal(a.weekStartDate, b.weekStartDate);
    }
    forall a, b, c | ByWeek(a, b) && ByWeek(b, c) ensures ByWeek(a, c) {
      StrLeTransitive(a.weekStartDate, b.weekStartDate, c.weekStartDate);
    }
  }

  function TypeRow(w: seq<HourRecord>, k: (string, string)): WeeklyTypeDemand
  {
    WeeklyTypeDemand(k.0, k.1, SumHours(Group(w, WeekAndType, k)))
  }

  /**
   * `getWeeklyDemandByType`: one row per (week, demand type) that has
   * in-window rows, ordered by week; the order of the types within a week is
   * left open, as the query leaves it.
   */
  function WeeklyDemandByType(rs: seq<HourRecord>, startDate: string, endDate: string): (out: seq<WeeklyTypeDemand>)
    ensures forall i, j :: 0 <= i < j < |out| ==> StrLe(out[i].weekStartDate, out[j].weekStartDate)
    ensures forall x :: x in out <==>
              (exists r :: r in Window(rs, startDate, endDate) && WeekAndType(r) == (x.weekStartDate, x.demandType)) &&
              x == TypeRow(Window(rs, startDate, endDate), (x.weekStartDate, x.demandType))
    ensures DistinctKeys(out, TypeKey)
  {
    var w := Window(rs, startDate, endDate);
    var ks := Keys(w, WeekAndType);
    var f := (k: (string, string)) => TypeRow(w, k);
    var rows := Column(ks, f);
    ByWeekTotal();
    var out := SortBy(rows, ByWeek);
    assert DistinctKeys(rows, TypeKey);
    PermutationDistinctKeys(rows, out, TypeKey);
    forall x ensures x in out <==>
        (exists r :: r in w && WeekAndType(r) == (x.weekStartDate, x.demandType)) && x == TypeRow(w, (x.weekStartDate, x.demandType)) {
      MultisetMember(out, rows, x);
      ColumnMember(ks, f, x);
      var k := (x.weekStartDate, x.demandType);
      if x in rows {
        var k' :| k' in ks && f(k') == x;
        assert k' == k;
      }
      if x == TypeRow(w, k) && exists r :: r in w && WeekAndType(r) == k {
        assert k in ks && f(k) == x;
      }
    }
    out
  }

  /** No (week, demand type) pair gets two rows. */
  lemma ByTypeUnique(rs: seq<HourRecord>, startDate: string, endDate: string, i: int, j: int)
    requires 0 <= i < j < |WeeklyDemandByType(rs, startDate, endDate)|
    ensures var out := WeeklyDemandByType(rs, startDate, endDate);
            (out[i].weekStartDate, out[i].demandType) != (out[j].weekStartDate, out[j].demandType)
  {
    var out := WeeklyDemandByType(rs, startDate, endDate);
    assert TypeKey(out[i]) != TypeKey(out[j]);
  }

  // ---------------------------------------------------------------------
  // Implied FTE

  datatype WeeklyFte = WeeklyFte(weekStartDate: string, totalHours: real, impliedFte: real)

  /** The window's weekly totals, week by week in ascending week order. */
  function WeeklySums(rs: seq<HourRecord>, startDate: string, endDate: string): seq<real>
  {
    var w := Window(rs, startDate, endDate);
    GroupSums(w, WeekOf, Weeks(w))
  }

  /** A weekly total in full-time equivalents of 40 hours, rounded to two decimals. */
  function Fte(hours: real): (f: real)
    ensures hours / 40.0 - 0.005 <= f <= hours / 40.0 + 0.005
  {
    SqlRoundNear(hours / 40.0, 2);
    SqlRound(hours / 40.0, 2)
  }

  /** A larger weekly total never has a smaller FTE. */
  lemma FteMonotone(x: real, y: real)
    requires x <= y
    ensures Fte(x) <= Fte(y)
  {
    SqlRoundMonotone(x / 40.0, y / 40.0, 2);
  }

  /** `getImpliedFTE`: the weekly totals with their FTE equivalent. */
  function ImpliedFte(rs: seq<HourRecord>, startDate: string, endDate: string): (out: seq<WeeklyFte>)
    ensures |out| == |WeeklySums(rs, startDate, endDate)|
    ensures forall i :: 0 <= i < |out| ==>
              out[i].totalHours == WeeklySums(rs, startDate, endDate)[i] && out[i].impliedFte == Fte(out[i].totalHours)
  {
    var w := Window(rs, startDate, endDate);
    var ws := Weeks(w);
    var sums := WeeklySums(rs, startDate, endDate);
    seq(|ws|, i requires 0 <= i < |ws| => WeeklyFte(ws[i], sums[i], Fte(sums[i])))
  }

  /** The FTE series has the same weeks and weekly totals as the unfiltered demand trend. */
  lemma ImpliedFteMatchesTrend(rs: seq<HourRecord>, startDate: string, endDate: string)
    ensures |ImpliedFte(rs, startDate, endDate)| == |WeeklyDemandTrend(rs, startDate, endDate, None)|
    ensures forall i :: 0 <= i < |ImpliedFte(rs, startDate, endDate)| ==>
              ImpliedFte(rs, startDate, endDate)[i].weekStartDate == WeeklyDemandTrend(rs, startDate, endDate, None)[i].weekStartDate &&
              ImpliedFte(rs, startDate, endDate)[i].totalHours == WeeklyDemandTrend(rs, startDate, endDate, None)[i].totalHours
  {
    var w := Window(rs, startDate, endDate);
    assert TrendRows(rs, startDate, endDate, None) == w by {
      SelectAll(w, (r: HourRecord) => TypeMatches(r, None));
    }
  }

  // ---------------------------------------------------------------------
  // FTE summary

  /** Average, peak and minimum weekly FTE; all NULL when there are no weeks. */
  datatype FteSummary = FteSummary(avgFte: Option<real>, peakFte: Option<real>, minFte: Option<real>)

  /** `AVG`, `MAX` and `MIN` of the weekly totals, each in FTE. */
  function SummaryOf(sums: seq<real>): (s: FteSummary)
    ensures s.avgFte.None? <==> sums == []
    ensures s.peakFte.None? <==> sums == []
    ensures s.minFte.None? <==> sums == []
  {
    if sums == [] then FteSummary(None, None, None)
    else FteSummary(Some(Fte(Sum(sums) / (|sums| as real))), Some(Fte(Max(sums))), Some(Fte(Min(sums))))
  }

  /** `getFTESummary`. */
  function GetFteSummary(rs: seq<HourRecord>, startDate: string, endDate: string): (s: FteSummary)
    ensures s.avgFte.None? <==> Window(rs, startDate, endDate) == []
  {
    var w := Window(rs, startDate, endDate);
    assert w != [] ==> w[0].weekStartDate in Weeks(w);
    SummaryOf(WeeklySums(rs, startDate, endDate))
  }

  /** The average lies between the minimum and the peak, and every week lies between them too. */
  lemma SummaryBounds(sums: seq<real>)
    requires sums != []
    ensures SummaryOf(sums).minFte.value <= SummaryOf(sums).avgFte.value <= SummaryOf(sums).peakFte.value
    ensures forall i :: 0 <= i < |sums| ==> SummaryOf(sums).minFte.value <= Fte(sums[i]) <= SummaryOf(sums).peakFte.value
  {
    var lo, hi := Min(sums), Max(sums);
    var avg := Sum(sums) / (|sums| as real);
    AverageBetween(sums);
    assert SummaryOf(sums) == FteSummary(Some(Fte(avg)), Some(Fte(hi)), Some(Fte(lo)));
    FteBetween(lo, avg, hi);
    forall i | 0 <= i < |sums| ensures Fte(lo) <= Fte(sums[i]) <= Fte(hi) {
      FteBetween(lo, sums[i], hi);
    }
  }

  lemma FteBetween(lo: real, x: real, hi: real)
    requires lo <= x <= hi
    ensures Fte(lo) <= Fte(x) <= Fte(hi)
  {
    FteMonotone(lo, x);
    FteMonotone(x, hi);
  }

  /** The summary of a non-empty window is ordered min <= avg <= peak, and brackets every week of the FTE series. */
  lemma FteSummaryBounds(rs: seq<HourRecord>, startDate: string, endDate: string)
    requires Window(rs, startDate, endDate) != []
    ensures var s := GetFteSummary(rs, startDate, endDate);
            s.minFte.value <= s.avgFte.value <= s.peakFte.value
    ensures var s := GetFteSummary(rs, startDate, endDate);
            forall f :: f in ImpliedFte(rs, startDate, endDate) ==> s.minFte.value <= f.impliedFte <= s.peakFte.value
  {
    var sums := WeeklySums(rs, startDate, endDate);
    var out := ImpliedFte(rs, startDate, endDate);
    SummaryBounds(sums);
    forall f | f in out ensures SummaryOf(sums).minFte.value <= f.impliedFte <= SummaryOf(sums).peakFte.value {
      var i :| 0 <= i < |out| && out[i] == f;
      assert f.impliedFte == Fte(sums[i]);
    }
  }

  // ---------------------------------------------------------------------
  // Realism metrics

  datatype RealismMetrics = RealismMetrics(totalHours: Option<real>, avgWeeklyFte: Option<real>, uniqueResources: nat, uniqueProjects: nat)

  /** `getDemandRealismMetrics`: totals over the window; the sums are NULL when the window is empty. */
  function GetRealismMetrics(rs: seq<HourRecord>, startDate: string, endDate: string): (m: RealismMetrics)
    ensures m.totalHours.None? <==> Window(rs, startDate, endDate) == []
    ensures m.avgWeeklyFte.None? <==> m.totalHours.None?
    ensures m.uniqueResources == 0 <==> m.totalHours.None?
    ensures m.uniqueProjects == 0 <==> m.totalHours.None?
    ensures m.totalHours.Some? ==> m.totalHours.value == SumHours(Window(rs, startDate, endDate))
    ensures m.uniqueResources == |set r | r in Window(rs, startDate, endDate) :: EmployeeOf(r)|
    ensures m.uniqueProjects == |set r | r in Window(rs, startDate, endDate) :: ProjectOf(r)|
  {
    var w := Window(rs, startDate, endDate);
    var total := SumHours(w);
    DistinctOf(w);
    RealismMetrics(if w == [] then None else Some(total),
                   if w == [] then None else Some(SqlRound(total / 40.0 / 26.0, 1)),
                   CountDistinct(w, EmployeeOf), CountDistinct(w, ProjectOf))
  }

  /** The average weekly FTE is the window total over 1040 hours (40 hours times 26 weeks), whatever the window's length. */
  lemma AvgWeeklyFteFixedHorizon(rs: seq<HourRecord>, startDate: string, endDate: string)
    requires Window(rs, startDate, endDate) != []
    ensures GetRealismMetrics(rs, startDate, endDate).avgWeeklyFte
         == Some(SqlRound(SumHours(Window(rs, startDate, endDate)) / 1040.0, 1))
  {
  }

  // ---------------------------------------------------------------------
  // Share breakdowns

  /** A share of the window total: its group, its hours and its percentage (NULL when the total is zero). */
  datatype Share = Share(group: string, totalHours: real, pctOfTotal: Option<real>)

  function ShareGroup(s: Share): string { s.group }
  function ShareHours(s: Share): real { s.totalHours }
  function SharePct(s: Share): real { s.pctOfTotal.GetOr(0.0) }

  /** `ROUND(part * 100.0 / total, 1)`; SQLite's division by zero yields NULL. */
  function PctOfTotal(part: real, total: real): (p: Option<real>)
    ensures p.None? <==> total == 0.0
    ensures p.Some? ==> part * 100.0 / total - 0.05 <= p.value <= part * 100.0 / total + 0.05
  {
    if total == 0.0 then None
    else
      SqlRoundNear(part * 100.0 / total, 1);
      Some(SqlRound(part * 100.0 / total, 1))
  }

  function ShareOf(w: seq<HourRecord>, key: HourRecord -> string, k: string): Share
  {
    Share(k, SumHours(Group(w, key, k)), PctOfTotal(SumHours(Group(w, key, k)), SumHours(w)))
  }

  /** `GROUP BY key` over the window with each group's share of the window total; groups ascending by key. */
  function Breakdown(w: seq<HourRecord>, key: HourRecord -> string): (out: seq<Share>)
    ensures StrictlyAscending(Column(out, ShareGroup))
    ensures forall k :: k in Column(out, ShareGroup) <==> exists r :: r in w && key(r) == k
    ensures forall i :: 0 <= i < |out| ==> out[i] == ShareOf(w, key, out[i].group)
  {
    var c := Column(w, key);
    forall k ensures k in c <==> exists r :: r in w && key(r) == k {
      ColumnMember(w, key, k);
    }
    var ks := SortDistinct(c);
    var out := Column(ks, k => ShareOf(w, key, k));
    assert Column(out, ShareGroup) == ks;
    out
  }

  /** The shares' hours add up to the window total. */
  lemma BreakdownTotal(w: seq<HourRecord>, key: HourRecord -> string)
    ensures Sum(Column(Breakdown(w, key), ShareHours)) == SumHours(w)
  {
    var out := Breakdown(w, key);
    var ks := Column(out, ShareGroup);
    assert Column(out, ShareHours) == GroupSums(w, key, ks);
    SumOfGroupSums(w, key, ks);
    AscendingNoDuplicates(ks);
    SumGroupsTotal(w, key, ks);
  }

  /** When the window total is not zero every share has a percentage, and they add up to 100 up to half a tenth per share. */
  lemma BreakdownPercentages(w: seq<HourRecord>, key: HourRecord -> string)
    requires SumHours(w) != 0.0
    ensures forall i :: 0 <= i < |Breakdown(w, key)| ==> Breakdown(w, key)[i].pctOfTotal.Some?
    ensures 100.0 - 0.05 * |Breakdown(w, key)| as real <= Sum(Column(Breakdown(w, key), SharePct))
    ensures Sum(Column(Breakdown(w, key), SharePct)) <= 100.0 + 0.05 * |Breakdown(w, key)| as real
  {
    BreakdownTotal(w, key);
    SharesAddUp(Breakdown(w, key), SumHours(w));
  }

  /** Rounded percentages of parts that make up a non-zero total add up to 100, up to half a tenth each. */
  lemma SharesAddUp(out: seq<Share>, total: real)
    requires total != 0.0 && Sum(Column(out, ShareHours)) == total
    requires forall i :: 0 <= i < |out| ==> out[i].pctOfTotal == PctOfTotal(out[i].totalHours, total)
    ensures 100.0 - 0.05 * |out| as real <= Sum(Column(out, SharePct)) <= 100.0 + 0.05 * |out| as real
  {
    SharesNear(out, total);
    WholePercent(total);
  }

  lemma WholePercent(total: real)
    requires total != 0.0
    ensures total * 100.0 / total == 100.0
  {
  }

  /** Rounded percentages of parts of a non-zero total add up to the parts' exact percentage, up to half a tenth each. */
  lemma {:induction false} SharesNear(out: seq<Share>, total: real)
    requires total != 0.0
    requires forall i :: 0 <= i < |out| ==> out[i].pctOfTotal == PctOfTotal(out[i].totalHours, total)
    ensures Sum(Column(out, ShareHours)) * 100.0 / total - 0.05 * |out| as real <= Sum(Column(out, SharePct))
    ensures Sum(Column(out, SharePct)) <= Sum(Column(out, ShareHours)) * 100.0 / total + 0.05 * |out| as real
  {
    if out != [] {
      var init, last := out[..|out| - 1], out[|out| - 1];
      assert Column(out, ShareHours)[..|out| - 1] == Column(init, ShareHours);
      assert Column(out, SharePct)[..|out| - 1] == Column(init, SharePct);
      SharesNear(init, total);
      var a, b := Sum(Column(init, ShareHours)), last.totalHours;
      assert Sum(Column(out, ShareHours)) == a + b;
      assert (a + b) * 100.0 / total == a * 100.0 / total + b * 100.0 / total by {
        DivSplit(a * 100.0, b * 100.0, total);
      }
    }
  }

  /** `resource_name`/`employee_id` patterns that mark a pool or placeholder rather than a named person. */
  predicate IsPoolOrPlaceholder(r: HourRecord)
  {
    Text.LikePrefix(r.employeeId, "9999999") || Text.LikeContains(r.resourceName, "General") ||
    Text.LikeContains(r.resourceName, "Pool") || Text.LikeContains(r.resourceName, "TBD")
  }

  const PoolLabel := "Pool/Placeholder"
  const NamedLabel := "Named Resource"

  function ResourceType(r: HourRecord): string
  {
    if IsPoolOrPlaceholder(r) then PoolLabel else NamedLabel
  }

  /** `getPoolVsNamedBreakdown`: a share for each of the two classes that has rows in the window. */
  function PoolVsNamed(rs: seq<HourRecord>, startDate: string, endDate: string): (out: seq<Share>)
    ensures forall k :: k in Column(out, ShareGroup) <==>
                        exists r :: r in rs && InWindow(r, startDate, endDate) && ResourceType(r) == k
    ensures forall i :: 0 <= i < |out| ==> out[i] == ShareOf(Window(rs, startDate, endDate), ResourceType, out[i].group)
    ensures |out| <= 2
  {
    var out := Breakdown(Window(rs, startDate, endDate), ResourceType);
    TwoClasses(Column(out, ShareGroup), Window(rs, startDate, endDate));
    out
  }

  /** Ascending distinct resource types of some rows are at most the two classes. */
  lemma TwoClasses(ks: seq<string>, w: seq<HourRecord>)
    requires StrictlyAscending(ks)
    requires forall k :: k in ks ==> exists r :: r in w && ResourceType(r) == k
    ensures |ks| <= 2
  {
    forall i | 0 <= i < |ks| ensures ks[i] == PoolLabel || ks[i] == NamedLabel {
      assert ks[i] in ks;
    }
    if |ks| > 2 {
      FirstThreeDistinct(ks);
      assert false;
    }
  }

  lemma FirstThreeDistinct(ks: seq<string>)
    requires StrictlyAscending(ks) && |ks| > 2
    ensures ks[0] != ks[1] && ks[1] != ks[2] && ks[0] != ks[2]
  {
    assert StrLt(ks[0], ks[1]) && StrLt(ks[1], ks[2]) && StrLt(ks[0], ks[2]);
  }

  /** The named share is exactly the window's rows that match none of the pool patterns. */
  lemma NamedShareIsNonPool(rs: seq<HourRecord>, startDate: string, endDate: string, r: HourRecord)
    ensures r in Group(Window(rs, startDate, endDate), ResourceType, NamedLabel) <==>
            r in rs && InWindow(r, startDate, endDate) && !IsPoolOrPlaceholder(r)
  {
    GroupMember(Window(rs, startDate, endDate), ResourceType, NamedLabel, r);
  }

  /** `getDemandTypeBreakdown`: one share per demand type in the window, with its hours and its percentage of the window. */
  function DemandTypeBreakdown(rs: seq<HourRecord>, startDate: string, endDate: string): (out: seq<Share>)
    ensures StrictlyAscending(Column(out, ShareGroup))
    ensures forall k :: k in Column(out, ShareGroup) <==>
                        exists r :: r in rs && InWindow(r, startDate, endDate) && r.demandType == k
    ensures forall i :: 0 <= i < |out| ==> out[i] == ShareOf(Window(rs, startDate, endDate), DemandTypeOf, out[i].group)
  {
    Breakdown(Window(rs, startDate, endDate), DemandTypeOf)
  }

  // ---------------------------------------------------------------------
  // Listings

  /** `getProjects`: every stored project once, ascending. */
  function Projects(rs: seq<HourRecord>): (ps: seq<string>)
    ensures StrictlyAscending(ps)
    ensures forall p :: p in ps <==> exists r :: r in rs && r.project == p
  {
    var c := Column(rs, ProjectOf);
    forall p ensures p in c <==> exists r :: r in rs && r.project == p {
      ColumnMember(rs, ProjectOf, p);
    }
    SortDistinct(c)
  }

  /** `getPhases`: every non-empty stored phase once, ascending. */
  function Phases(rs: seq<HourRecord>): (ps: seq<string>)
    ensures StrictlyAscending(ps)
    ensures forall p :: p in ps <==> p != "" && exists r :: r in rs && r.phase == p
  {
    var withPhase := Select(rs, (r: HourRecord) => r.phase != "");
    SelectMembers(rs, (r: HourRecord) => r.phase != "");
    var c := Column(withPhase, (r: HourRecord) => r.phase);
    forall p ensures p in c <==> exists r :: r in withPhase && r.phase == p {
      ColumnMember(withPhase, (r: HourRecord) => r.phase, p);
    }
    SortDistinct(c)
  }

  datatype DateRange = DateRange(earliestDate: Option<string>, latestDate: Option<string>, weekCount: nat)

  /** `getDataDateRange`: the first and last stored week (NULL with no rows) and the number of distinct weeks. */
  function DataDateRange(rs: seq<HourRecord>): (d: DateRange)
    ensures d.earliestDate.None? <==> rs == []
    ensures d.latestDate.None? <==> rs == []
    ensures d.weekCount == |Weeks(rs)|
    ensures d.earliestDate.Some? ==> (exists r :: r in rs && r.weekStartDate == d.earliestDate.value) &&
                                     forall r :: r in rs ==> StrLe(d.earliestDate.value, r.weekStartDate)
    ensures d.latestDate.Some? ==> (exists r :: r in rs && r.weekStartDate == d.latestDate.value) &&
                                   forall r :: r in rs ==> StrLe(r.weekStartDate, d.latestDate.value)
  {
    var ws := Weeks(rs);
    assert rs != [] ==> rs[0].weekStartDate in ws;
    if ws == [] then DateRange(None, None, 0)
    else
      assert ws[0] in ws && ws[|ws| - 1] in ws;
      forall r | r in rs ensures StrLe(ws[0], r.weekStartDate) && StrLe(r.weekStartDate, ws[|ws| - 1]) {
        assert r.weekStartDate in ws;
        var k :| 0 <= k < |ws| && ws[k] == r.weekStartDate;
        if k > 0 {
          assert StrLt(ws[0], ws[k]);
        } else {
          StrLeReflexive(ws[0]);
        }
        if k < |ws| - 1 {
          assert StrLt(ws[k], ws[|ws| - 1]);
        } else {
          StrLeReflexive(ws[k]);
        }
      }
      DateRange(Some(ws[0]), Some(ws[|ws| - 1]), |ws|)
  }
}
