/**
 * The analytics endpoints: how each resolves its date window and its numeric
 * parameters from the query string, and the two composite responses
 * (implied FTE with its summary, demand realism with its score).
 */
module Routes {
  import opened Wrappers
  import opened Numbers
  import opened Records
  import opened Query
  import opened Demand
  import opened Allocation
  import opened Heatmap
  import Utilization

  /** A date window: inclusive `yyyy-MM-dd` bounds. */
  datatype DateWindow = DateWindow(startDate: string, endDate: string)

  /** The query-string parameters an endpoint may read; `None` is an absent parameter. */
  datatype Params = Params(
    startDate: Option<string>, endDate: Option<string>, demandType: Option<string>,
    threshold: Option<string>, minWeeks: Option<string>, topN: Option<string>)

  const PoolThreshold: real := 40.0
  const IndividualThreshold: real := 45.0
  const UnderThreshold: real := 60.0
  const DefaultMinWeeks: int := 4
  const DefaultTopN: int := 20

  /** A parameter JavaScript treats as true: present and not the empty string. */
  predicate Given(p: Option<string>)
  {
    p.Some? && p.value != ""
  }

  /**
   * The caller's window when both bounds are given, otherwise the default
   * window (today to 26 weeks ahead, read from the clock and passed in) for
   * both bounds: a window is never half the caller's and half the default.
   */
  function ResolveWindow(q: Params, defaultWindow: DateWindow): (w: DateWindow)
    ensures Given(q.startDate) && Given(q.endDate) ==> w == DateWindow(q.startDate.value, q.endDate.value)
    ensures !Given(q.startDate) || !Given(q.endDate) ==> w == defaultWindow
  {
    if Given(q.startDate) && Given(q.endDate) then DateWindow(q.startDate.value, q.endDate.value)
    else defaultWindow
  }

  /** `q ? parseFloat(q) : dflt`; `None` is `NaN`, which SQLite receives as NULL. */
  function RealParam(p: Option<string>, dflt: real): (v: Option<real>)
    ensures !Given(p) ==> v == Some(dflt)
    ensures Given(p) ==> v == ParseFloat(p.value)
  {
    if Given(p) then ParseFloat(p.value) else Some(dflt)
  }

  /** `q ? parseInt(q) : dflt`; `None` is `NaN`. */
  function IntParam(p: Option<string>, dflt: int): (v: Option<int>)
    ensures !Given(p) ==> v == Some(dflt)
    ensures Given(p) ==> v == ParseInt(p.value)
  {
    if Given(p) then ParseInt(p.value) else Some(dflt)
  }

  /** An absent numeric parameter takes its documented default: 40, 45 and 60 for the thresholds, 4 weeks, top 20. */
  lemma Defaults(q: Params)
    requires q.threshold.None? && q.minWeeks.None? && q.topN.None?
    ensures RealParam(q.threshold, PoolThreshold) == Some(40.0)
    ensures RealParam(q.threshold, IndividualThreshold) == Some(45.0)
    ensures RealParam(q.threshold, UnderThreshold) == Some(60.0)
    ensures IntParam(q.minWeeks, DefaultMinWeeks) == Some(4)
    ensures IntParam(q.topN, DefaultTopN) == Some(20)
  {
  }

  /** `GET /demand-trend`. */
  function DemandTrendRoute(rs: seq<HourRecord>, q: Params, defaultWindow: DateWindow): seq<WeeklyDemand>
  {
    var w := ResolveWindow(q, defaultWindow);
    WeeklyDemandTrend(rs, w.startDate, w.endDate, q.demandType)
  }

  /** `GET /demand-by-type`. */
  function DemandByTypeRoute(rs: seq<HourRecord>, q: Params, defaultWindow: DateWindow): seq<WeeklyTypeDemand>
  {
    var w := ResolveWindow(q, defaultWindow);
    WeeklyDemandByType(rs, w.startDate, w.endDate)
  }

  datatype ImpliedFteResponse = ImpliedFteResponse(data: seq<WeeklyFte>, summary: FteSummary)

  /** `GET /implied-fte`: the weekly series and its summary over the same window. */
  function ImpliedFteRoute(rs: seq<HourRecord>, q: Params, defaultWindow: DateWindow): (r: ImpliedFteResponse)
    ensures var w := ResolveWindow(q, defaultWindow);
            r.data == ImpliedFte(rs, w.startDate, w.endDate) && r.summary == GetFteSummary(rs, w.startDate, w.endDate)
  {
    var w := ResolveWindow(q, defaultWindow);
    ImpliedFteResponse(ImpliedFte(rs, w.startDate, w.endDate), GetFteSummary(rs, w.startDate, w.endDate))
  }

  /** The summary exists exactly when the series has weeks, and bounds every week's FTE. */
  lemma ImpliedFteConsistent(rs: seq<HourRecord>, startDate: string, endDate: string)
    ensures var data := ImpliedFte(rs, startDate, endDate);
            var s := GetFteSummary(rs, startDate, endDate);
            (s.avgFte.None? <==> data == []) &&
            (s.avgFte.Some? ==>
              s.minFte.value <= s.avgFte.value <= s.peakFte.value &&
              forall i :: 0 <= i < |data| ==> s.minFte.value <= data[i].impliedFte <= s.peakFte.value)
  {
    var data := ImpliedFte(rs, startDate, endDate);
    var sums := WeeklySums(rs, startDate, endDate);
    assert |data| == |sums|;
    if sums != [] {
      SummaryBounds(sums);
      assert forall i :: 0 <= i < |data| ==> data[i].impliedFte == Fte(sums[i]);
    }
  }

  function UtilizationRoute(rs: seq<HourRecord>, q: Params, defaultWindow: DateWindow): seq<Utilization.BucketRow>
  {
    var w := ResolveWindow(q, defaultWindow);
    Utilization.UtilizationDistribution(rs, w.startDate, w.endDate)
  }

  /** `GET /over-allocated-pools`: threshold 40 unless given. */
  function OverAllocatedPoolsRoute(rs: seq<HourRecord>, q: Params, defaultWindow: DateWindow): seq<PoolRow>
  {
    var w := ResolveWindow(q, defaultWindow);
    OverAllocatedPools(rs, w.startDate, w.endDate, RealParam(q.threshold, PoolThreshold))
  }

  /** `GET /over-allocated-individuals`: threshold 45 unless given. */
  function OverAllocatedIndividualsRoute(rs: seq<HourRecord>, q: Params, defaultWindow: DateWindow): seq<IndividualRow>
  {
    var w := ResolveWindow(q, defaultWindow);
    OverAllocatedIndividuals(rs, w.startDate, w.endDate, RealParam(q.threshold, IndividualThreshold))
  }

  /** `GET /under-allocated`: threshold 60 and at least 4 weeks unless given. */
  function UnderAllocatedRoute(rs: seq<HourRecord>, q: Params, defaultWindow: DateWindow): seq<UnderRow>
  {
    var w := ResolveWindow(q, defaultWindow);
    UnderAllocated(rs, w.startDate, w.endDate, RealParam(q.threshold, UnderThreshold), IntParam(q.minWeeks, DefaultMinWeeks))
  }

  /**
   * `GET /heatmap`: top 20 unless given. A `topN` that `parseInt` cannot read
   * reaches SQLite as a NULL `LIMIT`, which it rejects; the handler then
   * answers with its error.
   */
  function HeatmapRoute(rs: seq<HourRecord>, q: Params, defaultWindow: DateWindow): (r: Option<seq<HeatCell>>)
    ensures r.None? <==> IntParam(q.topN, DefaultTopN).None?
    ensures r.Some? ==>
              var w := ResolveWindow(q, defaultWindow);
              r.value == HeatmapData(rs, w.startDate, w.endDate, IntParam(q.topN, DefaultTopN).value)
    ensures !Given(q.topN) ==> r.Some? && r.value == HeatmapData(rs, ResolveWindow(q, defaultWindow).startDate, ResolveWindow(q, defaultWindow).endDate, 20)
    ensures r.Some? ==> DistinctKeys(r.value, CellKey)
  {
    var w := ResolveWindow(q, defaultWindow);
    match IntParam(q.topN, DefaultTopN)
    case None => None
    case Some(n) => Some(HeatmapData(rs, w.startDate, w.endDate, n))
  }

  // ---------------------------------------------------------------------
  // Demand realism

  /** `rows.find(r => r.resourceType === group)`: the first share of the group. */
  function FindShare(rows: seq<Share>, group: string): (r: Option<Share>)
    ensures r.Some? ==> r.value in rows && r.value.group == group
    ensures r.Some? ==> exists i :: 0 <= i < |rows| && rows[i] == r.value && forall j :: 0 <= j < i ==> rows[j].group != group
    ensures r.None? ==> forall i :: 0 <= i < |rows| ==> rows[i].group != group
  {
    if rows == [] then None
    else if rows[0].group == group then Some(rows[0])
    else FindShare(rows[1..], group)
  }

  /** `row?.pctOfTotal || 0`: a missing row, a NULL percentage and 0 all give 0. */
  function PctOf(row: Option<Share>): real
  {
    match row
    case None => 0.0
    case Some(s) => s.pctOfTotal.GetOr(0.0)
  }

  /** `Math.round(namedPct * 0.6 + 40)`. */
  function RealismScore(namedPct: real): (score: int)
    ensures 0.0 <= namedPct <= 100.0 ==> 40 <= score <= 100
    ensures namedPct == 0.0 ==> score == 40
  {
    var x := namedPct * 0.6 + 40.0;
    assert 0.0 <= namedPct <= 100.0 ==> 40 <= MathRound(x) <= 100 by {
      if 0.0 <= namedPct <= 100.0 {
        MathRoundMonotone(40.0, x);
        MathRoundMonotone(x, 100.0);
      }
    }
    MathRound(x)
  }

  datatype RealismResponse = RealismResponse(
    metrics: RealismMetrics, poolVsNamed: seq<Share>, demandTypeBreakdown: seq<Share>, realismScore: int)

  /** `GET /demand-realism`: the metrics, both breakdowns and the score, all over one window; the pool share is not used. */
  function DemandRealismRoute(rs: seq<HourRecord>, q: Params, defaultWindow: DateWindow): (r: RealismResponse)
    ensures var w := ResolveWindow(q, defaultWindow);
            r.metrics == GetRealismMetrics(rs, w.startDate, w.endDate) &&
            r.poolVsNamed == PoolVsNamed(rs, w.startDate, w.endDate) &&
            r.demandTypeBreakdown == DemandTypeBreakdown(rs, w.startDate, w.endDate)
    ensures r.realismScore == RealismScore(PctOf(FindShare(r.poolVsNamed, NamedLabel)))
  {
    var w := ResolveWindow(q, defaultWindow);
    var metrics := GetRealismMetrics(rs, w.startDate, w.endDate);
    var poolVsNamed := PoolVsNamed(rs, w.startDate, w.endDate);
    var demandTypeBreakdown := DemandTypeBreakdown(rs, w.startDate, w.endDate);
    var namedPct := PctOf(FindShare(poolVsNamed, NamedLabel));
    RealismResponse(metrics, poolVsNamed, demandTypeBreakdown, RealismScore(namedPct))
  }

  /** With no rows in the window the score is 40. */
  lemma EmptyWindowScore(rs: seq<HourRecord>, q: Params, defaultWindow: DateWindow)
    requires var w := ResolveWindow(q, defaultWindow);
             forall r :: r in rs ==> !InWindow(r, w.startDate, w.endDate)
    ensures DemandRealismRoute(rs, q, defaultWindow).realismScore == 40
  {
    var w := ResolveWindow(q, defaultWindow);
    var groups := Column(PoolVsNamed(rs, w.startDate, w.endDate), ShareGroup);
    HeadIsMember(groups);
    assert groups == [];
  }

  lemma HeadIsMember<T>(s: seq<T>)
    ensures |s| > 0 ==> s[0] in s
  {
  }

  /** For stored hours (all positive) the named share is a percentage, so the score stays within 40 to 100. */
  lemma RealismScoreRange(rs: seq<HourRecord>, q: Params, defaultWindow: DateWindow)
    requires forall r :: r in rs ==> r.hours > 0.0
    ensures 40 <= DemandRealismRoute(rs, q, defaultWindow).realismScore <= 100
  {
    var w := ResolveWindow(q, defaultWindow);
    var pv := PoolVsNamed(rs, w.startDate, w.endDate);
    var found := FindShare(pv, NamedLabel);
    NamedPctRange(rs, w.startDate, w.endDate, found);
  }

  lemma NamedPctRange(rs: seq<HourRecord>, startDate: string, endDate: string, found: Option<Share>)
    requires forall r :: r in rs ==> r.hours > 0.0
    requires found.Some? ==> found.value in PoolVsNamed(rs, startDate, endDate) && found.value.group == NamedLabel
    ensures 0.0 <= PctOf(found) <= 100.0
  {
    if found.Some? {
      var win := Window(rs, startDate, endDate);
      NamedRowIsShare(rs, startDate, endDate, found.value);
      WindowPositive(rs, startDate, endDate);
      SharePctWithin(win, NamedLabel);
    }
  }

  lemma NamedRowIsShare(rs: seq<HourRecord>, startDate: string, endDate: string, row: Share)
    requires row in PoolVsNamed(rs, startDate, endDate)
    ensures row == ShareOf(Window(rs, startDate, endDate), ResourceType, row.group)
  {
    var pv := PoolVsNamed(rs, startDate, endDate);
    var i :| 0 <= i < |pv| && pv[i] == row;
  }

  lemma WindowPositive(rs: seq<HourRecord>, startDate: string, endDate: string)
    requires forall r :: r in rs ==> r.hours > 0.0
    ensures var win := Window(rs, startDate, endDate);
            forall j :: 0 <= j < |win| ==> win[j].hours > 0.0
  {
    var win := Window(rs, startDate, endDate);
    assert forall j :: 0 <= j < |win| ==> win[j] in win;
  }

  /** A group's share of a window of positive rows is a percentage between 0 and 100, when there is one. */
  lemma SharePctWithin(win: seq<HourRecord>, k: string)
    requires forall j :: 0 <= j < |win| ==> win[j].hours > 0.0
    ensures ShareOf(win, ResourceType, k).pctOfTotal.Some? ==> 0.0 <= ShareOf(win, ResourceType, k).pctOfTotal.value <= 100.0
  {
    if ShareOf(win, ResourceType, k).pctOfTotal.Some? {
      GroupSumBetween(win, ResourceType, k);
      ShareWithin(SumHours(Group(win, ResourceType, k)), SumHours(win));
    }
  }

  /** A part of a positive total, as a rounded percentage, lies between 0 and 100. */
  lemma ShareWithin(part: real, total: real)
    requires 0.0 <= part <= total && total > 0.0
    ensures 0.0 <= PctOfTotal(part, total).value <= 100.0
  {
    var x := part * 100.0 / total;
    QuotientBetween(0.0, part * 100.0, 100.0, total);
    SqlRoundWithin(x, 1, 0, 100);
  }
}
