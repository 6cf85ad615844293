/**
 * The allocation queries: pools over their weekly threshold, named people
 * over theirs, and people whose average utilization stays below a threshold.
 * A NULL threshold (a parameter that did not parse as a number) makes every
 * comparison with it unknown, so the query returns no rows.
 */
module Allocation {
  import opened Wrappers
  import opened Text
  import opened Numbers
  import opened Ordering
  import opened Records
  import opened Query
  import opened Demand

  /** The projects of some rows (`GROUP_CONCAT(DISTINCT project)`, order not kept). */
  function ProjectSet(g: seq<HourRecord>): (ps: set<string>)
    ensures forall p :: p in ps <==> exists r :: r in g && r.project == p
  {
    set r | r in g :: r.project
  }

  // ---------------------------------------------------------------------
  // Over-allocated pools

  /** The pool patterns: five name fragments or the placeholder employee-id prefix. */
  predicate IsPoolLike(r: HourRecord)
  {
    LikeContains(r.resourceName, "General") || LikeContains(r.resourceName, "Pool") ||
    LikeContains(r.resourceName, "TBD") || LikeContains(r.resourceName, "Placeholder") ||
    LikeContains(r.resourceName, "Offshore") || LikePrefix(r.employeeId, "9999999")
  }

  /** Pools are grouped by name and week, not by employee. */
  function NameWeek(r: HourRecord): (string, string) { (r.resourceName, r.weekStartDate) }

  datatype PoolRow = PoolRow(resourceName: string, weekStartDate: string, totalHours: real, impliedFte: real, projects: set<string>)

  function PoolTotal(p: PoolRow): real { p.totalHours }

  function PoolKey(p: PoolRow): (string, string) { (p.resourceName, p.weekStartDate) }

  /** The pool rows of the window. */
  function PoolRecords(rs: seq<HourRecord>, startDate: string, endDate: string): (ps: seq<HourRecord>)
    ensures forall r :: r in ps <==> r in rs && InWindow(r, startDate, endDate) && IsPoolLike(r)
  {
    SelectMembers(Window(rs, startDate, endDate), IsPoolLike);
    Select(Window(rs, startDate, endDate), IsPoolLike)
  }

  function PoolRowOf(ps: seq<HourRecord>, k: (string, string)): PoolRow
  {
    var g := Group(ps, NameWeek, k);
    PoolRow(k.0, k.1, SumHours(g), SqlRound(SumHours(g) / 40.0, 1), ProjectSet(g))
  }

  /**
   * `getOverAllocatedPools`: the (name, week) groups of pool rows whose
   * total exceeds the threshold, largest total first.
   */
  function OverAllocatedPools(rs: seq<HourRecord>, startDate: string, endDate: string, threshold: Option<real>): (out: seq<PoolRow>)
    ensures Descending(out, PoolTotal)
    ensures forall x :: x in out <==>
              threshold.Some? && x == PoolRowOf(PoolRecords(rs, startDate, endDate), (x.resourceName, x.weekStartDate)) &&
              (exists r :: r in PoolRecords(rs, startDate, endDate) && NameWeek(r) == (x.resourceName, x.weekStartDate)) &&
              x.totalHours > threshold.value
    ensures DistinctKeys(out, PoolKey)
  {
    if threshold.None? then []
    else
      var ps := PoolRecords(rs, startDate, endDate);
      var keep := (k: (string, string)) => SumHours(Group(ps, NameWeek, k)) > threshold.value;
      var ks := Select(Keys(ps, NameWeek), keep);
      var f := (k: (string, string)) => PoolRowOf(ps, k);
      var rows := Column(ks, f);
      var out := SortDescending(rows, PoolTotal);
      SelectNoDuplicates(Keys(ps, NameWeek), keep);
      assert DistinctKeys(rows, PoolKey);
      PermutationDistinctKeys(rows, out, PoolKey);
      forall x ensures x in out <==> x == PoolRowOf(ps, (x.resourceName, x.weekStartDate)) &&
                                     (exists r :: r in ps && NameWeek(r) == (x.resourceName, x.weekStartDate)) &&
                                     x.totalHours > threshold.value {
        MultisetMember(out, rows, x);
        ColumnMember(ks, f, x);
        var k := (x.resourceName, x.weekStartDate);
        SelectMember(Keys(ps, NameWeek), keep, k);
        if x in rows {
          var k' :| k' in ks && f(k') == x;
          assert k' == k;
        }
      }
      out
  }

  /** A pool row totals exactly the in-window pool rows of its name and week, and lists exactly their projects. */
  lemma PoolRowMeaning(ps: seq<HourRecord>, k: (string, string), r: HourRecord)
    ensures r in Group(ps, NameWeek, k) <==> r in ps && r.resourceName == k.0 && r.weekStartDate == k.1
    ensures PoolRowOf(ps, k).projects == ProjectSet(Group(ps, NameWeek, k))
  {
    GroupMember(ps, NameWeek, k, r);
  }

  // ---------------------------------------------------------------------
  // Over-allocated individuals

  /** The rows the individuals query keeps: none of the four pool patterns of the pool/named breakdown. */
  predicate IsIndividual(r: HourRecord)
  {
    !IsPoolOrPlaceholder(r)
  }

  datatype RiskLevel = Critical | Warning | Normal

  /** The fixed risk cut-offs, independent of the threshold. */
  function Risk(totalHours: real): (level: RiskLevel)
    ensures level == Critical <==> totalHours > 55.0
    ensures level == Warning <==> 45.0 < totalHours <= 55.0
    ensures level == Normal <==> totalHours <= 45.0
  {
    if totalHours > 55.0 then Critical
    else if totalHours > 45.0 then Warning
    else Normal
  }

  datatype IndividualRow = IndividualRow(employeeId: string, resourceName: string, weekStartDate: string,
                                         totalHours: real, hoursOver: real, riskLevel: RiskLevel, projects: set<string>)

  function IndividualTotal(p: IndividualRow): real { p.totalHours }

  function EmployeeNameWeek(r: HourRecord): (string, string, string) { (r.employeeId, r.resourceName, r.weekStartDate) }

  function IndividualRecords(rs: seq<HourRecord>, startDate: string, endDate: string): (ps: seq<HourRecord>)
    ensures forall r :: r in ps <==> r in rs && InWindow(r, startDate, endDate) && IsIndividual(r)
  {
    SelectMembers(Window(rs, startDate, endDate), IsIndividual);
    Select(Window(rs, startDate, endDate), IsIndividual)
  }

  function IndividualRowOf(ps: seq<HourRecord>, k: (string, string, string), threshold: real): IndividualRow
  {
    var t := SumHours(Group(ps, EmployeeNameWeek, k));
    IndividualRow(k.0, k.1, k.2, t, t - threshold, Risk(t), ProjectSet(Group(ps, EmployeeNameWeek, k)))
  }

  function RowKey(x: IndividualRow): (string, string, string) { (x.employeeId, x.resourceName, x.weekStartDate) }

  /**
   * `getOverAllocatedIndividuals`: the (employee, name, week) groups of
   * non-pool rows whose total exceeds the threshold, largest total first.
   */
  function OverAllocatedIndividuals(rs: seq<HourRecord>, startDate: string, endDate: string, threshold: Option<real>): (out: seq<IndividualRow>)
    ensures Descending(out, IndividualTotal)
    ensures forall x :: x in out <==>
              threshold.Some? && x == IndividualRowOf(IndividualRecords(rs, startDate, endDate), RowKey(x), threshold.value) &&
              (exists r :: r in IndividualRecords(rs, startDate, endDate) && EmployeeNameWeek(r) == RowKey(x)) &&
              x.totalHours > threshold.value
    ensures DistinctKeys(out, RowKey)
  {
    if threshold.None? then []
    else
      var ps := IndividualRecords(rs, startDate, endDate);
      var keep := (k: (string, string, string)) => SumHours(Group(ps, EmployeeNameWeek, k)) > threshold.value;
      var ks := Select(Keys(ps, EmployeeNameWeek), keep);
      var f := (k: (string, string, string)) => IndividualRowOf(ps, k, threshold.value);
      var rows := Column(ks, f);
      var out := SortDescending(rows, IndividualTotal);
      SelectNoDuplicates(Keys(ps, EmployeeNameWeek), keep);
      assert DistinctKeys(rows, RowKey);
      PermutationDistinctKeys(rows, out, RowKey);
      forall x ensures x in out <==> x == IndividualRowOf(ps, RowKey(x), threshold.value) &&
                                     (exists r :: r in ps && EmployeeNameWeek(r) == RowKey(x)) &&
                                     x.totalHours > threshold.value {
        MultisetMember(out, rows, x);
        ColumnMember(ks, f, x);
        SelectMember(Keys(ps, EmployeeNameWeek), keep, RowKey(x));
        if x in rows {
          var k' :| k' in ks && f(k') == x;
          assert k' == RowKey(x);
        }
      }
      out
  }

  /** Every listed individual is over the threshold by a positive amount. */
  lemma IndividualsOverThreshold(rs: seq<HourRecord>, startDate: string, endDate: string, threshold: Option<real>, x: IndividualRow)
    requires x in OverAllocatedIndividuals(rs, startDate, endDate, threshold)
    ensures x.hoursOver > 0.0 && x.hoursOver == x.totalHours - threshold.value
  {
  }

  /**
   * The two queries use different pattern lists: a name that matches
   * 'Placeholder' or 'Offshore' but none of 'General', 'Pool' and 'TBD', under
   * an ID that does not start with the placeholder prefix, is a pool for the
   * pool query and still an individual for the individuals query.
   */
  lemma PoolsAndIndividualsOverlap(r: HourRecord)
    requires LikeContains(r.resourceName, "Placeholder") || LikeContains(r.resourceName, "Offshore")
    requires !LikeContains(r.resourceName, "General") && !LikeContains(r.resourceName, "Pool") && !LikeContains(r.resourceName, "TBD")
    requires !LikePrefix(r.employeeId, "9999999")
    ensures IsPoolLike(r) && IsIndividual(r)
  {
  }

  /** A row named "Offshore" under employee ID "1" is such a row. */
  lemma OffshoreRowOverlaps(r: HourRecord)
    requires r.resourceName == "Offshore" && r.employeeId == "1"
    ensures IsPoolLike(r) && IsIndividual(r)
  {
    UpperOffshore();
    assert LikeContains(r.resourceName, "Offshore");
    OffshoreNotNarrowPool(r.resourceName);
    assert |ToUpper("9999999")| > |ToUpper("1")|;
    PoolsAndIndividualsOverlap(r);
  }

  lemma UpperOffshore()
    ensures ToUpper("Offshore") == "OFFSHORE"
  {
  }

  /** "Offshore" matches none of the name patterns the individuals query excludes. */
  lemma OffshoreNotNarrowPool(name: string)
    requires name == "Offshore"
    ensures !LikeContains(name, "General") && !LikeContains(name, "Pool") && !LikeContains(name, "TBD")
  {
    OffshoreNotGeneral();
    OffshoreNotPool();
    OffshoreNotTbd();
  }

  lemma OffshoreNotGeneral()
    ensures !LikeContains("Offshore", "General")
  {
    UpperOffshore();
    UpperGeneral();
    NotContains("OFFSHORE", "GENERAL");
  }

  lemma OffshoreNotPool()
    ensures !LikeContains("Offshore", "Pool")
  {
    UpperOffshore();
    UpperPool();
    NotContains("OFFSHORE", "POOL");
  }

  lemma OffshoreNotTbd()
    ensures !LikeContains("Offshore", "TBD")
  {
    UpperOffshore();
    UpperTbd();
    NotContains("OFFSHORE", "TBD");
  }

  lemma UpperPool()
    ensures ToUpper("Pool") == "POOL"
  {
  }

  lemma UpperTbd()
    ensures ToUpper("TBD") == "TBD"
  {
  }

  lemma UpperGeneral()
    ensures ToUpper("General") == "GENERAL"
  {
  }

  /** A pattern whose first letter does not occur in the text is not contained in it. */
  lemma NotContains(s: string, pat: string)
    requires pat != [] && pat[0] !in s
    ensures !ContainsSub(s, pat)
  {
    ContainsSubIffOccurs(s, pat);
  }

  // ---------------------------------------------------------------------
  // Under-allocated resources

  function EmployeeName(r: HourRecord): (string, string) { (r.employeeId, r.resourceName) }

  datatype UnderRow = UnderRow(employeeId: string, resourceName: string, avgHoursPerWeek: real, avgUtilizationPct: real, weeksCount: nat)

  function UnderKey(u: UnderRow): real { -u.avgUtilizationPct }

  function UnderPair(u: UnderRow): (string, string) { (u.employeeId, u.resourceName) }

  /** The weekly totals of one (employee, name) pair, over the weeks in which it has rows. */
  function PairWeeklySums(w: seq<HourRecord>, k: (string, string)): seq<real>
  {
    var g := Group(w, EmployeeName, k);
    GroupSums(g, WeekOf, Weeks(g))
  }

  /** `AVG(weekly_hours)` of one pair. */
  function AvgHours(w: seq<HourRecord>, k: (string, string)): real
  {
    var sums := PairWeeklySums(w, k);
    if sums == [] then 0.0 else Sum(sums) / (|sums| as real)
  }

  function UnderRowOf(w: seq<HourRecord>, k: (string, string)): UnderRow
  {
    var avg := AvgHours(w, k);
    UnderRow(k.0, k.1, SqlRound(avg, 1), SqlRound(avg / 40.0 * 100.0, 1), |PairWeeklySums(w, k)|)
  }

  /** The `HAVING` and `WHERE` of the outer query, with NULL parameters failing both. */
  predicate UnderKept(u: UnderRow, threshold: Option<real>, minWeeks: Option<int>)
  {
    threshold.Some? && minWeeks.Some? && u.weeksCount >= minWeeks.value && u.avgUtilizationPct < threshold.value
  }

  /**
   * `getUnderAllocatedResources`: the (employee, name) pairs with at least
   * `minWeeks` weeks of rows whose average utilization is below the
   * threshold, lowest utilization first.
   */
  function UnderAllocated(rs: seq<HourRecord>, startDate: string, endDate: string, threshold: Option<real>, minWeeks: Option<int>): (out: seq<UnderRow>)
    ensures forall i, j :: 0 <= i < j < |out| ==> out[i].avgUtilizationPct <= out[j].avgUtilizationPct
    ensures forall x :: x in out <==>
              (exists r :: r in Window(rs, startDate, endDate) && EmployeeName(r) == (x.employeeId, x.resourceName)) &&
              x == UnderRowOf(Window(rs, startDate, endDate), (x.employeeId, x.resourceName)) &&
              UnderKept(x, threshold, minWeeks)
    ensures DistinctKeys(out, UnderPair)
  {
    var w := Window(rs, startDate, endDate);
    var f := (k: (string, string)) => UnderRowOf(w, k);
    var rows := Column(Keys(w, EmployeeName), f);
    var p := (u: UnderRow) => UnderKept(u, threshold, minWeeks);
    var kept := Select(rows, p);
    var out := SortDescending(kept, UnderKey);
    assert DistinctKeys(rows, UnderPair);
    SelectDistinctKeys(rows, p, UnderPair);
    PermutationDistinctKeys(kept, out, UnderPair);
    forall x ensures x in out <==>
        (exists r :: r in w && EmployeeName(r) == (x.employeeId, x.resourceName)) && x == UnderRowOf(w, (x.employeeId, x.resourceName)) &&
        UnderKept(x, threshold, minWeeks) {
      MultisetMember(out, kept, x);
      SelectMember(rows, p, x);
      KeyedMember(Keys(w, EmployeeName), f, (u: UnderRow) => (u.employeeId, u.resourceName), x);
    }
    out
  }

  /**
   * A pair's average is over the weeks in which it has rows only: its total
   * hours divided by the number of those weeks, and that number is at least one.
   */
  lemma AverageOverActiveWeeks(w: seq<HourRecord>, k: (string, string))
    requires exists r :: r in w && EmployeeName(r) == k
    ensures |PairWeeklySums(w, k)| >= 1
    ensures AvgHours(w, k) == SumHours(Group(w, EmployeeName, k)) / (|PairWeeklySums(w, k)| as real)
  {
    var g := Group(w, EmployeeName, k);
    var r :| r in w && EmployeeName(r) == k;
    GroupMember(w, EmployeeName, k, r);
    assert r.weekStartDate in Weeks(g);
    SumOfGroupSums(g, WeekOf, Weeks(g));
    AscendingNoDuplicates(Weeks(g));
    SumGroupsTotal(g, WeekOf, Weeks(g));
  }
}
