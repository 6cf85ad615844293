/**
 * The heatmap: the `topN` (employee, name) pairs with the highest weekly
 * peak, and one cell per week for each of them, ordered by peak and then by
 * week. The query as written joins the cells to the selected pairs on the
 * employee id alone; `AsWrittenHours` models that join, `Heatmap` the join on
 * the whole pair that the query evidently intends.
 */
module Heatmap {
  import opened Numbers
  import opened Ordering
  import opened Records
  import opened Query
  import opened Demand
  import opened Allocation

  /** `MAX(weekly_hours)` of a pair; 0 for a pair without rows, which never reaches the ranking. */
  function Peak(w: seq<HourRecord>, p: (string, string)): real
  {
    var sums := PairWeeklySums(w, p);
    if sums == [] then 0.0 else Max(sums)
  }

  function PeakOf(w: seq<HourRecord>): ((string, string)) -> real
  {
    p => Peak(w, p)
  }

  /** The pairs with rows in the window, highest peak first. */
  function Ranked(w: seq<HourRecord>): (ranked: seq<(string, string)>)
    ensures Descending(ranked, PeakOf(w))
    ensures forall p :: p in ranked <==> exists r :: r in w && EmployeeName(r) == p
    ensures NoDuplicates(ranked)
    ensures |ranked| == |set r | r in w :: EmployeeName(r)|
  {
    var ks := Keys(w, EmployeeName);
    var ranked := SortDescending(ks, PeakOf(w));
    forall p ensures p in ranked <==> p in ks {
      MultisetMember(ranked, ks, p);
    }
    PermutationNoDuplicates(ks, ranked);
    PairCount(w);
    assert |ranked| == |ks| by {
      assert |multiset(ranked)| == |multiset(ks)|;
    }
    ranked
  }

  /** The (employee, name) pairs of the window are as many as its distinct pairs. */
  lemma {:induction false} PairCount(w: seq<HourRecord>)
    ensures |Keys(w, EmployeeName)| == |set r | r in w :: EmployeeName(r)|
  {
    var ks := Keys(w, EmployeeName);
    NoDuplicatesCard(ks);
    assert (set k | k in ks) == (set r | r in w :: EmployeeName(r));
  }

  /** The first rows of a ranking keep its order, have no duplicates when it has none, and outrank every row cut off. */
  lemma LimitOfRanking<T>(xs: seq<T>, n: int, key: T -> real)
    requires Descending(xs, key) && NoDuplicates(xs)
    ensures Descending(Limit(xs, n), key) && NoDuplicates(Limit(xs, n))
    ensures forall x :: x in Limit(xs, n) ==> x in xs
    ensures forall p, q :: p in xs && p !in Limit(xs, n) && q in Limit(xs, n) ==> key(p) <= key(q)
  {
    var top := Limit(xs, n);
    assert forall k :: 0 <= k < |top| ==> top[k] == xs[k];
    forall p, q | p in xs && p !in top && q in top ensures key(p) <= key(q) {
      var i :| 0 <= i < |xs| && xs[i] == p;
      var j :| 0 <= j < |top| && top[j] == q;
      assert |top| <= i;
    }
  }

  /**
   * The `peak_demand` CTE: the first `topN` pairs of the ranking, or all of
   * them when there are fewer pairs (or when `topN` is negative, which
   * SQLite reads as no limit).
   */
  function TopPairs(w: seq<HourRecord>, topN: int): (top: seq<(string, string)>)
    ensures |top| <= |Ranked(w)| && top == Ranked(w)[..|top|]
    ensures Descending(top, PeakOf(w))
    ensures forall p :: p in top ==> exists r :: r in w && EmployeeName(r) == p
    ensures NoDuplicates(top)
    ensures var pairs := |set r | r in w :: EmployeeName(r)|;
            topN >= 0 ==> |top| == if topN < pairs then topN else pairs
    ensures topN < 0 ==> forall r :: r in w ==> EmployeeName(r) in top
  {
    var ranked := Ranked(w);
    LimitOfRanking(ranked, topN, PeakOf(w));
    Limit(ranked, topN)
  }

  /** A pair left out of the selection peaks no higher than any selected pair. */
  lemma TopPairsAreTop(w: seq<HourRecord>, topN: int, p: (string, string), q: (string, string))
    requires (exists r :: r in w && EmployeeName(r) == p) && p !in TopPairs(w, topN)
    requires q in TopPairs(w, topN)
    ensures Peak(w, p) <= Peak(w, q)
  {
    LimitOfRanking(Ranked(w), topN, PeakOf(w));
    assert PeakOf(w)(p) <= PeakOf(w)(q);
  }

  datatype HeatCell = HeatCell(employeeId: string, resourceName: string, weekStartDate: string, hours: real, utilizationPct: real)

  function CellPair(c: HeatCell): (string, string) { (c.employeeId, c.resourceName) }

  function CellKey(c: HeatCell): (string, string, string) { (c.employeeId, c.resourceName, c.weekStartDate) }

  function CellOf(w: seq<HourRecord>, k: (string, string, string)): HeatCell
  {
    var t := SumHours(Group(w, EmployeeNameWeek, k));
    HeatCell(k.0, k.1, k.2, t, SqlRound(t / 40.0 * 100.0, 0))
  }

  /** `ORDER BY pd.peak_hours DESC, h.week_start_date`. */
  function HeatOrder(w: seq<HourRecord>): (HeatCell, HeatCell) -> bool
  {
    (a: HeatCell, b: HeatCell) =>
      Peak(w, CellPair(a)) > Peak(w, CellPair(b)) ||
      (Peak(w, CellPair(a)) == Peak(w, CellPair(b)) && StrLe(a.weekStartDate, b.weekStartDate))
  }

  lemma HeatOrderTotal(w: seq<HourRecord>)
    ensures TotalPreorder(HeatOrder(w))
  {
    var le := HeatOrder(w);
    forall a, b ensures le(a, b) || le(b, a) {
      StrLeTotal(a.weekStartDate, b.weekStartDate);
    }
    forall a, b, c | le(a, b) && le(b, c) ensures le(a, c) {
      if Peak(w, CellPair(a)) == Peak(w, CellPair(b)) == Peak(w, CellPair(c)) {
        StrLeTransitive(a.weekStartDate, b.weekStartDate, c.weekStartDate);
      }
    }
  }

  /** The cells of the selected pairs: one per (employee, name, week) with rows, joined on the whole pair. */
  function HeatmapCells(w: seq<HourRecord>, top: seq<(string, string)>): (cells: seq<HeatCell>)
    ensures forall x :: x in cells <==>
              (x.employeeId, x.resourceName) in top &&
              (exists r :: r in w && EmployeeNameWeek(r) == (x.employeeId, x.resourceName, x.weekStartDate)) &&
              x == CellOf(w, (x.employeeId, x.resourceName, x.weekStartDate))
    ensures DistinctKeys(cells, CellKey)
  {
    var selected := (k: (string, string, string)) => (k.0, k.1) in top;
    var ks := Select(Keys(w, EmployeeNameWeek), selected);
    var f := (k: (string, string, string)) => CellOf(w, k);
    SelectNoDuplicates(Keys(w, EmployeeNameWeek), selected);
    assert DistinctKeys(Column(ks, f), CellKey);
    forall x ensures x in Column(ks, f) <==>
        (x.employeeId, x.resourceName) in top &&
        (exists r :: r in w && EmployeeNameWeek(r) == (x.employeeId, x.resourceName, x.weekStartDate)) &&
        x == CellOf(w, (x.employeeId, x.resourceName, x.weekStartDate)) {
      KeyedMember(ks, f, (c: HeatCell) => (c.employeeId, c.resourceName, c.weekStartDate), x);
      SelectMember(Keys(w, EmployeeNameWeek), selected, (x.employeeId, x.resourceName, x.weekStartDate));
    }
    Column(ks, f)
  }

  /** The cells in heatmap order: higher peak first, and among equal peaks, earlier week first. */
  function SortCells(w: seq<HourRecord>, cells: seq<HeatCell>): (out: seq<HeatCell>)
    ensures forall i, j :: 0 <= i < j < |out| ==> Peak(w, CellPair(out[i])) >= Peak(w, CellPair(out[j]))
    ensures forall i, j :: 0 <= i < j < |out| && Peak(w, CellPair(out[i])) == Peak(w, CellPair(out[j])) ==>
              StrLe(out[i].weekStartDate, out[j].weekStartDate)
    ensures multiset(out) == multiset(cells)
  {
    HeatOrderTotal(w);
    var out := SortBy(cells, HeatOrder(w));
    assert forall i, j :: 0 <= i < j < |out| ==> HeatOrder(w)(out[i], out[j]);
    out
  }

  /** `getHeatmapData`, with the join on the whole (employee, name) pair. */
  function HeatmapData(rs: seq<HourRecord>, startDate: string, endDate: string, topN: int): (out: seq<HeatCell>)
    ensures var w := Window(rs, startDate, endDate);
            forall i, j :: 0 <= i < j < |out| ==> Peak(w, CellPair(out[i])) >= Peak(w, CellPair(out[j]))
    ensures var w := Window(rs, startDate, endDate);
            forall i, j :: 0 <= i < j < |out| && Peak(w, CellPair(out[i])) == Peak(w, CellPair(out[j])) ==>
              StrLe(out[i].weekStartDate, out[j].weekStartDate)
    ensures var w := Window(rs, startDate, endDate);
            forall x :: x in out <==>
              CellPair(x) in TopPairs(w, topN) &&
              (exists r :: r in w && EmployeeNameWeek(r) == (x.employeeId, x.resourceName, x.weekStartDate)) &&
              x == CellOf(w, (x.employeeId, x.resourceName, x.weekStartDate))
    ensures DistinctKeys(out, CellKey)
  {
    var w := Window(rs, startDate, endDate);
    var cells := HeatmapCells(w, TopPairs(w, topN));
    var out := SortCells(w, cells);
    PermutationDistinctKeys(cells, out, CellKey);
    forall x ensures x in out <==> x in cells {
      MultisetMember(out, cells, x);
    }
    out
  }

  /** Every cell holds exactly its pair's hours of that week, and the selected pairs' weekly peaks are what the cells reach. */
  lemma CellHours(w: seq<HourRecord>, k: (string, string, string), r: HourRecord)
    ensures r in Group(w, EmployeeNameWeek, k) <==> r in w && r.employeeId == k.0 && r.resourceName == k.1 && r.weekStartDate == k.2
    ensures CellOf(w, k).hours == SumHours(Group(w, EmployeeNameWeek, k))
  {
    GroupMember(w, EmployeeNameWeek, k, r);
  }

  // ---------------------------------------------------------------------
  // The join as written

  lemma SelectSameId(top: seq<(string, string)>, emp: string)
    ensures var sel := Select(top, (p: (string, string)) => p.0 == emp);
            (sel == [] <==> forall p :: p in top ==> p.0 != emp) &&
            (NoDuplicates(top) ==> |sel| == |set p | p in top && p.0 == emp|)
  {
    var same := (p: (string, string)) => p.0 == emp;
    var sel := Select(top, same);
    SelectMembers(top, same);
    if sel != [] {
      assert sel[0] in sel;
    }
    if NoDuplicates(top) {
      SelectNoDuplicates(top, same);
      NoDuplicatesCard(sel);
      assert (set p | p in sel) == (set p | p in top && p.0 == emp);
    }
  }

  /** How many selected pairs a row with employee id `emp` joins with when the join compares the employee id only. */
  function JoinCount(top: seq<(string, string)>, emp: string): (n: nat)
    ensures n <= |top|
    ensures n == 0 <==> forall p :: p in top ==> p.0 != emp
    ensures NoDuplicates(top) ==> n == |set p | p in top && p.0 == emp|
  {
    SelectSameId(top, emp);
    |Select(top, (p: (string, string)) => p.0 == emp)|
  }

  /**
   * `heatmap_data JOIN peak_demand ON employee_id`: each row of the window
   * once for every selected pair with its employee id, the pair's name
   * playing no part.
   */
  function Joined(w: seq<HourRecord>, top: seq<(string, string)>): seq<HourRecord>
  {
    Repeated(w, JoinsOf(top))
  }

  function JoinsOf(top: seq<(string, string)>): HourRecord -> nat
  {
    (r: HourRecord) => JoinCount(top, r.employeeId)
  }

  /**
   * The hours of a heatmap cell under the join on `employee_id` alone: the
   * cell's own hours added up once per selected pair with its employee id,
   * that is, multiplied by that number (`TimesIsProduct`).
   */
  function AsWrittenHours(w: seq<HourRecord>, top: seq<(string, string)>, k: (string, string, string)): (h: real)
    ensures h == Times(SumHours(Group(w, EmployeeNameWeek, k)), JoinCount(top, k.0))
  {
    RepeatedTimes(w, JoinsOf(top), EmployeeNameWeek, k, JoinCount(top, k.0));
    SumHours(Group(Joined(w, top), EmployeeNameWeek, k))
  }

  /** A cell of the query as written: the joined hours and their percentage of a 40-hour week. */
  function AsWrittenCellOf(w: seq<HourRecord>, top: seq<(string, string)>, k: (string, string, string)): HeatCell
  {
    var h := AsWrittenHours(w, top, k);
    HeatCell(k.0, k.1, k.2, h, SqlRound(h / 40.0 * 100.0, 0))
  }

  /**
   * The cells the query as written returns: one for every (employee, name,
   * week) in the window whose employee id belongs to some selected pair,
   * whether or not that name was selected (their order is left out: it
   * depends on which joined pair SQLite reports).
   */
  function AsWrittenCells(w: seq<HourRecord>, top: seq<(string, string)>): (cells: seq<HeatCell>)
    ensures forall x :: x in cells <==>
              JoinCount(top, x.employeeId) > 0 &&
              (exists r :: r in w && EmployeeNameWeek(r) == CellKey(x)) &&
              x == AsWrittenCellOf(w, top, CellKey(x))
    ensures DistinctKeys(cells, CellKey)
  {
    var joined := (k: (string, string, string)) => JoinCount(top, k.0) > 0;
    var ks := Select(Keys(w, EmployeeNameWeek), joined);
    var f := (k: (string, string, string)) => AsWrittenCellOf(w, top, k);
    forall x ensures x in Column(ks, f) <==>
        JoinCount(top, x.employeeId) > 0 &&
        (exists r :: r in w && EmployeeNameWeek(r) == CellKey(x)) &&
        x == AsWrittenCellOf(w, top, CellKey(x)) {
      KeyedMember(ks, f, CellKey, x);
      SelectMember(Keys(w, EmployeeNameWeek), joined, CellKey(x));
    }
    SelectNoDuplicates(Keys(w, EmployeeNameWeek), joined);
    assert DistinctKeys(Column(ks, f), CellKey);
    Column(ks, f)
  }

  /**
   * Two selected names sharing one employee id: for rows `a` and `b` of one
   * employee under two names in the same week, with the top two pairs
   * selected, the query as written reports twice `a`'s hours for `a`'s cell,
   * where the pair join reports them once.
   */
  lemma SharedIdDoublesHours(a: HourRecord, b: HourRecord)
    requires a.employeeId == b.employeeId && a.resourceName != b.resourceName && a.weekStartDate == b.weekStartDate
    ensures var rs, d := [a, b], a.weekStartDate;
            var w := Window(rs, d, d);
            var k := EmployeeNameWeek(a);
            AsWrittenCellOf(w, TopPairs(w, 2), k) in AsWrittenCells(w, TopPairs(w, 2)) &&
            AsWrittenCellOf(w, TopPairs(w, 2), k).hours == a.hours + a.hours &&
            CellOf(w, k) in HeatmapData(rs, d, d, 2) &&
            CellOf(w, k).hours == a.hours
  {
    SharedWindow(a, b);
    SharedPairs(a, b);
    TwoPairsSelected([a, b], EmployeeName(a), EmployeeName(b));
    SharedCellHours(a, b);
    SharedAsWritten(a, b);
    SharedPairJoin(a, b);
  }

  lemma SharedAsWritten(a: HourRecord, b: HourRecord)
    requires a.employeeId == b.employeeId
    requires JoinCount(TopPairs([a, b], 2), a.employeeId) == 2
    requires SumHours(Group([a, b], EmployeeNameWeek, EmployeeNameWeek(a))) == a.hours
    ensures var rs, k := [a, b], EmployeeNameWeek(a);
            AsWrittenCellOf(rs, TopPairs(rs, 2), k) in AsWrittenCells(rs, TopPairs(rs, 2)) &&
            AsWrittenCellOf(rs, TopPairs(rs, 2), k).hours == a.hours + a.hours
  {
    var rs := [a, b];
    assert rs[0] in rs;
    JoinedCell(rs, TopPairs(rs, 2), EmployeeNameWeek(a), a.hours, 2);
    TimesTwo(a.hours);
  }

  lemma SharedPairJoin(a: HourRecord, b: HourRecord)
    requires Window([a, b], a.weekStartDate, a.weekStartDate) == [a, b]
    requires EmployeeName(a) in TopPairs([a, b], 2)
    requires SumHours(Group([a, b], EmployeeNameWeek, EmployeeNameWeek(a))) == a.hours
    ensures var rs, d, k := [a, b], a.weekStartDate, EmployeeNameWeek(a);
            CellOf(rs, k) in HeatmapData(rs, d, d, 2) && CellOf(rs, k).hours == a.hours
  {
    var rs, k := [a, b], EmployeeNameWeek(a);
    assert rs[0] in rs;
    assert CellPair(CellOf(rs, k)) == EmployeeName(a);
    assert CellKey(CellOf(rs, k)) == k;
  }

  lemma SharedWindow(a: HourRecord, b: HourRecord)
    requires a.weekStartDate == b.weekStartDate
    ensures Window([a, b], a.weekStartDate, a.weekStartDate) == [a, b]
  {
    OneWeekWindow([a, b], a.weekStartDate);
  }

  lemma SharedPairs(a: HourRecord, b: HourRecord)
    ensures (set r | r in [a, b] :: EmployeeName(r)) == {EmployeeName(a), EmployeeName(b)}
  {
    var pairs := set r | r in [a, b] :: EmployeeName(r);
    assert EmployeeName(a) in pairs && EmployeeName(b) in pairs;
    forall p | p in pairs ensures p in {EmployeeName(a), EmployeeName(b)} {
      var r :| r in [a, b] && EmployeeName(r) == p;
    }
  }

  /** A cell with rows, whose employee id joins `c` selected pairs, is reported by the query as written with its hours added up `c` times. */
  lemma JoinedCell(w: seq<HourRecord>, top: seq<(string, string)>, k: (string, string, string), hours: real, c: nat)
    requires (exists r :: r in w && EmployeeNameWeek(r) == k) && c > 0
    requires SumHours(Group(w, EmployeeNameWeek, k)) == hours && JoinCount(top, k.0) == c
    ensures AsWrittenCellOf(w, top, k) in AsWrittenCells(w, top)
    ensures AsWrittenCellOf(w, top, k).hours == Times(hours, c)
  {
    assert CellKey(AsWrittenCellOf(w, top, k)) == k;
  }

  /** With exactly two pairs in the window, the top two are both, and when they share an id that id joins both. */
  lemma TwoPairsSelected(w: seq<HourRecord>, pa: (string, string), pb: (string, string))
    requires (set r | r in w :: EmployeeName(r)) == {pa, pb} && pa != pb
    ensures pa in TopPairs(w, 2) && pb in TopPairs(w, 2)
    ensures pa.0 == pb.0 ==> JoinCount(TopPairs(w, 2), pa.0) == 2
  {
    var top := TopPairs(w, 2);
    assert |{pa, pb}| == 2;
    assert |top| == 2;
    forall p | p in top ensures p == pa || p == pb {
      var r :| r in w && EmployeeName(r) == p;
      PairOfTwo(w, pa, pb, r);
    }
    BothOfTwo(top, pa, pb);
    if pa.0 == pb.0 {
      SharedIdCount(top, pa, pb);
    }
  }

  lemma SharedIdCount(top: seq<(string, string)>, pa: (string, string), pb: (string, string))
    requires NoDuplicates(top) && pa in top && pb in top && pa != pb && pa.0 == pb.0
    requires forall p :: p in top ==> p == pa || p == pb
    ensures JoinCount(top, pa.0) == 2
  {
    var same := set p | p in top && p.0 == pa.0;
    assert pa in same && pb in same;
    assert forall p :: p in same ==> p in {pa, pb};
    assert same == {pa, pb};
  }

  lemma PairOfTwo(w: seq<HourRecord>, pa: (string, string), pb: (string, string), r: HourRecord)
    requires (set x | x in w :: EmployeeName(x)) == {pa, pb} && r in w
    ensures EmployeeName(r) == pa || EmployeeName(r) == pb
  {
    var pairs := set x | x in w :: EmployeeName(x);
    assert EmployeeName(r) in pairs;
    assert EmployeeName(r) in {pa, pb};
  }

  /** Two different values drawn from `{a, b}` are `a` and `b`. */
  lemma BothOfTwo<T>(s: seq<T>, a: T, b: T)
    requires |s| == 2 && s[0] != s[1]
    requires forall x :: x in s ==> x == a || x == b
    ensures a in s && b in s
  {
    assert s[0] in s && s[1] in s;
  }

  /** A window of one week holds every row of that week. */
  lemma OneWeekWindow(rs: seq<HourRecord>, d: string)
    requires forall r :: r in rs ==> r.weekStartDate == d
    ensures Window(rs, d, d) == rs
  {
    StrLeReflexive(d);
    SelectAll(rs, (r: HourRecord) => InWindow(r, d, d));
  }

  /** The cell of `a` holds `a`'s hours only: `b` carries another name. */
  lemma SharedCellHours(a: HourRecord, b: HourRecord)
    requires a.resourceName != b.resourceName
    ensures SumHours(Group([a, b], EmployeeNameWeek, EmployeeNameWeek(a))) == a.hours
  {
    var k := EmployeeNameWeek(a);
    var none: seq<HourRecord> := [];
    assert [a, b] == [a] + [b] && [a] == none + [a];
    GroupSnocSum([a], b, EmployeeNameWeek, k);
    GroupSnocSum(none, a, EmployeeNameWeek, k);
  }
}
