/**
 * The hour record: one employee's hours on one project for one week, as the
 * parser emits it and as the `hours` table stores it.
 */
module Records {

  /** The Actual/Proposed flag, stored as 'A' or 'P'. */
  datatype ApFlag = Actual | Proposed

  datatype HourRecord = HourRecord(
    project: string,
    employeeId: string,
    resourceName: string,
    rate: real,
    activityId: string,
    /** The Sunday that starts the week, as `yyyy-MM-dd`. */
    weekStartDate: string,
    actualOrProposed: ApFlag,
    hours: real,
    /** The upload batch's tag ('Hard Demand' or 'Soft Demand'); never read from the sheet. */
    demandType: string,
    projectId: string,
    phase: string,
    milestone: string)

  /** Total of the `hours` column (`SUM(hours)`; 0 for no rows, where SQL would give NULL). */
  function SumHours(rs: seq<HourRecord>): real
  {
    if rs == [] then 0.0 else SumHours(rs[..|rs| - 1]) + rs[|rs| - 1].hours
  }

  lemma {:induction false} SumHoursAppend(a: seq<HourRecord>, b: seq<HourRecord>)
    ensures SumHours(a + b) == SumHours(a) + SumHours(b)
    decreases |b|
  {
    if b != [] {
      assert (a + b)[..|a + b| - 1] == a + b[..|b| - 1];
      SumHoursAppend(a, b[..|b| - 1]);
    } else {
      assert a + b == a;
    }
  }

  /** With every hour value positive, the total is positive exactly when there are rows. */
  lemma {:induction false} SumHoursPositive(rs: seq<HourRecord>)
    requires forall i :: 0 <= i < |rs| ==> rs[i].hours > 0.0
    ensures SumHours(rs) >= 0.0
    ensures SumHours(rs) > 0.0 <==> rs != []
  {
    if rs != [] {
      SumHoursPositive(rs[..|rs| - 1]);
    }
  }
}
