/** The transfer runs and the ownership queries put together. */
module OwnershipOverRuns {
  import opened Prelude
  import opened Calendar
  import opened Ids
  import opened Timelines
  import opened OwnershipQueries
  import opened TransferModel
  import opened TransferProofs
  import opened TransferRuns
  import opened PastReports

  const EMPTY: Db := Db(map[], map[], map[], map[], map[])

  /** After any run from empty tables that is timely by year the current operator of every operation is the owner of
      the one open row of a chain. */
  lemma RunsLeaveChains(steps: seq<Step>, o: OperationId)
    requires TimelyRun(ByYear, EMPTY, steps) && o in Run(EMPTY, steps).operator
    ensures o in Run(EMPTY, steps).operationLines
    ensures Chain(Run(EMPTY, steps).operationLines[o])
    ensures Last(Run(EMPTY, steps).operationLines[o]).owner == Run(EMPTY, steps).operator[o]
  {
    EmptyInv(ByYear);
    RunKeeps(ByYear, EMPTY, steps);
  }

  /** So after such a run the three ways of asking who owned an operation in a year agree: the bulk
      index, the single lookup, and the period-end query over closed rows. */
  lemma QueriesAgreeAfterRuns(steps: seq<Step>, operations: set<OperationId>, rows: seq<TimelineRow>,
                              minYear: int, maxYear: int, operator: OperatorId, owned: seq<TimelineRow>, v: Version)
    requires TimelyRun(ByYear, EMPTY, steps) && v.operation in operations
      && v.operation in Run(EMPTY, steps).operationLines
    requires minYear <= v.periodYear <= maxYear
    requires
      var lines := Run(EMPTY, steps).operationLines;
      && (forall row :: row in rows <==> InBulkQuery(lines, operations, minYear, maxYear, row))
      && (forall row :: row in owned <==>
            row.operation in lines && row.span in lines[row.operation] && row.span.owner == operator
              && row.span.end.Some?)
    ensures
      var lookup := Lookup(Run(EMPTY, steps).operationLines[v.operation], v.periodYear);
      && LastWrite(rows, OperationYear(v.operation, v.periodYear)) == lookup
      && ((exists row | row in owned :: row.operation == v.operation && OwnedAtPeriodEnd(row.span, v.periodYear)) <==>
          lookup.Some? && lookup.value.owner == operator && lookup.value.end.Some?)
  {
    var lines := Run(EMPTY, steps).operationLines;
    EmptyInv(ByYear);
    RunKeeps(ByYear, EMPTY, steps);
    forall o | o in operations && o in lines ensures Chain(lines[o]) {
      RunsLeaveChains(steps, o);
    }
    BulkIndexIsSingleLookup(lines, operations, rows, minYear, maxYear, OperationYear(v.operation, v.periodYear));
    PreviouslyOwnedAgreesWithLookup(lines, operator, owned, v);
  }

  /** The registry of a reached state, as the past-report list and the report flows read it. */
  predicate Reads(r: Registry, db: Db) {
    r.owner == db.operator && r.lines == db.operationLines
  }

  /** After any run, timely or not, a past report from 2024 on is created exactly for the designated
      operator, as in the current year's flow; the fallback to the current owner is never taken. */
  lemma FallbackNeverTaken(steps: seq<Step>, r: Registry, operator: OperatorId, key: OperationYear)
    requires Reads(r, Run(EMPTY, steps)) && key.operation in r.owner && key.year >= 2024
    ensures CheckPastReport(r, operator, key) == None <==>
            OwnerIn(Run(EMPTY, steps), key.operation, key.year) == Some(operator) && key !in r.reports
  {
    EmptyInv(ByYear);
    RunDesignatesFrom2024(EMPTY, steps, key.operation, key.year);
  }

  /** So the two report flows are one: after any run the past-report flow accepts a pair from 2024 on
      exactly when the current year's flow would report it for the same operator and a required BORO ID
      is there, and then it creates what that flow would. */
  lemma PastFlowIsCurrentFlow(steps: seq<Step>, r: Registry, operator: OperatorId, key: OperationYear,
                              needsBoroId: bool)
    requires Reads(r, Run(EMPTY, steps)) && key.year >= 2024
    ensures
      var past, current := CreatePastReport(r, operator, key, needsBoroId), CreateReport(r, key);
      && (past.Ok? <==>
            && current.Ok? && current.value.reports[key] == operator
            && (needsBoroId ==> key.operation in r.withBoroId))
      && (past.Ok? ==> past == current)
  {
    if key.operation in r.owner {
      EmptyInv(ByYear);
      RunDesignatesFrom2024(EMPTY, steps, key.operation, key.year);
      PastReportAcceptedIff(r, operator, key, needsBoroId);
    }
    if CreatePastReport(r, operator, key, needsBoroId).Ok? {
      ReportFlowsAgree(r, operator, key, needsBoroId);
    }
  }

  /** After any run that is timely by year the past-report list misses no pair from 2024 on that would be accepted, and
      of what it offers exactly the pairs of designated years are accepted. */
  lemma ListMissesNothing(steps: seq<Step>, q: Query, r: Registry, key: OperationYear)
    requires TimelyRun(ByYear, EMPTY, steps) && Reads(r, Run(EMPTY, steps))
    requires Answers(q, r) && NewestFirst(q.years) && q.years[|q.years| - 1] >= 2024
    requires key.operation in r.owner && key.operation in r.registered && key.year in q.years
    ensures CheckPastReport(r, q.operator, key) == None ==> TimesListed(q, Row(key, false)) > 0
    ensures TimesListed(q, Row(key, false)) > 0 ==> CheckPastReport(r, q.operator, key) == None
    ensures TimesListed(q, Row(key, true)) > 0 ==>
      (CheckPastReport(r, q.operator, key) == None <==> IsDesignated(q, key))
  {
    assert key.year >= 2024;
    EmptyInv(ByYear);
    RunKeeps(ByYear, EMPTY, steps);
    RunDesignatesFrom2024(EMPTY, steps, key.operation, key.year);
    forall o | o in r.lines ensures Chain(r.lines[o]) {
      RunsLeaveChains(steps, o);
    }
    if CheckPastReport(r, q.operator, key) == None {
      var i := LookupSome(r.lines[key.operation], key.year);
      assert TimelineRow(key.operation, r.lines[key.operation][i]) in q.timelines;
      RowsForIffAny(q.timelines, key.operation);
      DesignationIsLookup(q, r, key);
    }
    if TimesListed(q, Row(key, false)) > 0 {
      ListedRowsAccepted(q, r, key, false);
    }
    if TimesListed(q, Row(key, true)) > 0 {
      ListedRowsAccepted(q, r, key, true);
    }
  }
}
