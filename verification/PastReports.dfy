/** Which past reports an operator is offered, and which of them it may create. */
module PastReports {
  import opened Prelude
  import opened Calendar
  import opened Ids
  import opened Timelines
  import opened OwnershipQueries

  datatype Registry = Registry(
    owner: map<OperationId, OperatorId>,
    lines: map<OperationId, OperatorLine>,
    registered: set<OperationId>,
    withBoroId: set<OperationId>,
    reports: map<OperationYear, OperatorId>)

  datatype Error = UnknownOperation | OwnedByOther | NotRegistered | AlreadyReported | NoDesignation | BoroIdMissing

  /* ---------- creating a report ---------- */

  /** The report flow of the current year: the designated operator gets the report. */
  function CreateReport(r: Registry, key: OperationYear): Result<Registry, Error>
  {
    if key in r.reports then Err(AlreadyReported)
    else if key.operation !in r.owner || key.operation !in r.lines then Err(UnknownOperation)
    else
      match Lookup(r.lines[key.operation], key.year)
      case None => Err(NoDesignation)
      case Some(span) => Ok(r.(reports := r.reports[key := span.owner]))
  }

  /** The ownership and existence checks of the past-report flow. */
  function CheckPastReport(r: Registry, operator: OperatorId, key: OperationYear): Option<Error> {
    if key.operation !in r.owner || key.operation !in r.lines then Some(UnknownOperation)
    else
      var refusal :=
        match Lookup(r.lines[key.operation], key.year)
        case Some(span) => if span.owner != operator then Some(OwnedByOther) else None
        case None =>
          if r.owner[key.operation] != operator then Some(OwnedByOther)
          else if key.operation !in r.registered then Some(NotRegistered)
          else None;
      if refusal.Some? then refusal
      else if key in r.reports then Some(AlreadyReported)
      else None
  }

  function CreatePastReport(r: Registry, operator: OperatorId, key: OperationYear,
                            needsBoroId: bool): Result<Registry, Error> {
    match CheckPastReport(r, operator, key)
    case Some(error) => Err(error)
    case None =>
      if needsBoroId && key.operation !in r.withBoroId then Err(BoroIdMissing)
      else Ok(r.(reports := r.reports[key := operator]))
  }

  /** For a year with a designated operator the two flows create the same report; for any other year
      only the past-report flow creates one, for the current operator. */
  lemma ReportFlowsAgree(r: Registry, operator: OperatorId, key: OperationYear, needsBoroId: bool)
    requires CreatePastReport(r, operator, key, needsBoroId).Ok?
    ensures Designated(r.lines[key.operation], key.year) == Some(operator) ==>
            CreateReport(r, key) == CreatePastReport(r, operator, key, needsBoroId)
    ensures Designated(r.lines[key.operation], key.year) != Some(operator) ==>
            CreateReport(r, key) == Err(NoDesignation) && r.owner[key.operation] == operator
  {
  }

  /** The past-report flow accepts a pair exactly when no report exists and the operator was designated
      for the year, or nobody was and it owns the registered operation now. */
  lemma PastReportAcceptedIff(r: Registry, operator: OperatorId, key: OperationYear, needsBoroId: bool)
    requires key.operation in r.owner && key.operation in r.lines
    ensures
      var designated := Designated(r.lines[key.operation], key.year);
      CreatePastReport(r, operator, key, needsBoroId).Ok? <==>
        && key !in r.reports
        && (designated == Some(operator)
            || (designated == None && r.owner[key.operation] == operator && key.operation in r.registered))
        && (needsBoroId ==> key.operation in r.withBoroId)
    ensures CreatePastReport(r, operator, key, needsBoroId).Ok? ==>
      CreatePastReport(r, operator, key, needsBoroId).value == r.(reports := r.reports[key := operator])
  {
  }

  /** A refusal names the first thing wrong: another operator was designated or, if nobody was, owns the
      operation now; it is not registered; there is a report already. */
  lemma PastReportRefusals(r: Registry, operator: OperatorId, key: OperationYear)
    requires key.operation in r.owner && key.operation in r.lines
    ensures
      var designated := Designated(r.lines[key.operation], key.year);
      CheckPastReport(r, operator, key) ==
      if (if designated.Some? then designated.value else r.owner[key.operation]) != operator then Some(OwnedByOther)
      else if designated.None? && key.operation !in r.registered then Some(NotRegistered)
      else if key in r.reports then Some(AlreadyReported)
      else None
  {
  }

  /* ---------- the list ---------- */

  /** What the list is computed from: the operator's timeline rows over registered operations, the
      registered operations it owns now, the previous reporting years (newest first), the reports
      that exist, and the rows of the bulk query. */
  datatype Query = Query(
    operator: OperatorId,
    timelines: seq<TimelineRow>,
    current: seq<OperationId>,
    years: seq<int>,
    reported: set<OperationYear>,
    bulk: seq<TimelineRow>)

  datatype Row = Row(key: OperationYear, fallback: bool)

  function OperationsOf(q: Query): set<OperationId> {
    (set t | t in q.timelines :: t.operation) + (set o | o in q.current)
  }

  /** The rows of the registry that the queries of the list return, in any order. */
  ghost predicate Answers(q: Query, r: Registry) {
    && (forall row :: row in q.timelines <==>
         row.operation in r.lines && row.operation in r.registered
         && row.span in r.lines[row.operation] && row.span.owner == q.operator)
    && (forall o :: o in q.current <==> o in r.owner && r.owner[o] == q.operator && o in r.registered)
    && (forall key: OperationYear | key.operation in OperationsOf(q) && key.year in q.years ::
          key in q.reported <==> key in r.reports)
    && q.years != []
    && (forall row :: row in q.bulk <==>
         InBulkQuery(r.lines, OperationsOf(q), q.years[|q.years| - 1], q.years[0], row))
  }

  predicate Distinct<T(==)>(s: seq<T>) {
    forall i, j | 0 <= i < j < |s| :: s[i] != s[j]
  }

  predicate NewestFirst(years: seq<int>) {
    forall i, j | 0 <= i < j < |years| :: years[i] > years[j]
  }

  predicate IsDesignated(q: Query, key: OperationYear) {
    LastWrite(q.bulk, key).Some? && LastWrite(q.bulk, key).value.owner == q.operator
  }

  function RowsFor(timelines: seq<TimelineRow>, o: OperationId): nat {
    if timelines == [] then 0
    else RowsFor(timelines[..|timelines| - 1], o) + if timelines[|timelines| - 1].operation == o then 1 else 0
  }

  /** How often the list contains a row. Each pass marks only the pair it looked at last, the earliest
      year: that year is listed once at most, and not as a fallback once the operator has any timeline
      row; every other year is listed again by every timeline row and by the fallback pass. */
  function TimesListed(q: Query, row: Row): nat
    requires q.years != []
  {
    var earliest, n := q.years[|q.years| - 1], RowsFor(q.timelines, row.key.operation);
    if row.key.year !in q.years || row.key in q.reported then 0
    else if row.fallback then
      if row.key.operation in q.current && (row.key.year != earliest || n == 0) then 1 else 0
    else if !IsDesignated(q, row.key) then 0
    else if row.key.year == earliest && n > 0 then 1
    else n
  }

  /** What one look at an operation adds for a row. */
  function AddedOnce(q: Query, o: OperationId, years: seq<int>, added: set<OperationYear>, fallback: bool,
                     row: Row): nat {
    if row.fallback == fallback && row.key.operation == o && row.key.year in years
       && row.key !in added && row.key !in q.reported && (fallback || IsDesignated(q, row.key)) then 1
    else 0
  }

  /** The inner loop of both passes: offer one operation for every year that is neither marked nor
      reported and, in the first pass, was designated to the operator. */
  method OfferYears(q: Query, o: OperationId, added: set<OperationYear>, fallback: bool,
                    index: map<OperationYear, Span<OperatorId>>, list: seq<Row>)
    returns (longer: seq<Row>)
    requires NewestFirst(q.years)
    requires forall year | year in q.years && !fallback ::
      var key := OperationYear(o, year);
      (key in index <==> LastWrite(q.bulk, key).Some?) && (key in index ==> Some(index[key]) == LastWrite(q.bulk, key))
    ensures forall row :: multiset(longer)[row] == multiset(list)[row] + AddedOnce(q, o, q.years, added, fallback, row)
  {
    longer := list;
    for j := 0 to |q.years|
      invariant forall row ::
        multiset(longer)[row] == multiset(list)[row] + AddedOnce(q, o, q.years[..j], added, fallback, row)
    {
      var key := OperationYear(o, q.years[j]);
      assert q.years[..j + 1] == q.years[..j] + [q.years[j]];
      if key !in added && key !in q.reported {
        if fallback || (key in index && index[key].owner == q.operator) {
          longer := longer + [Row(key, fallback)];
        }
      }
    }
    assert q.years[..|q.years|] == q.years;
  }

  ghost predicate IndexAnswers(q: Query, index: map<OperationYear, Span<OperatorId>>) {
    forall key: OperationYear | key.operation in OperationsOf(q) && key.year in q.years ::
      (key in index <==> LastWrite(q.bulk, key).Some?) && (key in index ==> Some(index[key]) == LastWrite(q.bulk, key))
  }

  /** First pass: one look at the operation for each of its timeline rows. */
  method OfferDesignated(q: Query, index: map<OperationYear, Span<OperatorId>>)
    returns (list: seq<Row>, added: set<OperationYear>)
    requires q.years != [] && NewestFirst(q.years) && IndexAnswers(q, index)
    ensures added == Marked(q.timelines, q.years[|q.years| - 1])
    ensures forall row :: multiset(list)[row] == FirstPassTimes(q, |q.timelines|, row)
  {
    var earliest := q.years[|q.years| - 1];
    list, added := [], {};
    for i := 0 to |q.timelines|
      invariant added == Marked(q.timelines[..i], earliest)
      invariant forall row :: multiset(list)[row] == FirstPassTimes(q, i, row)
    {
      var o := q.timelines[i].operation;
      assert o in OperationsOf(q);
      list := OfferYears(q, o, added, false, index, list);
      forall row {
        FirstPassStep(q, i, row);
      }
      assert q.timelines[..i + 1] == q.timelines[..i] + [q.timelines[i]];
      added := added + {OperationYear(o, earliest)};
    }
    assert q.timelines[..|q.timelines|] == q.timelines;
  }

  /** Second pass: one look at each operation the operator owns now. */
  method OfferFallbacks(q: Query, first: seq<Row>, marked: set<OperationYear>) returns (list: seq<Row>)
    requires q.years != [] && NewestFirst(q.years) && Distinct(q.current)
    requires marked == Marked(q.timelines, q.years[|q.years| - 1])
    ensures forall row :: multiset(list)[row] == multiset(first)[row] + SecondPassTimes(q, |q.current|, row)
  {
    var earliest := q.years[|q.years| - 1];
    var added := marked;
    list := first;
    for i := 0 to |q.current|
      invariant added == marked + set o | o in q.current[..i] :: OperationYear(o, earliest)
      invariant forall row :: multiset(list)[row] == multiset(first)[row] + SecondPassTimes(q, i, row)
    {
      var o := q.current[i];
      list := OfferYears(q, o, added, true, map[], list);
      forall row {
        SecondPassStep(q, i, row);
      }
      assert q.current[..i + 1] == q.current[..i] + [q.current[i]];
      added := added + {OperationYear(o, earliest)};
    }
  }

  /** The list. There is nothing to compute the year range from when there is no previous reporting
      year, and the source fails. */
  method ListPastReports(q: Query) returns (rows: Option<seq<Row>>)
    requires NewestFirst(q.years) && Distinct(q.current)
    ensures rows.None? <==> q.years == []
    ensures rows.Some? ==> forall row :: multiset(rows.value)[row] == TimesListed(q, row)
  {
    if q.years == [] {
      return None;
    }
    var index := BuildIndex(OperationsOf(q), q.bulk, q.years[|q.years| - 1], q.years[0]);
    var first, marked := OfferDesignated(q, index);
    var list := OfferFallbacks(q, first, marked);
    assert q.timelines[..|q.timelines|] == q.timelines && q.current[..|q.current|] == q.current;
    return Some(list);
  }

  function Marked(timelines: seq<TimelineRow>, earliest: int): set<OperationYear> {
    set t | t in timelines :: OperationYear(t.operation, earliest)
  }

  function SecondPassTimes(q: Query, i: nat, row: Row): nat
    requires q.years != [] && i <= |q.current|
  {
    if row.fallback && row.key.operation in q.current[..i] then TimesListed(q, row) else 0
  }

  lemma FirstPassStep(q: Query, i: nat, row: Row)
    requires q.years != [] && i < |q.timelines|
    ensures FirstPassTimes(q, i + 1, row) == FirstPassTimes(q, i, row)
      + AddedOnce(q, q.timelines[i].operation, q.years, Marked(q.timelines[..i], q.years[|q.years| - 1]), false, row)
  {
    assert q.timelines[..i + 1][..i] == q.timelines[..i];
    RowsForIffAny(q.timelines[..i], row.key.operation);
    if t :| t in q.timelines[..i] && t.operation == row.key.operation {
      assert OperationYear(t.operation, q.years[|q.years| - 1]) in Marked(q.timelines[..i], q.years[|q.years| - 1]);
    }
  }

  lemma SecondPassStep(q: Query, i: nat, row: Row)
    requires q.years != [] && i < |q.current| && Distinct(q.current)
    ensures
      var earliest := q.years[|q.years| - 1];
      var added := Marked(q.timelines, earliest) + set o | o in q.current[..i] :: OperationYear(o, earliest);
      SecondPassTimes(q, i + 1, row) ==
        SecondPassTimes(q, i, row) + AddedOnce(q, q.current[i], q.years, added, true, row)
  {
    assert q.current[..i + 1] == q.current[..i] + [q.current[i]];
    assert q.current[i] !in q.current[..i];
    RowsForIffAny(q.timelines, row.key.operation);
    if t :| t in q.timelines && t.operation == row.key.operation {
      assert OperationYear(t.operation, q.years[|q.years| - 1]) in Marked(q.timelines, q.years[|q.years| - 1]);
    }
  }

  function FirstPassTimes(q: Query, i: nat, row: Row): nat
    requires q.years != [] && i <= |q.timelines|
  {
    if row.fallback then 0 else TimesListed(q.(timelines := q.timelines[..i]), row)
  }

  predicate Listed(q: Query, key: OperationYear)
    requires q.years != []
  {
    TimesListed(q, Row(key, false)) > 0 || TimesListed(q, Row(key, true)) > 0
  }

  lemma {:induction false} RowsForIffAny(timelines: seq<TimelineRow>, o: OperationId)
    ensures RowsFor(timelines, o) > 0 <==> exists t | t in timelines :: t.operation == o
  {
    if timelines != [] {
      var rest, last := timelines[..|timelines| - 1], timelines[|timelines| - 1];
      RowsForIffAny(rest, o);
      assert timelines == rest + [last];
    }
  }

  lemma DesignationIsLookup(q: Query, r: Registry, key: OperationYear)
    requires Answers(q, r) && NewestFirst(q.years) && key.year in q.years
    requires key.operation in OperationsOf(q) && key.operation in r.lines
    requires forall o | o in r.lines :: Chain(r.lines[o])
    ensures LastWrite(q.bulk, key) == Lookup(r.lines[key.operation], key.year)
  {
    BulkIndexIsSingleLookup(r.lines, OperationsOf(q), q.bulk, q.years[|q.years| - 1], q.years[0], key);
  }

  /** Nothing listed has a report; a designated row is always accepted, and a fallback row exactly when
      nobody was designated for its year. */
  lemma ListedRowsAccepted(q: Query, r: Registry, key: OperationYear, fallback: bool)
    requires Answers(q, r) && NewestFirst(q.years) && r.owner.Keys == r.lines.Keys
    requires forall o | o in r.lines :: Chain(r.lines[o])
    requires TimesListed(q, Row(key, fallback)) > 0
    ensures key !in r.reports
    ensures CheckPastReport(r, q.operator, key) == None <==>
            !fallback || Lookup(r.lines[key.operation], key.year) == None || IsDesignated(q, key)
  {
    RowsForIffAny(q.timelines, key.operation);
    assert key.operation in OperationsOf(q);
    DesignationIsLookup(q, r, key);
  }

  /** What is left out: of the pairs of a registered operation that would be accepted, the list misses
      exactly those in the earliest year for which nobody was designated, once the operator has a
      timeline row for the operation. */
  lemma AcceptedPairsListedIff(q: Query, r: Registry, key: OperationYear)
    requires Answers(q, r) && NewestFirst(q.years) && r.owner.Keys == r.lines.Keys
    requires forall o | o in r.lines :: Chain(r.lines[o])
    requires key.operation in r.registered && key.year in q.years
    requires CheckPastReport(r, q.operator, key) == None
    ensures Listed(q, key) <==>
      || Lookup(r.lines[key.operation], key.year).Some?
      || key.year != q.years[|q.years| - 1]
      || RowsFor(q.timelines, key.operation) == 0
  {
    RowsForIffAny(q.timelines, key.operation);
    var line := r.lines[key.operation];
    if Lookup(line, key.year).Some? {
      var i := LookupSome(line, key.year);
      assert TimelineRow(key.operation, line[i]) in q.timelines;
    }
    assert key.operation in OperationsOf(q);
    DesignationIsLookup(q, r, key);
  }

  ghost predicate NoPairTwice(q: Query)
    requires q.years != []
  {
    forall key :: TimesListed(q, Row(key, false)) + TimesListed(q, Row(key, true)) <= 1
  }

  /** The list is free of duplicates exactly when every pair it offers by designation, outside the
      earliest year, comes from an operation with one timeline row that the operator owns no more. */
  lemma NoDuplicatesIff(q: Query)
    requires q.years != []
    ensures NoPairTwice(q) <==>
      forall key: OperationYear | key.year in q.years && key.year != q.years[|q.years| - 1] && key !in q.reported
                                 && IsDesignated(q, key) ::
        RowsFor(q.timelines, key.operation) + (if key.operation in q.current then 1 else 0) <= 1
  {
    if NoPairTwice(q) {
      forall key: OperationYear | key.year in q.years && key.year != q.years[|q.years| - 1] && key !in q.reported
                                   && IsDesignated(q, key)
        ensures RowsFor(q.timelines, key.operation) + (if key.operation in q.current then 1 else 0) <= 1
      {
        assert TimesListed(q, Row(key, false)) + TimesListed(q, Row(key, true)) <= 1;
      }
    }
  }

  /** An operation that was never transferred, with 2024 and 2025 to report: 2025 is offered by
      designation and once more as a fallback, 2024 once. */
  lemma ListOfOneOperation()
    ensures
      var row := TimelineRow(7, Span(1, At(Date(2024, 1), 8 * 3600), None));
      var q := Query(1, [row], [7], [2025, 2024], {}, [row]);
      var r := Registry(map[7 := 1], map[7 := [row.span]], {7}, {}, map[]);
      && Answers(q, r) && Chain(r.lines[7])
      && TimesListed(q, Row(OperationYear(7, 2025), false)) == 1
      && TimesListed(q, Row(OperationYear(7, 2025), true)) == 1
      && TimesListed(q, Row(OperationYear(7, 2024), false)) == 1
      && TimesListed(q, Row(OperationYear(7, 2024), true)) == 0
  {
    var row := TimelineRow(7, Span(1, At(Date(2024, 1), 8 * 3600), None));
    var q := Query(1, [row], [7], [2025, 2024], {}, [row]);
    assert RowsFor([row], 7) == 1 by {
      assert [row][..0] == [];
    }
    assert OperationsOf(q) == {7} by {
      assert 7 in OperationsOf(q);
    }
    assert LastWrite([row], OperationYear(7, 2025)) == Some(row.span);
    assert LastWrite([row], OperationYear(7, 2024)) == Some(row.span);
  }

  /* ---------- the list with every pair marked as it is added ---------- */

  /** What such a list would hold: each unreported pair by designation, if some timeline row brings the
      operation up, and each other one of the operations owned now as a fallback. */
  predicate Wanted(q: Query, row: Row) {
    && row.key.year in q.years && row.key !in q.reported
    && if row.fallback then
         row.key.operation in q.current && !(RowsFor(q.timelines, row.key.operation) > 0 && IsDesignated(q, row.key))
       else RowsFor(q.timelines, row.key.operation) > 0 && IsDesignated(q, row.key)
  }

  predicate NoKeyTwice(list: seq<Row>) {
    forall i, j | 0 <= i < j < |list| :: list[i].key != list[j].key
  }

  /** What one look at an operation adds when it marks pairs itself. */
  predicate NewlyListed(q: Query, list: seq<Row>, o: OperationId, years: seq<int>, fallback: bool, row: Row) {
    && row.fallback == fallback && row.key.operation == o && row.key.year in years && row.key !in q.reported
    && (fallback || IsDesignated(q, row.key)) && forall other | other in list :: other.key != row.key
  }

  method OfferYearsMarking(q: Query, o: OperationId, fallback: bool, index: map<OperationYear, Span<OperatorId>>,
                           list: seq<Row>, added: set<OperationYear>)
    returns (longer: seq<Row>, marked: set<OperationYear>)
    requires NewestFirst(q.years) && NoKeyTwice(list) && added == set row | row in list :: row.key
    requires forall year | year in q.years && !fallback ::
      var key := OperationYear(o, year);
      (key in index <==> LastWrite(q.bulk, key).Some?) && (key in index ==> Some(index[key]) == LastWrite(q.bulk, key))
    ensures NoKeyTwice(longer) && marked == set row | row in longer :: row.key
    ensures forall row :: row in longer <==> row in list || NewlyListed(q, list, o, q.years, fallback, row)
  {
    longer, marked := list, added;
    for j := 0 to |q.years|
      invariant NoKeyTwice(longer) && marked == set row | row in longer :: row.key
      invariant forall row :: row in longer <==> row in list || NewlyListed(q, list, o, q.years[..j], fallback, row)
    {
      var key := OperationYear(o, q.years[j]);
      assert q.years[..j + 1] == q.years[..j] + [q.years[j]];
      assert key in marked <==> key in added;
      if key !in marked && key !in q.reported {
        if fallback || (key in index && index[key].owner == q.operator) {
          longer, marked := longer + [Row(key, fallback)], marked + {key};
        }
      }
    }
    assert q.years[..|q.years|] == q.years;
  }

  /** The repaired list. */
  method ListMarkingEachPair(q: Query) returns (rows: Option<seq<Row>>)
    requires NewestFirst(q.years)
    ensures rows.None? <==> q.years == []
    ensures rows.Some? ==> NoKeyTwice(rows.value) && forall row :: row in rows.value <==> Wanted(q, row)
  {
    if q.years == [] {
      return None;
    }
    var index := BuildIndex(OperationsOf(q), q.bulk, q.years[|q.years| - 1], q.years[0]);
    var list: seq<Row>, added: set<OperationYear> := [], {};
    for i := 0 to |q.timelines|
      invariant NoKeyTwice(list) && added == set row | row in list :: row.key
      invariant forall row :: row in list <==> !row.fallback && Wanted(q.(timelines := q.timelines[..i]), row)
    {
      assert q.timelines[i].operation in OperationsOf(q);
      forall row: Row {
        OneMoreRowFor(q.timelines, i, row.key.operation);
      }
      list, added := OfferYearsMarking(q, q.timelines[i].operation, false, index, list, added);
    }
    assert q.timelines[..|q.timelines|] == q.timelines;
    for i := 0 to |q.current|
      invariant NoKeyTwice(list) && added == set row | row in list :: row.key
      invariant forall row :: row in list <==> WantedBy(q, i, row)
    {
      forall row: Row {
        MarkedFallback(q, list, i, row);
      }
      list, added := OfferYearsMarking(q, q.current[i], true, index, list, added);
    }
    return Some(list);
  }

  predicate WantedBy(q: Query, i: nat, row: Row)
    requires i <= |q.current|
  {
    (!row.fallback || row.key.operation in q.current[..i]) && Wanted(q, row)
  }

  lemma MarkedFallback(q: Query, list: seq<Row>, i: nat, row: Row)
    requires i < |q.current| && forall other :: other in list <==> WantedBy(q, i, other)
    ensures WantedBy(q, i + 1, row) <==> row in list || NewlyListed(q, list, q.current[i], q.years, true, row)
  {
    assert q.current[..i + 1] == q.current[..i] + [q.current[i]];
    var designated := Row(row.key, false);
    if row.fallback && row.key.operation == q.current[i] && row !in list {
      assert forall other | other in list && other.key == row.key :: other == designated;
      assert designated in list <==> Wanted(q, designated);
    }
  }

  lemma OneMoreRowFor(timelines: seq<TimelineRow>, i: nat, o: OperationId)
    requires i < |timelines|
    ensures RowsFor(timelines[..i + 1], o) == RowsFor(timelines[..i], o) + if timelines[i].operation == o then 1 else 0
  {
    assert timelines[..i + 1][..i] == timelines[..i];
  }

  /** It would hold every pair of a registered operation that is accepted, and accept exactly what it
      offers for years in which the operator or nobody was designated. */
  lemma WantedExact(q: Query, r: Registry, key: OperationYear)
    requires Answers(q, r) && NewestFirst(q.years) && r.owner.Keys == r.lines.Keys
    requires forall o | o in r.lines :: Chain(r.lines[o])
    requires key.operation in r.registered && key.year in q.years
    ensures CheckPastReport(r, q.operator, key) == None ==> Wanted(q, Row(key, false)) || Wanted(q, Row(key, true))
    ensures Wanted(q, Row(key, false)) ==> CheckPastReport(r, q.operator, key) == None
    ensures Wanted(q, Row(key, true)) ==>
      (CheckPastReport(r, q.operator, key) == None <==> Lookup(r.lines[key.operation], key.year) == None)
  {
    RowsForIffAny(q.timelines, key.operation);
    if key.operation in OperationsOf(q) && key.operation in r.lines {
      DesignationIsLookup(q, r, key);
    }
    if key.operation in r.lines && Lookup(r.lines[key.operation], key.year).Some? {
      var i := LookupSome(r.lines[key.operation], key.year);
      if r.lines[key.operation][i].owner == q.operator {
        assert TimelineRow(key.operation, r.lines[key.operation][i]) in q.timelines;
      }
    }
  }
}
