/** The other two places that ask who owned an operation: the bulk index over several reporting years
    and the date-range query for the compliance versions of previously owned operations. */
module OwnershipQueries {
  import opened Prelude
  import opened Calendar
  import opened Ids
  import opened Timelines

  type OperatorLine = seq<Span<OperatorId>>

  datatype OperationYear = OperationYear(operation: OperationId, year: int)

  datatype TimelineRow = TimelineRow(operation: OperationId, span: Span<OperatorId>)

  /** The filter of the bulk query. */
  predicate InBulkQuery(lines: map<OperationId, OperatorLine>, operations: set<OperationId>,
                        minYear: int, maxYear: int, row: TimelineRow)
  {
    && row.operation in operations && row.operation in lines && row.span in lines[row.operation]
    && YearOf(row.span.start) <= maxYear
    && (row.span.end.None? || YearOf(row.span.end.value) > minYear)
  }

  predicate Covers(row: TimelineRow, key: OperationYear) {
    row.operation == key.operation && Matches(row.span, key.year)
  }

  /** The span that filling a dictionary row after row leaves under a key. */
  function LastWrite(rows: seq<TimelineRow>, key: OperationYear): Option<Span<OperatorId>> {
    if rows == [] then None
    else
      var last := |rows| - 1;
      if Covers(rows[last], key) then Some(rows[last].span) else LastWrite(rows[..last], key)
  }

  /** The bulk index, filled by the nested loops over query rows and reporting years. */
  method BuildIndex(operations: set<OperationId>, rows: seq<TimelineRow>, minYear: int, maxYear: int)
    returns (index: map<OperationYear, Span<OperatorId>>)
    ensures forall key :: key in index <==>
      operations != {} && minYear <= key.year <= maxYear && LastWrite(rows, key).Some?
    ensures forall key | key in index :: Some(index[key]) == LastWrite(rows, key)
  {
    index := map[];
    if operations == {} {
      return;
    }
    for i := 0 to |rows|
      invariant forall key :: key in index <==> minYear <= key.year <= maxYear && LastWrite(rows[..i], key).Some?
      invariant forall key | key in index :: Some(index[key]) == LastWrite(rows[..i], key)
    {
      var row := rows[i];
      ghost var before := index;
      var startYear := YearOf(row.span.start);
      var year := minYear;
      while year <= maxYear
        invariant forall key :: key in index <==>
          key in before || (minYear <= key.year <= maxYear && key.year < year && Covers(row, key))
        invariant forall key | key in index ::
          index[key] == if key.year < year && Covers(row, key) then row.span else before[key]
        decreases maxYear - year
      {
        if !(startYear > year) && !(row.span.end.Some? && YearOf(row.span.end.value) <= year) {
          index := index[OperationYear(row.operation, year) := row.span];
        }
        year := year + 1;
      }
      assert rows[..i + 1][..i] == rows[..i];
    }
    assert rows[..|rows|] == rows;
  }

  lemma {:induction false} LastWriteCovers(rows: seq<TimelineRow>, key: OperationYear)
    ensures LastWrite(rows, key).Some? ==> TimelineRow(key.operation, LastWrite(rows, key).value) in rows
                                           && Matches(LastWrite(rows, key).value, key.year)
    ensures LastWrite(rows, key).None? ==> forall row | row in rows :: !Covers(row, key)
  {
    if rows != [] {
      LastWriteCovers(rows[..|rows| - 1], key);
      assert rows == rows[..|rows| - 1] + [rows[|rows| - 1]];
    }
  }

  /** On chain-shaped timelines the bulk index answers, for every operation asked about and every year
      in range, exactly what the single lookup answers, in whatever order the rows arrive; it holds
      nothing for any other operation. */
  lemma BulkIndexIsSingleLookup(lines: map<OperationId, OperatorLine>, operations: set<OperationId>,
                                rows: seq<TimelineRow>, minYear: int, maxYear: int, key: OperationYear)
    requires forall row :: row in rows <==> InBulkQuery(lines, operations, minYear, maxYear, row)
    requires forall operation | operation in operations && operation in lines :: Chain(lines[operation])
    requires minYear <= key.year <= maxYear
    ensures LastWrite(rows, key) ==
            if key.operation in operations && key.operation in lines
            then Lookup(lines[key.operation], key.year) else None
  {
    LastWriteCovers(rows, key);
    if key.operation in operations && key.operation in lines {
      var line := lines[key.operation];
      ChainLookupExact(line, key.year);
      if Lookup(line, key.year).Some? {
        var i := LookupSome(line, key.year);
        var row := TimelineRow(key.operation, line[i]);
        assert InBulkQuery(lines, operations, minYear, maxYear, row) && Covers(row, key);
      }
    }
  }

  /** The bulk query lists the rows of each operation by start date; ties in any order. */
  predicate ListedByStart(rows: seq<TimelineRow>) {
    forall i, j | 0 <= i <= j < |rows| && rows[i].operation == rows[j].operation ::
      AtOrBefore(rows[i].span.start, rows[j].span.start)
  }

  /** The last row that is a or b is a. */
  predicate ListedLast(rows: seq<TimelineRow>, a: TimelineRow, b: TimelineRow) {
    exists i | 0 <= i < |rows| :: rows[i] == a && forall j | i <= j < |rows| :: rows[j] != b
  }

  lemma ListedLastByStart(rows: seq<TimelineRow>, a: TimelineRow, b: TimelineRow)
    requires ListedByStart(rows) && a in rows && b in rows && a.operation == b.operation
    ensures !AtOrBefore(a.span.start, b.span.start) ==> ListedLast(rows, a, b)
    ensures !AtOrBefore(b.span.start, a.span.start) ==> !ListedLast(rows, a, b)
  {
    if !AtOrBefore(a.span.start, b.span.start) {
      var i :| 0 <= i < |rows| && rows[i] == a;
      forall j | i <= j < |rows| ensures rows[j] != b {
        assert rows[j].operation == a.operation ==> AtOrBefore(rows[i].span.start, rows[j].span.start);
      }
    }
  }

  /** Of the only two rows that cover a key, the one listed last is written last. */
  lemma {:induction false} LastOfTwo(rows: seq<TimelineRow>, key: OperationYear, a: TimelineRow, b: TimelineRow)
    requires a != b && Covers(a, key) && Covers(b, key)
    requires forall row | row in rows && Covers(row, key) :: row == a || row == b
    ensures ListedLast(rows, a, b) <==> LastWrite(rows, key) == Some(a.span)
  {
    if rows != [] {
      var last, rest := rows[|rows| - 1], rows[..|rows| - 1];
      assert rows == rest + [last];
      LastOfTwo(rest, key, a, b);
      assert a.span != b.span;
      if last == a {
        assert rows[|rows| - 1] == a && forall j | |rows| - 1 <= j < |rows| :: rows[j] != b;
      } else if last != b {
        if ListedLast(rest, a, b) {
          var i :| 0 <= i < |rest| && rest[i] == a && forall j | i <= j < |rest| :: rest[j] != b;
          assert rows[i] == a && forall j | i <= j < |rows| :: rows[j] != b;
        }
        if ListedLast(rows, a, b) {
          var i :| 0 <= i < |rows| && rows[i] == a && forall j | i <= j < |rows| :: rows[j] != b;
          assert rest[i] == a && forall j | i <= j < |rest| :: rest[j] != b;
        }
      }
    }
  }

  /** The rows of a chain after a transfer dated in an earlier year than the row it closes: that row
      matches no year any more, and the new one every year from its own on. */
  lemma BackdatedMatches(line: OperatorLine, h: Handover<OperatorId>, i: nat, year: int)
    requires Chain(line) && YearOf(h.at) < YearOf(Last(line).start) && i <= |line|
    ensures Matches(HandedOver(line, h)[i], year) <==>
            if i == |line| then YearOf(h.at) <= year
            else i < |line| - 1 && Matches(line[i], year)
    ensures i < |line| - 1 && Matches(line[i], year) ==> year < YearOf(Last(line).start)
  {
    if i < |line| - 1 {
      EndsByLaterStart(line, i, |line| - 1);
    }
  }

  /** A year before such a transfer is answered as before; a later one by the row that was in force, if
      any was before the closed row, and else by the new one. */
  lemma BackdatedLookup(line: OperatorLine, h: Handover<OperatorId>, year: int)
    requires Chain(line) && YearOf(h.at) < YearOf(Last(line).start)
    ensures Lookup(HandedOver(line, h), year) ==
            if year < YearOf(Last(line).start) && Lookup(line, year).Some? then Lookup(line, year)
            else if YearOf(h.at) <= year then Some(Span(h.to, h.at, None))
            else None
  {
    var after, n := HandedOver(line, h), |line| - 1;
    forall i | 0 <= i <= n + 1
      ensures Matches(after[i], year) <==> if i == n + 1 then YearOf(h.at) <= year else i < n && Matches(line[i], year)
      ensures i < n && Matches(line[i], year) ==> year < YearOf(line[n].start)
    {
      BackdatedMatches(line, h, i, year);
    }
    if year < YearOf(line[n].start) && Lookup(line, year).Some? {
      var i := LookupSome(line, year);
      assert after[i] == line[i];
      LookupIsFirstMatch(after, year, i);
    } else {
      LookupNone(line, year);
      ChainLookupExact(line, year);
      if YearOf(h.at) <= year {
        LookupIsFirstMatch(after, year, n + 1);
      } else {
        LookupNone(after, year);
      }
    }
  }

  /** What the bulk index is asked about an operation with such a transfer. */
  ghost predicate BackdatedQuery(line: OperatorLine, h: Handover<OperatorId>, o: OperationId,
                                 lines: map<OperationId, OperatorLine>, operations: set<OperationId>,
                                 rows: seq<TimelineRow>, minYear: int, maxYear: int)
  {
    && Chain(line) && YearOf(h.at) < YearOf(Last(line).start)
    && o in operations && o in lines && lines[o] == HandedOver(line, h)
    && (forall row :: row in rows <==> InBulkQuery(lines, operations, minYear, maxYear, row))
  }

  /** The row that was in force in a year before the transfer, if not the closed one. */
  function InForce(line: OperatorLine, year: int): Option<Span<OperatorId>>
    requires line != []
  {
    if year < YearOf(Last(line).start) then Lookup(line, year) else None
  }

  /** One year is answered alike exactly when it is before the transfer, or no other row was in force in
      it, or that row is listed after the new one. */
  lemma BackdatedYearAgreesIff(line: OperatorLine, h: Handover<OperatorId>, o: OperationId,
                               lines: map<OperationId, OperatorLine>, operations: set<OperationId>,
                               rows: seq<TimelineRow>, minYear: int, maxYear: int, year: int)
    requires BackdatedQuery(line, h, o, lines, operations, rows, minYear, maxYear) && minYear <= year <= maxYear
    ensures LastWrite(rows, OperationYear(o, year)) == Lookup(lines[o], year) <==>
            (YearOf(h.at) <= year && InForce(line, year).Some? ==>
               ListedLast(rows, TimelineRow(o, InForce(line, year).value), TimelineRow(o, Span(h.to, h.at, None))))
  {
    var after, key, new' := HandedOver(line, h), OperationYear(o, year), TimelineRow(o, Span(h.to, h.at, None));
    LastWriteCovers(rows, key);
    BackdatedLookup(line, h, year);
    forall i | 0 <= i < |after|
      ensures Matches(after[i], year) ==>
        TimelineRow(o, after[i]) == new' || InForce(line, year) == Some(after[i])
    {
      BackdatedMatches(line, h, i, year);
      ChainLookupExact(line, year);
    }
    if Lookup(after, year).Some? {
      var i := LookupSome(after, year);
      assert InBulkQuery(lines, operations, minYear, maxYear, TimelineRow(o, after[i]));
    }
    if YearOf(h.at) <= year && InForce(line, year).Some? {
      var i := LookupSome(line, year);
      var old' := TimelineRow(o, line[i]);
      EndsByLaterStart(line, i, |line| - 1);
      assert after[|line|] == new'.span && InBulkQuery(lines, operations, minYear, maxYear, new');
      LastOfTwo(rows, key, old', new');
    }
  }

  /** A transfer dated in an earlier year than the row it closes leaves index and lookup in agreement, for
      all years asked about, exactly when in the first of them from the transfer's year on nobody was
      designated by an earlier row, or that row is listed after the new one. */
  lemma BackdatedIndexAgreesIff(line: OperatorLine, h: Handover<OperatorId>, o: OperationId,
                                lines: map<OperationId, OperatorLine>, operations: set<OperationId>,
                                rows: seq<TimelineRow>, minYear: int, maxYear: int)
    requires BackdatedQuery(line, h, o, lines, operations, rows, minYear, maxYear) && ListedByStart(rows)
    ensures
      var first := if YearOf(h.at) < minYear then minYear else YearOf(h.at);
      var new' := TimelineRow(o, Span(h.to, h.at, None));
      (forall year | minYear <= year <= maxYear ::
        LastWrite(rows, OperationYear(o, year)) == Lookup(lines[o], year)) <==>
        (first <= maxYear && InForce(line, first).Some? ==>
           ListedLast(rows, TimelineRow(o, InForce(line, first).value), new'))
  {
    var first := if YearOf(h.at) < minYear then minYear else YearOf(h.at);
    var new' := TimelineRow(o, Span(h.to, h.at, None));
    if first <= maxYear {
      BackdatedYearAgreesIff(line, h, o, lines, operations, rows, minYear, maxYear, first);
    }
    if first <= maxYear && InForce(line, first).Some? ==>
         ListedLast(rows, TimelineRow(o, InForce(line, first).value), new')
    {
      forall year | minYear <= year <= maxYear
        ensures LastWrite(rows, OperationYear(o, year)) == Lookup(lines[o], year)
      {
        BackdatedYearAgreesIff(line, h, o, lines, operations, rows, minYear, maxYear, year);
        if YearOf(h.at) <= year && InForce(line, year).Some? && InForce(line, year) != InForce(line, first) {
          LaterRowListedLast(line, h, o, lines, operations, rows, minYear, maxYear, first, year);
        }
      }
    }
  }

  lemma LaterRowListedLast(line: OperatorLine, h: Handover<OperatorId>, o: OperationId,
                           lines: map<OperationId, OperatorLine>, operations: set<OperationId>,
                           rows: seq<TimelineRow>, minYear: int, maxYear: int, first: int, year: int)
    requires BackdatedQuery(line, h, o, lines, operations, rows, minYear, maxYear) && ListedByStart(rows)
    requires YearOf(h.at) <= first <= year <= maxYear && minYear <= first
    requires InForce(line, year).Some? && InForce(line, year) != InForce(line, first)
    ensures ListedLast(rows, TimelineRow(o, InForce(line, year).value), TimelineRow(o, Span(h.to, h.at, None)))
  {
    var i := LookupSome(line, year);
    var a, b := TimelineRow(o, line[i]), TimelineRow(o, Span(h.to, h.at, None));
    ChainLookupExact(line, year);
    ChainLookupExact(line, first);
    assert YearOf(line[i].start) > first by {
      assert !Matches(line[i], first);
    }
    BackdatedMatches(line, h, i, year);
    assert HandedOver(line, h)[i] == line[i] && HandedOver(line, h)[|line|] == b.span;
    assert InBulkQuery(lines, operations, minYear, maxYear, a) && InBulkQuery(lines, operations, minYear, maxYear, b);
    ListedLastByStart(rows, a, b);
  }

  /** In terms of dates: listed after the new row is a row that starts later, and before it one that
      starts earlier. */
  lemma BackdatedByDates(line: OperatorLine, h: Handover<OperatorId>, o: OperationId,
                         lines: map<OperationId, OperatorLine>, operations: set<OperationId>,
                         rows: seq<TimelineRow>, minYear: int, maxYear: int)
    requires BackdatedQuery(line, h, o, lines, operations, rows, minYear, maxYear) && ListedByStart(rows)
    requires minYear <= YearOf(h.at) <= maxYear
    requires InForce(line, YearOf(h.at)).Some? ==> InForce(line, YearOf(h.at)).value.start != h.at
    ensures
      (forall year | minYear <= year <= maxYear ::
        LastWrite(rows, OperationYear(o, year)) == Lookup(lines[o], year)) <==>
      InForce(line, YearOf(h.at)).None? || AtOrBefore(h.at, InForce(line, YearOf(h.at)).value.start)
  {
    BackdatedIndexAgreesIff(line, h, o, lines, operations, rows, minYear, maxYear);
    var year := YearOf(h.at);
    if InForce(line, year).Some? {
      var i := LookupSome(line, year);
      var a, b := TimelineRow(o, line[i]), TimelineRow(o, Span(h.to, h.at, None));
      BackdatedMatches(line, h, i, year);
      ChainLookupExact(line, year);
      assert HandedOver(line, h)[i] == line[i] && HandedOver(line, h)[|line|] == b.span;
      assert InBulkQuery(lines, operations, minYear, maxYear, a) && InBulkQuery(lines, operations, minYear, maxYear, b);
      ListedLastByStart(rows, a, b);
    }
  }

  /** The index then gives the year to the new operator while the lookup still gives it to the old one:
      after a transfer of 2026 and one dated 2025, both the first and the last row cover 2025. */
  lemma BackdatedIndexDiffers()
    ensures
      var start, late, early := At(Date(2024, 1), 0), At(Date(2026, 1), 0), At(Date(2025, 1), 0);
      var line := [Span(1, start, Some(late)), Span(2, late, None)];
      var after := HandedOver(line, Handover(2, 3, early));
      && Chain(line) && !Chain(after) && Contiguous(after)
      && Lookup(after, 2025) == Some(after[0])
      && LastWrite([TimelineRow(7, after[0]), TimelineRow(7, after[2])], OperationYear(7, 2025)) == Some(after[2])
  {
    var start, late, early := At(Date(2024, 1), 0), At(Date(2026, 1), 0), At(Date(2025, 1), 0);
    var line := [Span(1, start, Some(late)), Span(2, late, None)];
    var after := HandedOver(line, Handover(2, 3, early));
    assert after == [Span(1, start, Some(late)), Span(2, late, Some(early)), Span(3, early, None)];
    assert !NotAfter(ByYear, after[1].start, after[2].start);
  }

  /** A compliance report version, as far as the previously-owned query sees it. */
  datatype Version = Version(id: nat, operation: OperationId, periodYear: int)

  /** The date comparison of the previously-owned query, for a period that ends on December 31. */
  predicate OwnedAtPeriodEnd(span: Span<OperatorId>, periodYear: int) {
    && span.end.Some?
    && DateBefore(EndOfYear(periodYear), span.end.value.date)
    && DateAtOrBefore(span.start.date, EndOfYear(periodYear))
  }

  /** The previously-owned query: an OR of one condition per closed row of the operator. */
  method VersionsOfPreviouslyOwned(owned: seq<TimelineRow>, versions: set<Version>) returns (selected: set<Version>)
    ensures selected == set v | v in versions
                                && exists row | row in owned :: row.operation == v.operation
                                                                && OwnedAtPeriodEnd(row.span, v.periodYear)
  {
    selected := {};
    if owned == [] {
      return;
    }
    for i := 0 to |owned|
      invariant selected == set v | v in versions
                                    && exists row | row in owned[..i] :: row.operation == v.operation
                                                                         && OwnedAtPeriodEnd(row.span, v.periodYear)
    {
      selected := selected + set v | v in versions && v.operation == owned[i].operation
                                     && OwnedAtPeriodEnd(owned[i].span, v.periodYear);
      assert owned[..i + 1] == owned[..i] + [owned[i]];
    }
    assert owned[..|owned|] == owned;
  }

  /** The comparison of dates with December 31 is the comparison of years. */
  lemma PeriodEndTestIsYearTest(span: Span<OperatorId>, year: int)
    ensures OwnedAtPeriodEnd(span, year) <==> span.end.Some? && Matches(span, year)
  {
  }

  /** The two definitions of past ownership agree: on chain-shaped timelines the query selects a
      version exactly when the single lookup for its year answers with a closed row of the operator. */
  lemma PreviouslyOwnedAgreesWithLookup(lines: map<OperationId, OperatorLine>, operator: OperatorId,
                                        owned: seq<TimelineRow>, v: Version)
    requires v.operation in lines && Chain(lines[v.operation])
    requires forall row :: row in owned <==>
      row.operation in lines && row.span in lines[row.operation]
      && row.span.owner == operator && row.span.end.Some?
    ensures (exists row | row in owned :: row.operation == v.operation && OwnedAtPeriodEnd(row.span, v.periodYear))
       <==> match Lookup(lines[v.operation], v.periodYear)
            case None => false
            case Some(span) => span.owner == operator && span.end.Some?
  {
    var line := lines[v.operation];
    ChainLookupExact(line, v.periodYear);
    if Lookup(line, v.periodYear).Some? {
      var i := LookupSome(line, v.periodYear);
      if line[i].owner == operator && line[i].end.Some? {
        assert TimelineRow(v.operation, line[i]) in owned;
      }
    }
  }
}
