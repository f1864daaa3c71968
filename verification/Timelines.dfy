/** Ownership timelines: the rows that say who was designated for an operation (or which operation
    was designated for a facility), in primary-key order, and the step that hands the open row over. */
module Timelines {
  import opened Prelude
  import opened Calendar

  /** One timeline row. An absent end marks the row that is still in force. */
  datatype Span<T> = Span(owner: T, start: Instant, end: Option<Instant>)

  /** A transfer of whatever the timeline is about to a new owner. */
  datatype Handover<T> = Handover(from: T, to: T, at: Instant)

  function Last<T>(line: seq<Span<T>>): Span<T>
    requires line != []
  {
    line[|line| - 1]
  }

  /** Every closed row ends where the next one starts, and only the newest row is open. */
  predicate Contiguous<T>(line: seq<Span<T>>) {
    && line != []
    && Last(line).end.None?
    && forall i, j | 0 <= i && j == i + 1 < |line| :: line[i].end == Some(line[j].start)
  }

  /** Starts that never go back, by the instant or by the year alone. */
  predicate Ordered<T>(g: Grain, line: seq<Span<T>>) {
    forall i, j | 0 <= i <= j < |line| :: NotAfter(g, line[i].start, line[j].start)
  }

  /** What the year filters need: contiguous rows whose starts never go back to an earlier year. */
  predicate Chain<T>(line: seq<Span<T>>) {
    Contiguous(line) && Ordered(ByYear, line)
  }

  lemma OrderedByYear<T>(line: seq<Span<T>>)
    requires Ordered(ByInstant, line)
    ensures Ordered(ByYear, line)
  {
    forall i, j | 0 <= i <= j < |line| ensures NotAfter(ByYear, line[i].start, line[j].start) {
      assert NotAfter(ByInstant, line[i].start, line[j].start);
    }
  }

  /** The year filter of both designated-operator queries. */
  predicate Matches<T>(span: Span<T>, year: int) {
    YearOf(span.start) <= year && (span.end.None? || YearOf(span.end.value) > year)
  }

  /** The single lookup: the first matching row in primary-key order. */
  function Lookup<T>(line: seq<Span<T>>, year: int): Option<Span<T>> {
    if line == [] then None
    else if Matches(line[0], year) then Some(line[0])
    else Lookup(line[1..], year)
  }

  /** The plain Year -> Owner map that a timeline stands for. */
  function Designated<T>(line: seq<Span<T>>, year: int): Option<T> {
    match Lookup(line, year)
    case None => None
    case Some(span) => Some(span.owner)
  }

  /** The row "owned by this owner and still open", as an index. */
  function FindOpen<T(==)>(line: seq<Span<T>>, owner: T): (found: Option<nat>)
    ensures found.Some? ==>
      && found.value < |line|
      && line[found.value].owner == owner && line[found.value].end.None?
    ensures found.None? ==> forall i | 0 <= i < |line| :: line[i].owner != owner || line[i].end.Some?
  {
    if line == [] then None
    else if line[0].owner == owner && line[0].end.None? then Some(0)
    else
      match FindOpen(line[1..], owner)
      case None => assert forall i | 1 <= i < |line| :: line[i] == line[1..][i - 1]; None
      case Some(i) => Some(i + 1)
  }

  predicate HasOpen<T>(line: seq<Span<T>>) {
    exists i | 0 <= i < |line| :: line[i].end.None?
  }

  /** Close the open row of the outgoing owner, if there is one, then insert the row of the incoming
      owner. The insertion is refused (None) while any row of the timeline is still open, which is
      the unique constraint both timeline tables carry. */
  function Transfer<T(==)>(line: seq<Span<T>>, h: Handover<T>): Option<seq<Span<T>>> {
    var closed :=
      match FindOpen(line, h.from)
      case None => line
      case Some(i) => line[i := line[i].(end := Some(h.at))];
    if HasOpen(closed) then None
    else Some(closed + [Span(h.to, h.at, None)])
  }

  /** The timeline after a successful transfer of a contiguous timeline. */
  function HandedOver<T>(line: seq<Span<T>>, h: Handover<T>): seq<Span<T>>
    requires line != []
  {
    line[|line| - 1 := Last(line).(end := Some(h.at))] + [Span(h.to, h.at, None)]
  }

  /** The wrong outgoing owner is caught by the constraint: a transfer goes through exactly when it
      names the owner of the open row, and then rewrites only that row and appends one. */
  lemma TransferSucceedsIffOwner<T>(line: seq<Span<T>>, h: Handover<T>)
    requires Contiguous(line)
    ensures Transfer(line, h) ==
            if Last(line).owner == h.from then Some(HandedOver(line, h)) else None
  {
    var last := |line| - 1;
    forall i | 0 <= i < last ensures line[i].end.Some? {
      assert line[i].end == Some(line[i + 1].start);
    }
    if Last(line).owner == h.from {
      assert FindOpen(line, h.from) == Some(last);
    } else {
      assert FindOpen(line, h.from) == None;
      assert line[last].end.None? && HasOpen(line);
    }
  }

  lemma TransferKeepsContiguous<T>(line: seq<Span<T>>, h: Handover<T>)
    requires Contiguous(line)
    ensures Contiguous(HandedOver(line, h))
    ensures Last(HandedOver(line, h)) == Span(h.to, h.at, None)
  {
    var after := HandedOver(line, h);
    forall i, j | 0 <= i && j == i + 1 < |after| ensures after[i].end == Some(after[j].start) {
      if j < |line| {
        assert line[i].end == Some(line[j].start);
      }
    }
  }

  /** No date is checked before a transfer is carried out. It keeps the rows in order exactly when
      they were in order and it is not dated before the row it closes, whether whole dates or only years
      are compared. */
  lemma TransferKeepsOrderIff<T>(g: Grain, line: seq<Span<T>>, h: Handover<T>)
    requires line != []
    ensures Ordered(g, HandedOver(line, h)) <==> Ordered(g, line) && NotAfter(g, Last(line).start, h.at)
  {
    var after := HandedOver(line, h);
    assert forall i | 0 <= i < |line| :: after[i].start == line[i].start;
    if Ordered(g, after) {
      assert NotAfter(g, after[|line| - 1].start, after[|line|].start);
      forall i, j | 0 <= i <= j < |line| ensures NotAfter(g, line[i].start, line[j].start) {
        assert NotAfter(g, after[i].start, after[j].start);
      }
    }
    if Ordered(g, line) && NotAfter(g, Last(line).start, h.at) {
      forall i, j | 0 <= i <= j < |after| ensures NotAfter(g, after[i].start, after[j].start) {
        if j < |line| {
          assert NotAfter(g, line[i].start, line[j].start);
        } else if i < |line| {
          assert NotAfter(g, line[i].start, line[|line| - 1].start);
        }
      }
    }
  }

  lemma {:induction false} LookupIsFirstMatch<T>(line: seq<Span<T>>, year: int, i: nat)
    requires i < |line| && Matches(line[i], year)
    requires forall j | 0 <= j < i :: !Matches(line[j], year)
    ensures Lookup(line, year) == Some(line[i])
  {
    if i > 0 {
      assert !Matches(line[0], year);
      assert forall j | 0 <= j < i - 1 :: line[1..][j] == line[j + 1];
      LookupIsFirstMatch(line[1..], year, i - 1);
    }
  }

  lemma {:induction false} LookupSome<T>(line: seq<Span<T>>, year: int) returns (i: nat)
    requires Lookup(line, year).Some?
    ensures i < |line| && Matches(line[i], year) && Lookup(line, year) == Some(line[i])
    ensures forall j | 0 <= j < i :: !Matches(line[j], year)
  {
    if Matches(line[0], year) {
      i := 0;
    } else {
      var k := LookupSome(line[1..], year);
      i := k + 1;
      assert forall j | 1 <= j < i :: line[j] == line[1..][j - 1];
    }
  }

  lemma {:induction false} LookupNone<T>(line: seq<Span<T>>, year: int)
    ensures Lookup(line, year).None? <==> forall i | 0 <= i < |line| :: !Matches(line[i], year)
  {
    if line != [] && !Matches(line[0], year) {
      LookupNone(line[1..], year);
      assert forall i | 1 <= i < |line| :: line[i] == line[1..][i - 1];
      assert forall i | 0 <= i < |line| - 1 :: line[1..][i] == line[i + 1];
    }
  }

  lemma EndsByLaterStart<T>(line: seq<Span<T>>, i: nat, j: nat)
    requires Chain(line) && i < j < |line|
    ensures line[i].end.Some? && YearOf(line[i].end.value) <= YearOf(line[j].start)
  {
    assert line[i].end == Some(line[i + 1].start);
    assert NotAfter(ByYear, line[i + 1].start, line[j].start);
  }

  /** Two rows of a chain never match the same year. */
  lemma ChainMatchesAtMostOne<T>(line: seq<Span<T>>, year: int, i: nat, j: nat)
    requires Chain(line)
    requires i < |line| && j < |line| && Matches(line[i], year) && Matches(line[j], year)
    ensures i == j
  {
    if i < j {
      EndsByLaterStart(line, i, j);
    } else if j < i {
      EndsByLaterStart(line, j, i);
    }
  }

  /** From the first start year on, some row of a contiguous timeline matches. */
  lemma {:induction false} MatchesFrom<T>(line: seq<Span<T>>, year: int) returns (i: nat)
    requires Contiguous(line) && YearOf(line[0].start) <= year
    ensures i < |line| && Matches(line[i], year)
  {
    if Matches(line[0], year) {
      i := 0;
    } else {
      var rest := line[1..];
      assert line[0].end.Some? && |line| > 1;
      assert line[0].end == Some(line[1].start);
      forall a, b | 0 <= a && b == a + 1 < |rest| ensures rest[a].end == Some(rest[b].start) {
        assert line[a + 1].end == Some(line[a + 2].start);
      }
      var k := MatchesFrom(rest, year);
      i := k + 1;
    }
  }

  /** So whatever the dates of later rows, the lookup answers for every year from the first row's on. */
  lemma LookupAnswersFrom<T>(line: seq<Span<T>>, year: int)
    requires Contiguous(line) && YearOf(line[0].start) <= year
    ensures Lookup(line, year).Some?
  {
    var i := MatchesFrom(line, year);
    LookupNone(line, year);
  }

  /** A chain answers the single lookup exactly from its first start year on, and the answer is the
      one row that matches. */
  lemma ChainLookupExact<T>(line: seq<Span<T>>, year: int)
    requires Chain(line)
    ensures Lookup(line, year).Some? <==> YearOf(line[0].start) <= year
    ensures forall i | 0 <= i < |line| :: Matches(line[i], year) <==> Lookup(line, year) == Some(line[i])
  {
    LookupNone(line, year);
    if YearOf(line[0].start) <= year {
      var k := MatchesFrom(line, year);
      forall i | 0 <= i < |line| && Matches(line[i], year) ensures i == k {
        ChainMatchesAtMostOne(line, year, i, k);
      }
      LookupIsFirstMatch(line, year, k);
      assert forall i | 0 <= i < |line| && line[i] == line[k] :: Matches(line[i], year);
    } else {
      forall i | 0 <= i < |line| ensures !Matches(line[i], year) {
        assert NotAfter(ByYear, line[0].start, line[i].start);
      }
    }
  }

  /** The year rises past the given one between some row before k and the next. */
  lemma {:induction false} CrossedBefore<T>(line: seq<Span<T>>, year: int, k: nat) returns (i: nat)
    requires Contiguous(line) && k < |line| && YearOf(line[0].start) <= year < YearOf(line[k].start)
    ensures i < k && Matches(line[i], year)
  {
    assert line[k - 1].end == Some(line[k].start);
    if YearOf(line[k - 1].start) <= year {
      i := k - 1;
    } else {
      i := CrossedBefore(line, year, k - 1);
    }
  }

  lemma {:induction false} StaysLater<T>(line: seq<Span<T>>, year: int, i: nat, j: nat)
    requires NoStepBack(line) && i <= j < |line| && YearOf(line[0].start) <= year < YearOf(line[i].start)
    ensures year < YearOf(line[j].start)
    decreases j
  {
    if i < j {
      StaysLater(line, year, i, j - 1);
      assert NotAfter(ByYear, line[j - 1].start, line[j].start);
    }
  }

  /** No row that starts after the first row's year is closed in an earlier year than its own. */
  predicate NoStepBack<T>(line: seq<Span<T>>) {
    forall i, j | 0 <= i && j == i + 1 < |line| && YearOf(line[0].start) < YearOf(line[i].start) ::
      NotAfter(ByYear, line[i].start, line[j].start)
  }

  predicate MatchedOnce<T>(line: seq<Span<T>>, year: int) {
    forall i, j | 0 <= i < j < |line| :: !(Matches(line[i], year) && Matches(line[j], year))
  }

  /** Exactly then each year from the first row's on belongs to one row only. */
  lemma MatchedOnceIff<T>(line: seq<Span<T>>)
    requires Contiguous(line)
    ensures (forall year | YearOf(line[0].start) <= year :: MatchedOnce(line, year)) <==> NoStepBack(line)
  {
    if NoStepBack(line) {
      forall year, i, j | YearOf(line[0].start) <= year && 0 <= i < j < |line| && Matches(line[i], year)
        ensures !Matches(line[j], year)
      {
        assert line[i].end == Some(line[i + 1].start);
        StaysLater(line, year, i + 1, j);
      }
    } else {
      var i, j :| 0 <= i && j == i + 1 < |line| && YearOf(line[0].start) < YearOf(line[i].start)
                  && !NotAfter(ByYear, line[i].start, line[j].start);
      var first := YearOf(line[0].start);
      var year := if first <= YearOf(line[j].start) then YearOf(line[j].start) else first;
      var a := CrossedBefore(line, year, i);
      var rest := line[j..];
      forall x, y | 0 <= x && y == x + 1 < |rest| ensures rest[x].end == Some(rest[y].start) {
        assert line[j + x].end == Some(line[j + y].start);
      }
      var b := MatchesFrom(rest, year);
      assert Matches(line[a], year) && Matches(line[j + b], year);
      assert !MatchedOnce(line, year);
    }
  }

  /** Years before the effective year keep their owner, whatever the dates. */
  lemma EarlierYearsUnchanged<T>(line: seq<Span<T>>, h: Handover<T>, year: int)
    requires Contiguous(line) && year < YearOf(h.at)
    ensures Designated(HandedOver(line, h), year) == Designated(line, year)
  {
    var after := HandedOver(line, h);
    forall i | 0 <= i < |line| ensures Matches(after[i], year) <==> Matches(line[i], year) {}
    assert !Matches(after[|line|], year);
    LookupNone(line, year);
    LookupNone(after, year);
    if Lookup(line, year).Some? {
      var i := LookupSome(line, year);
      LookupIsFirstMatch(after, year, i);
    }
  }

  /** The years from the effective one on pass to the new row exactly when the transfer is not dated
      in a year before the row it closes, or nothing was in force before that row anyway. */
  lemma LaterYearsPassIff<T>(line: seq<Span<T>>, h: Handover<T>)
    requires Chain(line)
    ensures (forall year | year >= YearOf(h.at) :: Lookup(HandedOver(line, h), year) == Some(Span(h.to, h.at, None)))
       <==> (YearOf(Last(line).start) <= YearOf(h.at) || YearOf(line[0].start) == YearOf(Last(line).start))
  {
    var after, n := HandedOver(line, h), |line| - 1;
    if YearOf(line[n].start) <= YearOf(h.at) || YearOf(line[0].start) == YearOf(line[n].start) {
      forall year | year >= YearOf(h.at) ensures Lookup(after, year) == Some(after[n + 1]) {
        forall i | 0 <= i < n + 1 ensures !Matches(after[i], year) {
          if i < n {
            assert line[i].end == Some(line[i + 1].start);
            assert NotAfter(ByYear, line[i + 1].start, line[n].start) && NotAfter(ByYear, line[0].start, line[i].start);
          }
        }
        LookupIsFirstMatch(after, year, n + 1);
      }
    } else {
      assert NotAfter(ByYear, line[0].start, line[n].start);
      var year := if YearOf(line[0].start) <= YearOf(h.at) then YearOf(h.at) else YearOf(line[0].start);
      var i := MatchesFrom(line, year);
      assert after[i] == line[i] && i < n;
      assert line[i].end == Some(line[i + 1].start);
      forall j | 0 <= j < i ensures !Matches(after[j], year) {
        if Matches(line[j], year) {
          ChainMatchesAtMostOne(line, year, j, i);
        }
      }
      LookupIsFirstMatch(after, year, i);
    }
  }

  /** A transfer effective in year E, not dated in a year before the row it closes, sends every year from
      E on to the new owner and no other. */
  lemma TransferRefinesYearMap<T>(line: seq<Span<T>>, h: Handover<T>, year: int)
    requires Chain(line) && YearOf(Last(line).start) <= YearOf(h.at)
    ensures Designated(HandedOver(line, h), year) ==
            if year >= YearOf(h.at) then Some(h.to) else Designated(line, year)
  {
    if year >= YearOf(h.at) {
      LaterYearsPassIff(line, h);
      assert Lookup(HandedOver(line, h), year) == Some(Span(h.to, h.at, None));
    } else {
      EarlierYearsUnchanged(line, h, year);
    }
  }

  /** A run of transfers on one timeline; the run stops at the first refusal. */
  function TransferAll<T(==)>(line: seq<Span<T>>, hs: seq<Handover<T>>): Option<seq<Span<T>>>
    decreases |hs|
  {
    if hs == [] then Some(line)
    else
      match Transfer(line, hs[0])
      case None => None
      case Some(next) => TransferAll(next, hs[1..])
  }

  /** The same run on the plain map: each transfer overwrites the years from its own on. */
  function OwnerAfterAll<T>(owner: Option<T>, hs: seq<Handover<T>>, year: int): Option<T>
    decreases |hs|
  {
    if hs == [] then owner
    else OwnerAfterAll(if year >= YearOf(hs[0].at) then Some(hs[0].to) else owner, hs[1..], year)
  }

  predicate Timely<T>(start: Instant, hs: seq<Handover<T>>)
    decreases |hs|
  {
    hs == [] || (YearOf(start) <= YearOf(hs[0].at) && Timely(hs[0].at, hs[1..]))
  }

  /** Any number of transfers, several in one year included, refine the plain map. */
  lemma {:induction false} RunRefinesYearMap<T>(line: seq<Span<T>>, hs: seq<Handover<T>>, year: int)
    requires Chain(line) && TransferAll(line, hs).Some? && Timely(Last(line).start, hs)
    ensures Chain(TransferAll(line, hs).value)
    ensures Designated(TransferAll(line, hs).value, year) == OwnerAfterAll(Designated(line, year), hs, year)
    decreases |hs|
  {
    if hs != [] {
      var next := HandedOver(line, hs[0]);
      TransferSucceedsIffOwner(line, hs[0]);
      TransferKeepsContiguous(line, hs[0]);
      TransferKeepsOrderIff(ByYear, line, hs[0]);
      TransferRefinesYearMap(line, hs[0], year);
      RunRefinesYearMap(next, hs[1..], year);
    }
  }
}
