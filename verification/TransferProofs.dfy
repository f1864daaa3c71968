/** What the transfer state machine keeps, step by step and over whole runs. */
module TransferProofs {
  import opened Prelude
  import opened Calendar
  import opened Ids
  import opened Timelines
  import opened TransferModel

  /* ---------- the daily run does not depend on the order ---------- */

  predicate Pending(db: Db, ids: set<EventId>) {
    forall id | id in ids :: id in db.events && db.events[id].status.ToBeTransferred?
  }

  lemma OperationMoverIs(db: Db, ids: set<EventId>, id: EventId, o: OperationId)
    requires Exclusive(db.events) && Pending(db, ids) && MovesOperation(db, ids, id, o)
    ensures OperationMover(db, ids, o) == Some(db.events[id])
  {
    assert forall j | j in ids && j != id :: HoldsDistinct(db.events[j], db.events[id]);
  }

  lemma DisjointFacilities(db: Db, ids: set<EventId>, id: EventId, f: FacilityId)
    requires Exclusive(db.events) && Pending(db, ids) && id in ids && f in db.events[id].facilities
    ensures forall j | j in ids && j != id :: f !in db.events[j].facilities
  {
    forall j | j in ids && j != id ensures f !in db.events[j].facilities {
      assert HoldsDistinct(db.events[j], db.events[id]);
      assert f !in db.events[j].facilities * db.events[id].facilities;
    }
  }

  lemma FacilityMoverIs(db: Db, ids: set<EventId>, id: EventId, f: FacilityId)
    requires Exclusive(db.events) && Pending(db, ids) && MovesFacility(db, ids, id, f)
    ensures FacilityMover(db, ids, f) == Some(db.events[id])
  {
    DisjointFacilities(db, ids, id, f);
  }

  lemma OperationMoverOfMore(db: Db, ids: set<EventId>, id: EventId, o: OperationId)
    requires Exclusive(db.events) && Pending(db, ids + {id}) && id !in ids
    ensures OperationMover(db, ids + {id}, o) ==
            if MovesOperation(db, {id}, id, o) then Some(db.events[id]) else OperationMover(db, ids, o)
    ensures db.events[id].operation == Some(o) ==> OperationMover(db, ids, o) == None
  {
    if MovesOperation(db, {id}, id, o) {
      OperationMoverIs(db, ids + {id}, id, o);
    } else if j :| MovesOperation(db, ids, j, o) {
      OperationMoverIs(db, ids, j, o);
      assert MovesOperation(db, ids + {id}, j, o);
      OperationMoverIs(db, ids + {id}, j, o);
    } else {
      assert forall j :: MovesOperation(db, ids + {id}, j, o) ==> j == id || MovesOperation(db, ids, j, o);
      assert forall j :: MovesOperation(db, ids + {id}, j, o) && j == id ==> MovesOperation(db, {id}, id, o);
    }
    if db.events[id].operation == Some(o) {
      assert forall j | j in ids :: HoldsDistinct(db.events[j], db.events[id]);
    }
  }

  lemma FacilityMoverOfMore(db: Db, ids: set<EventId>, id: EventId, f: FacilityId)
    requires Exclusive(db.events) && Pending(db, ids + {id}) && id !in ids
    ensures FacilityMover(db, ids + {id}, f) ==
            if MovesFacility(db, {id}, id, f) then Some(db.events[id]) else FacilityMover(db, ids, f)
    ensures f in db.events[id].facilities ==> FacilityMover(db, ids, f) == None
  {
    if MovesFacility(db, {id}, id, f) {
      FacilityMoverIs(db, ids + {id}, id, f);
    } else if j :| MovesFacility(db, ids, j, f) {
      FacilityMoverIs(db, ids, j, f);
      assert MovesFacility(db, ids + {id}, j, f);
      FacilityMoverIs(db, ids + {id}, j, f);
    } else {
      assert forall j :: MovesFacility(db, ids + {id}, j, f) ==> j == id || MovesFacility(db, ids, j, f);
      assert forall j :: MovesFacility(db, ids + {id}, j, f) && j == id ==> MovesFacility(db, {id}, id, f);
    }
    if f in db.events[id].facilities {
      DisjointFacilities(db, ids + {id}, id, f);
    }
  }

  lemma AfterNothing(db: Db)
    ensures After(db, {}) == db
  {
    assert forall o :: OperationMover(db, {}, o) == None;
    assert forall f :: FacilityMover(db, {}, f) == None;
  }

  /** The verdict on an event does not depend on which other pending events went first. */
  lemma VerdictIndependent(g: Grain, db: Db, ids: set<EventId>, id: EventId)
    requires Exclusive(db.events) && Pending(db, ids + {id}) && id !in ids
    ensures After(db, ids).events[id] == db.events[id]
    ensures Succeeds(After(db, ids), id, db.events[id]) <==> Succeeds(db, id, db.events[id])
    ensures TimelyFor(g, After(db, ids), id, db.events[id]) <==> TimelyFor(g, db, id, db.events[id])
  {
    var e := db.events[id];
    forall o | e.operation == Some(o) && o in db.operationLines
      ensures After(db, ids).operationLines[o] == db.operationLines[o]
    {
      OperationMoverOfMore(db, ids, id, o);
    }
    forall f | f in e.facilities && f in db.facilityLines
      ensures After(db, ids).facilityLines[f] == db.facilityLines[f]
    {
      FacilityMoverOfMore(db, ids, id, f);
    }
    if e.facilities != {} {
      assert FacilitiesCanMove(After(db, ids), e, e.facilities) <==> FacilitiesCanMove(db, e, e.facilities);
    }
  }

  lemma OperationAfterOneMore(db: Db, ids: set<EventId>, id: EventId, o: OperationId)
    requires Exclusive(db.events) && Pending(db, ids + {id}) && id !in ids
    requires o in db.operator && o in db.operationLines
    ensures
      var e, moves := db.events[id], MovesOperation(db, {id}, id, o);
      && OperatorAfter(db, ids + {id}, o) == (if moves then e.toOperator else OperatorAfter(db, ids, o))
      && OperationLineAfter(db, ids + {id}, o) ==
         (if moves then TransferOr(OperationLineAfter(db, ids, o), OperatorHandover(e))
          else OperationLineAfter(db, ids, o))
  {
    OperationMoverOfMore(db, ids, id, o);
  }

  lemma FacilityAfterOneMore(db: Db, ids: set<EventId>, id: EventId, f: FacilityId)
    requires Exclusive(db.events) && Pending(db, ids + {id}) && id !in ids
    requires f in db.home && f in db.facilityLines
    ensures
      var e := db.events[id];
      if MovesFacility(db, {id}, id, f) then
        && e.fromOperation.Some? && e.toOperation.Some?
        && HomeAfter(db, ids + {id}, f) == e.toOperation.value
        && FacilityLineAfter(db, ids + {id}, f) == TransferOr(FacilityLineAfter(db, ids, f), OperationHandover(e))
      else
        && HomeAfter(db, ids + {id}, f) == HomeAfter(db, ids, f)
        && FacilityLineAfter(db, ids + {id}, f) == FacilityLineAfter(db, ids, f)
  {
    FacilityMoverOfMore(db, ids, id, f);
  }

  /** The operations one more event moves: its own if it goes through as an operation transfer. */
  lemma OperationsAfterOneMore(db: Db, ids: set<EventId>, id: EventId, keys: set<OperationId>)
    requires Exclusive(db.events) && Pending(db, ids + {id}) && id !in ids && db.operator.Keys == db.operationLines.Keys
    requires forall o :: MovesOperation(db, {id}, id, o) <==> o in keys
    ensures OperatorsAfter(db, ids + {id}) == MoveOwners(OperatorsAfter(db, ids), keys, db.events[id].toOperator)
    ensures OperationLinesAfter(db, ids + {id}) ==
            MoveLines(OperationLinesAfter(db, ids), keys, OperatorHandover(db.events[id]))
  {
    var e := db.events[id];
    forall o | o in db.operator
      ensures OperatorAfter(db, ids + {id}, o) == if o in keys then e.toOperator else OperatorAfter(db, ids, o)
      ensures
        var line := OperationLineAfter(db, ids, o);
        OperationLineAfter(db, ids + {id}, o) == if o in keys then TransferOr(line, OperatorHandover(e)) else line
    {
      OperationAfterOneMore(db, ids, id, o);
    }
  }

  /** The facilities one more event moves: its own if it goes through. */
  lemma FacilitiesAfterOneMore(db: Db, ids: set<EventId>, id: EventId)
    requires Exclusive(db.events) && Pending(db, ids + {id}) && id !in ids && db.home.Keys == db.facilityLines.Keys
    requires db.events[id].fromOperation.Some? && db.events[id].toOperation.Some?
    requires forall f :: MovesFacility(db, {id}, id, f) <==> f in db.events[id].facilities
    ensures
      var e := db.events[id];
      && HomesAfter(db, ids + {id}) == MoveOwners(HomesAfter(db, ids), e.facilities, e.toOperation.value)
      && FacilityLinesAfter(db, ids + {id}) ==
         MoveLines(FacilityLinesAfter(db, ids), e.facilities, OperationHandover(e))
  {
    forall f | f in db.home {
      FacilityAfterOneMore(db, ids, id, f);
    }
  }

  lemma FacilitiesKeptByOneMore(db: Db, ids: set<EventId>, id: EventId)
    requires Exclusive(db.events) && Pending(db, ids + {id}) && id !in ids && db.home.Keys == db.facilityLines.Keys
    requires forall f :: !MovesFacility(db, {id}, id, f)
    ensures HomesAfter(db, ids + {id}) == HomesAfter(db, ids)
    ensures FacilityLinesAfter(db, ids + {id}) == FacilityLinesAfter(db, ids)
  {
    forall f | f in db.home {
      FacilityAfterOneMore(db, ids, id, f);
    }
  }

  lemma MoveNothing<T>(owners: map<nat, T>, lines: map<nat, seq<Span<T>>>, h: Handover<T>)
    ensures MoveOwners(owners, {}, h.to) == owners && MoveLines(lines, {}, h) == lines
  {
  }

  /** Processing one more pending event extends the closed form by that event, whether it goes through
      or fails. */
  lemma AfterOneMore(db: Db, ids: set<EventId>, id: EventId)
    requires Inv(db) && Pending(db, ids + {id}) && id !in ids
    ensures Succeeds(After(db, ids), id, db.events[id]) <==> Succeeds(db, id, db.events[id])
    ensures After(db, ids + {id}) ==
            match Process(After(db, ids), id, db.events[id])
            case Err(_) => After(db, ids)
            case Ok(next) => next
  {
    VerdictIndependent(ByYear, db, ids, id);
    var e := db.events[id];
    var keys := if Succeeds(db, id, e) && e.facilities == {} && e.operation.Some? then {e.operation.value} else {};
    OperationsAfterOneMore(db, ids, id, keys);
    MoveNothing(OperatorsAfter(db, ids), OperationLinesAfter(db, ids), OperatorHandover(e));
    if Succeeds(db, id, e) && e.facilities != {} {
      FacilitiesAfterOneMore(db, ids, id);
    } else {
      FacilitiesKeptByOneMore(db, ids, id);
    }
    EventsAfterOneMore(db, ids, id);
  }

  lemma EventsAfterOneMore(db: Db, ids: set<EventId>, id: EventId)
    requires Pending(db, ids + {id}) && id !in ids
    ensures EventsAfter(db, ids + {id}) ==
            if Succeeds(db, id, db.events[id])
            then EventsAfter(db, ids)[id := db.events[id].(status := Transferred)] else EventsAfter(db, ids)
  {
  }

  /* ---------- one event ---------- */

  lemma CanMoveIffOwned<T>(owners: map<nat, T>, lines: map<nat, seq<Span<T>>>, keys: set<nat>, h: Handover<T>)
    requires LinesOk(owners, lines) && keys <= owners.Keys
    ensures CanMove(owners, lines, keys, h) <==> OwnedBy(owners, keys, h.from)
  {
    forall k | k in keys ensures Transfer(lines[k], h).Some? <==> owners[k] == h.from {
      TransferSucceedsIffOwner(lines[k], h);
    }
  }

  /** Nothing in the service compares the event with the present owner, but an event goes through
      exactly when everything it is going to move belongs to the owner it names. */
  lemma SucceedsIffNamesOwner(db: Db, id: EventId, e: Event)
    requires Inv(db) && id in db.events && Known(db, e.operation)
    ensures Succeeds(db, id, e) <==> NamesOwner(db, id, e)
  {
    var facilities := db.events[id].facilities;
    assert Refers(db.events[id], db.operator.Keys, db.home.Keys);
    if facilities != {} {
      if e.fromOperation.Some? && e.toOperation.Some? {
        CanMoveIffOwned(db.home, db.facilityLines, facilities, OperationHandover(e));
      }
    } else if e.operation.Some? {
      CanMoveIffOwned(db.operator, db.operationLines, {e.operation.value}, OperatorHandover(e));
    }
  }

  /** What a move makes of one timeline. */
  lemma MovedLine<T>(g: Grain, line: seq<Span<T>>, h: Handover<T>)
    requires Contiguous(line) && Transfer(line, h).Some?
    ensures Contiguous(TransferOr(line, h)) && Last(TransferOr(line, h)).owner == h.to
    ensures Ordered(g, TransferOr(line, h)) <==> Ordered(g, line) && NotAfter(g, Last(line).start, h.at)
  {
    TransferSucceedsIffOwner(line, h);
    TransferKeepsContiguous(line, h);
    TransferKeepsOrderIff(g, line, h);
  }

  lemma MoveKeepsOrder<T>(g: Grain, lines: map<nat, seq<Span<T>>>, keys: set<nat>, h: Handover<T>)
    requires forall k | k in lines :: Contiguous(lines[k])
    requires forall k | k in keys :: k in lines && Transfer(lines[k], h).Some?
    ensures LinesInOrder(g, MoveLines(lines, keys, h)) <==> LinesInOrder(g, lines) && StartBy(g, lines, keys, h.at)
  {
    var next := MoveLines(lines, keys, h);
    forall k | k in lines
      ensures Ordered(g, next[k]) <==> Ordered(g, lines[k]) && (k in keys ==> NotAfter(g, Last(lines[k]).start, h.at))
    {
      if k in keys {
        MovedLine(g, lines[k], h);
      }
    }
    assert LinesInOrder(g, next) <==> forall k | k in lines :: Ordered(g, next[k]);
  }

  lemma MoveKeeps<T>(g: Grain, owners: map<nat, T>, lines: map<nat, seq<Span<T>>>, keys: set<nat>, h: Handover<T>)
    requires LinesOk(owners, lines) && CanMove(owners, lines, keys, h)
    ensures LinesOk(MoveOwners(owners, keys, h.to), MoveLines(lines, keys, h))
    ensures LinesInOrder(g, MoveLines(lines, keys, h)) <==> LinesInOrder(g, lines) && StartBy(g, lines, keys, h.at)
  {
    forall k | k in keys
      ensures Contiguous(TransferOr(lines[k], h)) && Last(TransferOr(lines[k], h)).owner == h.to
    {
      MovedLine(g, lines[k], h);
    }
    MoveKeepsOrder(g, lines, keys, h);
  }

  lemma MarkTransferredKeeps(events: map<EventId, Event>, id: EventId)
    requires Exclusive(events) && id in events
    ensures Exclusive(events[id := events[id].(status := Transferred)])
  {
    var next := events[id := events[id].(status := Transferred)];
    forall i, j | i in next && j in next && i != j && Active(next[i].status) && Active(next[j].status)
      ensures HoldsDistinct(next[i], next[j])
    {
      assert HoldsDistinct(events[i], events[j]);
    }
  }

  lemma FacilitiesMovedKeep(db: Db, home: map<FacilityId, OperationId>, lines: map<FacilityId, seq<Span<OperationId>>>)
    requires Inv(db) && LinesOk(home, lines) && home.Keys == db.home.Keys
    ensures Inv(db.(home := home, facilityLines := lines))
  {
  }

  lemma MoveFacilitiesKeeps(g: Grain, db: Db, e: Event, facilities: set<FacilityId>)
    requires Inv(db) && FacilitiesCanMove(db, e, facilities)
    ensures Inv(MoveFacilities(db, e, facilities))
    ensures InOrder(g, MoveFacilities(db, e, facilities)) <==>
      InOrder(g, db) && StartBy(g, db.facilityLines, facilities, e.effective)
  {
    var h := OperationHandover(e);
    MoveKeeps(g, db.home, db.facilityLines, facilities, h);
    FacilitiesMovedKeep(db, MoveOwners(db.home, facilities, h.to), MoveLines(db.facilityLines, facilities, h));
  }

  lemma OperationsMovedKeep(db: Db, operator: map<OperationId, OperatorId>,
                            lines: map<OperationId, seq<Span<OperatorId>>>)
    requires Inv(db) && LinesOk(operator, lines) && operator.Keys == db.operator.Keys
    ensures Inv(db.(operator := operator, operationLines := lines))
  {
  }

  lemma MoveOperationKeeps(g: Grain, db: Db, e: Event)
    requires Inv(db) && e.operation.Some? && OperationCanMove(db, e)
    ensures Inv(MoveOperation(db, e))
    ensures InOrder(g, MoveOperation(db, e)) <==>
      InOrder(g, db) && StartBy(g, db.operationLines, {e.operation.value}, e.effective)
  {
    var keys, h := {e.operation.value}, OperatorHandover(e);
    MoveKeeps(g, db.operator, db.operationLines, keys, h);
    OperationsMovedKeep(db, MoveOwners(db.operator, keys, h.to), MoveLines(db.operationLines, keys, h));
  }

  /** Carrying an event out keeps the invariant whatever its dates; it keeps the rows in order exactly
      when they were and the event is not dated before a row it closes. */
  lemma ProcessKeeps(g: Grain, db: Db, id: EventId, e: Event)
    requires Inv(db) && id in db.events && Succeeds(db, id, e)
    ensures Inv(Process(db, id, e).value)
    ensures InOrder(g, Process(db, id, e).value) <==> InOrder(g, db) && TimelyFor(g, db, id, e)
  {
    if db.events[id].facilities != {} {
      MoveFacilitiesKeeps(g, db, e, db.events[id].facilities);
    } else if e.operation.Some? {
      MoveOperationKeeps(g, db, e);
    }
    MarkTransferredKeeps(db.events, id);
    StatusKeepsReferences(db.events, id, db.operator.Keys, db.home.Keys);
  }

  lemma StatusKeepsReferences(events: map<EventId, Event>, id: EventId, operations: set<OperationId>,
                              facilities: set<FacilityId>)
    requires id in events && EventsRefer(events, operations, facilities)
    ensures EventsRefer(events[id := events[id].(status := Transferred)], operations, facilities)
  {
    assert Refers(events[id], operations, facilities);
  }

  /* ---------- storing and deleting events ---------- */

  lemma StoreKeepsInv(db: Db, id: EventId, e: Event)
    requires Inv(db) && Refers(e, db.operator.Keys, db.home.Keys)
    requires forall j | j in db.events && j != id && Active(db.events[j].status) ::
      HoldsDistinct(e, db.events[j]) && HoldsDistinct(db.events[j], e)
    ensures Inv(Store(db, id, e))
  {
    var next := Store(db, id, e).events;
    forall i, j | i in next && j in next && i != j && Active(next[i].status) && Active(next[j].status)
      ensures HoldsDistinct(next[i], next[j])
    {
      if i != id && j != id {
        assert HoldsDistinct(db.events[i], db.events[j]);
      }
    }
  }

  lemma NotTakenIsDistinct(db: Db, e: Event, id: EventId)
    requires e.operation.Some? ==> !OperationTaken(db, e.operation, Some(id))
    requires !FacilitiesTaken(db, e.facilities, Some(id))
    ensures forall j | j in db.events && j != id && Active(db.events[j].status) ::
      HoldsDistinct(e, db.events[j]) && HoldsDistinct(db.events[j], e)
  {
    forall j | j in db.events && j != id && Active(db.events[j].status)
      ensures HoldsDistinct(e, db.events[j]) && HoldsDistinct(db.events[j], e)
    {
      assert db.events[j].facilities * e.facilities == {};
    }
  }

  /** The overlap checks are enough: a new event that passes them leaves the active events exclusive. */
  lemma NewEventKeepsInv(db: Db, id: EventId, p: CreatePayload)
    requires Inv(db) && id !in db.events && NewEvent(db, p).Ok?
    ensures Inv(Store(db, id, NewEvent(db, p).value))
  {
    var e := NewEvent(db, p).value;
    NotTakenIsDistinct(db, e, id);
    StoreKeepsInv(db, id, e);
  }

  /** So are those of an update, which leaves out the event itself. */
  lemma UpdatedEventKeepsInv(db: Db, id: EventId, p: UpdatePayload)
    requires Inv(db) && UpdatedEvent(db, id, p).Ok?
    ensures Inv(Store(db, id, UpdatedEvent(db, id, p).value))
  {
    var old', e := db.events[id], UpdatedEvent(db, id, p).value;
    assert Refers(old', db.operator.Keys, db.home.Keys);
    forall j | j in db.events && j != id && Active(db.events[j].status)
      ensures HoldsDistinct(e, db.events[j]) && HoldsDistinct(db.events[j], e)
    {
      assert HoldsDistinct(old', db.events[j]) && HoldsDistinct(db.events[j], old');
      assert p.entity.FacilityEntity? ==> db.events[j].facilities * p.facilities == {};
    }
    StoreKeepsInv(db, id, e);
  }

  lemma DeleteKeepsInv(db: Db, id: EventId)
    requires Inv(db) && Delete(db, id).Ok?
    ensures Inv(Delete(db, id).value)
  {
    var next := Delete(db, id).value.events;
    assert forall i | i in next :: i in db.events && next[i] == db.events[i];
    assert forall i, j | i in next && j in next && i != j && Active(next[i].status) && Active(next[j].status) ::
        HoldsDistinct(db.events[i], db.events[j]);
  }

  /* ---------- the daily run ---------- */

  lemma {:induction false} AfterKeeps(g: Grain, db: Db, ids: set<EventId>)
    requires Inv(db) && Pending(db, ids)
    ensures Inv(After(db, ids))
    ensures InOrder(g, After(db, ids)) <==>
      InOrder(g, db) && forall id | GoesThrough(db, ids, id) :: TimelyFor(g, db, id, db.events[id])
  {
    if ids == {} {
      AfterNothing(db);
    } else {
      var id :| id in ids;
      var rest := ids - {id};
      assert ids == rest + {id};
      AfterKeeps(g, db, rest);
      AfterOneMore(db, rest, id);
      VerdictIndependent(g, db, rest, id);
      assert forall j :: GoesThrough(db, ids, j) <==> GoesThrough(db, rest, j) || (j == id && GoesThrough(db, ids, j));
      if Succeeds(After(db, rest), id, db.events[id]) {
        ProcessKeeps(g, After(db, rest), id, db.events[id]);
      }
    }
  }

  ghost function RunDue(db: Db, today: CalendarDate): Db {
    After(db, Due(db, today))
  }

  lemma FailureFailsAgain(db: Db, ids: set<EventId>, id: EventId)
    requires Inv(db) && Pending(db, ids) && id in ids && !Succeeds(db, id, db.events[id])
    ensures After(db, ids).events[id] == db.events[id]
    ensures !Succeeds(After(db, ids), id, db.events[id])
  {
    assert ids == (ids - {id}) + {id};
    VerdictIndependent(ByYear, db, ids - {id}, id);
    AfterOneMore(db, ids - {id}, id);
  }

  lemma AfterFailures(db: Db, ids: set<EventId>)
    requires forall id :: !GoesThrough(db, ids, id)
    ensures After(db, ids) == db
  {
    assert forall o :: OperationMover(db, ids, o) == None;
    assert forall f :: FacilityMover(db, ids, f) == None;
  }

  /** A second run over the same day changes nothing: what went through is no longer due and what
      failed fails again. */
  lemma RunDueIdempotent(db: Db, today: CalendarDate)
    requires Inv(db)
    ensures RunDue(RunDue(db, today), today) == RunDue(db, today)
  {
    var due, d := Due(db, today), RunDue(db, today);
    forall id ensures !GoesThrough(d, Due(d, today), id) {
      if id in Due(d, today) {
        assert id in due && !GoesThrough(db, due, id);
        FailureFailsAgain(db, due, id);
      }
    }
    AfterFailures(d, Due(d, today));
  }
}
