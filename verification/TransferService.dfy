/** The transfer service as it works on its tables: rows are closed, inserted and reassigned one at a
    time, and a transaction that fails puts every table back. */
module TransferService {
  import opened Prelude
  import opened Calendar
  import opened Ids
  import opened Timelines
  import opened TransferModel
  import opened TransferProofs
  import opened TransferRuns

  lemma MoveOneMore<T>(owners: map<nat, T>, lines: map<nat, seq<Span<T>>>, done: set<nat>, k: nat, h: Handover<T>)
    requires k !in done
    ensures CanMove(MoveOwners(owners, done, h.to), MoveLines(lines, done, h), {k}, h) <==>
      CanMove(owners, lines, {k}, h)
    ensures k in owners && k in lines ==>
      && MoveOwners(owners, done + {k}, h.to) == MoveOwners(owners, done, h.to)[k := h.to]
      && MoveLines(lines, done, h)[k] == lines[k]
      && MoveLines(lines, done + {k}, h) == MoveLines(lines, done, h)[k := TransferOr(lines[k], h)]
  {
  }

  class TransferTables {
    var operator: map<OperationId, OperatorId>
    var operationLines: map<OperationId, seq<Span<OperatorId>>>
    var home: map<FacilityId, OperationId>
    var facilityLines: map<FacilityId, seq<Span<OperationId>>>
    var events: map<EventId, Event>

    function State(): Db
      reads this
    {
      Db(operator, operationLines, home, facilityLines, events)
    }

    constructor ()
      ensures State() == Db(map[], map[], map[], map[], map[]) && Inv(State())
    {
      operator, operationLines, home, facilityLines, events := map[], map[], map[], map[], map[];
    }

    /** Undoes everything since the given state. */
    method Rollback(saved: Db)
      modifies this
      ensures State() == saved
    {
      operator, operationLines, home, facilityLines, events :=
        saved.operator, saved.operationLines, saved.home, saved.facilityLines, saved.events;
    }

    /** Close the open row, insert the new one, reassign the facility. */
    method MoveFacility(f: FacilityId, h: Handover<OperationId>) returns (ok: bool)
      modifies this`home, this`facilityLines
      ensures ok <==> CanMove(old(home), old(facilityLines), {f}, h)
      ensures ok ==>
        home == old(home)[f := h.to] && facilityLines == old(facilityLines)[f := TransferOr(old(facilityLines)[f], h)]
    {
      if f !in home || f !in facilityLines {
        return false;
      }
      var current := FindOpen(facilityLines[f], h.from);
      if current.Some? {
        var i := current.value;
        facilityLines := facilityLines[f := facilityLines[f][i := facilityLines[f][i].(end := Some(h.at))]];
      }
      if HasOpen(facilityLines[f]) {
        return false;
      }
      facilityLines := facilityLines[f := facilityLines[f] + [Span(h.to, h.at, None)]];
      home := home[f := h.to];
      return true;
    }

    /** One facility after the other. A refused insertion stops the loop halfway; the caller rolls back. */
    method ProcessFacilitiesTransfer(id: EventId, e: Event) returns (ok: bool)
      requires id in events
      modifies this`home, this`facilityLines
      ensures ok <==> FacilitiesCanMove(old(State()), e, events[id].facilities)
      ensures ok ==> State() == MoveFacilities(old(State()), e, events[id].facilities)
    {
      if e.fromOperation.None? || e.toOperation.None? {
        return false;
      }
      var h, facilities := OperationHandover(e), events[id].facilities;
      var todo := facilities;
      ghost var done: set<FacilityId> := {};
      while todo != {}
        invariant facilities == done + todo && done !! todo
        invariant CanMove(old(home), old(facilityLines), done, h)
        invariant home == MoveOwners(old(home), done, h.to)
        invariant facilityLines == MoveLines(old(facilityLines), done, h)
      {
        var f :| f in todo;
        MoveOneMore(old(home), old(facilityLines), done, f, h);
        var moved := MoveFacility(f, h);
        if !moved {
          return false;
        }
        todo, done := todo - {f}, done + {f};
      }
      assert done == facilities;
      return true;
    }

    method ProcessOperationTransfer(e: Event) returns (ok: bool)
      requires e.operation.Some?
      modifies this`operator, this`operationLines
      ensures ok <==> OperationCanMove(old(State()), e)
      ensures ok ==> State() == MoveOperation(old(State()), e)
    {
      var o, h := e.operation.value, OperatorHandover(e);
      if o !in operator || o !in operationLines {
        return false;
      }
      var current := FindOpen(operationLines[o], h.from);
      if current.Some? {
        var i := current.value;
        operationLines := operationLines[o := operationLines[o][i := operationLines[o][i].(end := Some(h.at))]];
      }
      if HasOpen(operationLines[o]) {
        return false;
      }
      operationLines := operationLines[o := operationLines[o] + [Span(h.to, h.at, None)]];
      operator := operator[o := h.to];
      assert operationLines == MoveLines(old(operationLines), {o}, h);
      assert operator == MoveOwners(old(operator), {o}, h.to);
      return true;
    }

    /** A failed event leaves no trace. */
    method ProcessSingleEvent(id: EventId, e: Event) returns (ok: bool)
      requires id in events
      modifies this
      ensures ok <==> Process(old(State()), id, e).Ok?
      ensures State() == OrSame(old(State()), Process(old(State()), id, e))
    {
      var saved := State();
      ok := true;
      if events[id].facilities != {} {
        ok := ProcessFacilitiesTransfer(id, e);
      } else if e.operation.Some? {
        ok := ProcessOperationTransfer(e);
      }
      if !ok {
        Rollback(saved);
        return;
      }
      events := events[id := events[id].(status := Transferred)];
    }

    method ProcessEventIfEffective(id: EventId, e: Event, effective: Instant, now: Instant) returns (ok: bool)
      requires id in events
      modifies this
      ensures ok <==> (AtOrBefore(effective, now) ==> Process(old(State()), id, e).Ok?)
      ensures State() == if AtOrBefore(effective, now)
        then OrSame(old(State()), Process(old(State()), id, e)) else old(State())
    {
      ok := true;
      if AtOrBefore(effective, now) {
        ok := ProcessSingleEvent(id, e);
      }
    }

    method CreateTransferEvent(id: EventId, p: CreatePayload, now: Instant) returns (error: Option<Error>)
      requires id !in events
      modifies this
      ensures State() == OrSame(old(State()), Create(old(State()), id, p, now))
      ensures error == match Create(old(State()), id, p, now) case Ok(_) => None case Err(x) => Some(x)
    {
      var saved := State();
      var e: Event;
      match p.entity {
        case OperationEntity =>
          if OperationTaken(State(), p.operation, None) {
            return Some(Overlapping);
          }
          if p.operation.None? {
            return Some(Missing);
          }
          if p.fromOperator == p.toOperator {
            return Some(SameOwner);
          }
          if p.operation.value !in operator {
            return Some(NotFound);
          }
          e := Event(ToBeTransferred, p.fromOperator, p.toOperator, p.effective, p.operation, None, None, {});
        case FacilityEntity =>
          if FacilitiesTaken(State(), p.facilities, None) {
            return Some(Overlapping);
          }
          if p.facilities == {} || p.fromOperation.None? || p.toOperation.None? {
            return Some(Missing);
          }
          if p.fromOperation == p.toOperation {
            return Some(SameOwner);
          }
          if p.fromOperation.value !in operator || p.toOperation.value !in operator || !(p.facilities <= home.Keys) {
            return Some(NotFound);
          }
          e := Event(ToBeTransferred, p.fromOperator, p.toOperator, p.effective, None,
                     p.fromOperation, p.toOperation, p.facilities);
      }
      events := events[id := e];
      var ok := ProcessEventIfEffective(id, e, p.effective, now);
      if !ok {
        Rollback(saved);
        return Some(ProcessingFailed);
      }
      return None;
    }

    method UpdateTransferEvent(id: EventId, p: UpdatePayload, now: Instant) returns (error: Option<Error>)
      modifies this
      ensures State() == OrSame(old(State()), Update(old(State()), id, p, now))
      ensures error == match Update(old(State()), id, p, now) case Ok(_) => None case Err(x) => Some(x)
    {
      if id !in events {
        return Some(NotFound);
      }
      var saved, fetched := State(), events[id];
      if !fetched.status.ToBeTransferred? {
        return Some(NotPending);
      }
      match p.entity {
        case OperationEntity =>
          if p.operation.None? {
            return Some(Missing);
          }
          if OperationTaken(State(), p.operation, Some(id)) {
            return Some(Overlapping);
          }
          if p.operation.value !in operator {
            return Some(NotFound);
          }
          events := events[id := fetched.(operation := p.operation, effective := p.effective)];
        case FacilityEntity =>
          if p.facilities == {} {
            return Some(Missing);
          }
          if FacilitiesTaken(State(), p.facilities, Some(id)) {
            return Some(Overlapping);
          }
          if !(p.facilities <= home.Keys) {
            return Some(NotFound);
          }
          events := events[id := fetched.(effective := p.effective)];
          events := events[id := events[id].(facilities := p.facilities)];
      }
      var ok := ProcessEventIfEffective(id, fetched, p.effective, now);
      if !ok {
        Rollback(saved);
        return Some(ProcessingFailed);
      }
      return None;
    }

    method DeleteTransferEvent(id: EventId) returns (error: Option<Error>)
      modifies this`events
      ensures State() == OrSame(old(State()), Delete(old(State()), id))
      ensures error == match Delete(old(State()), id) case Ok(_) => None case Err(x) => Some(x)
    {
      if id !in events {
        return Some(NotFound);
      }
      if !events[id].status.ToBeTransferred? {
        return Some(NotPending);
      }
      events := events - {id};
      return None;
    }

    /** The daily run, over the due events in whatever order the query returned them. The outcome does
        not mention the order: any two orders lead to the same tables. */
    method ProcessDueTransferEvents(today: CalendarDate, order: seq<EventId>) returns (processed: seq<EventId>)
      requires Inv(State()) && ListsOnce(order, Due(State(), today))
      modifies this
      ensures State() == RunDue(old(State()), today)
      ensures forall id :: id in processed <==> GoesThrough(old(State()), Due(old(State()), today), id)
    {
      ghost var db, done := State(), {};
      var fetched := events;
      processed := [];
      AfterNothing(db);
      for k := 0 to |order|
        invariant done == Elements(order[..k])
        invariant State() == After(db, done)
        invariant forall id :: id in processed <==> GoesThrough(db, done, id)
      {
        var id := order[k];
        NextOfOrder(order, Due(db, today), k);
        AfterOneMore(db, done, id);
        ProcessedAfterOneMore(db, done, id);
        var ok := ProcessSingleEvent(id, fetched[id]);
        if ok {
          processed := processed + [id];
        }
        done := done + {id};
      }
      assert order[..|order|] == order;
    }
  }

  function Elements(order: seq<EventId>): set<EventId> {
    set id | id in order
  }

  predicate ListsOnce(order: seq<EventId>, ids: set<EventId>) {
    Elements(order) == ids && forall i, j | 0 <= i < j < |order| :: order[i] != order[j]
  }

  lemma NextOfOrder(order: seq<EventId>, ids: set<EventId>, k: nat)
    requires ListsOnce(order, ids) && k < |order|
    ensures order[k] !in Elements(order[..k]) && Elements(order[..k]) + {order[k]} <= ids
    ensures Elements(order[..k + 1]) == Elements(order[..k]) + {order[k]}
  {
    assert order[..k + 1] == order[..k] + [order[k]];
    assert forall id | id in order[..k] :: id in order;
    assert order[k] in order;
  }

  lemma ProcessedAfterOneMore(db: Db, ids: set<EventId>, id: EventId)
    requires id in db.events
    ensures forall j ::
      GoesThrough(db, ids + {id}, j) <==> GoesThrough(db, ids, j) || (j == id && Succeeds(db, id, db.events[id]))
  {
  }
}
