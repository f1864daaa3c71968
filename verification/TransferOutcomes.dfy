/** What the requests of the transfer service and its daily run do, in terms of their payloads, the dates
    and the tables alone. */
module TransferOutcomes {
  import opened Prelude
  import opened Calendar
  import opened Ids
  import opened Timelines
  import opened TransferModel
  import opened TransferProofs
  import opened TransferRuns

  /* ---------- changed rows ---------- */

  /** One timeline after a transfer: the open row ends on the date, and a row of the new owner starts. */
  predicate Passed<T(==)>(before: seq<Span<T>>, after: seq<Span<T>>, to: T, at: Instant) {
    && before != [] && |after| == |before| + 1
    && after[|before|] == Span(to, at, None)
    && after[|before| - 1] == Span(before[|before| - 1].owner, before[|before| - 1].start, Some(at))
    && forall i | 0 <= i < |before| - 1 :: after[i] == before[i]
  }

  /** Exactly the given keys pass to the new owner. */
  predicate PassedTo<T(==)>(owners: map<nat, T>, lines: map<nat, seq<Span<T>>>, keys: set<nat>, to: T, at: Instant,
                            owners': map<nat, T>, lines': map<nat, seq<Span<T>>>)
  {
    && owners'.Keys == owners.Keys && lines'.Keys == lines.Keys && keys <= owners.Keys && keys <= lines.Keys
    && (forall k | k in owners :: owners'[k] == if k in keys then to else owners[k])
    && (forall k | k in lines && k !in keys :: lines'[k] == lines[k])
    && (forall k | k in keys :: Passed(lines[k], lines'[k], to, at))
  }

  lemma MovePasses<T>(owners: map<nat, T>, lines: map<nat, seq<Span<T>>>, keys: set<nat>, h: Handover<T>)
    requires LinesOk(owners, lines) && CanMove(owners, lines, keys, h)
    ensures PassedTo(owners, lines, keys, h.to, h.at, MoveOwners(owners, keys, h.to), MoveLines(lines, keys, h))
  {
    forall k | k in keys ensures Passed(lines[k], MoveLines(lines, keys, h)[k], h.to, h.at) {
      TransferSucceedsIffOwner(lines[k], h);
    }
  }

  /** What carrying out an event does to owners and lines: its facilities pass to the destination, or else
      its operation to the new operator. */
  predicate CarriedOut(db: Db, after: Db, e: Event, facilities: set<FacilityId>) {
    if facilities != {} then
      && e.toOperation.Some? && after.operator == db.operator && after.operationLines == db.operationLines
      && PassedTo(db.home, db.facilityLines, facilities, e.toOperation.value, e.effective, after.home,
         after.facilityLines)
    else
      var keys := if e.operation.Some? then {e.operation.value} else {};
      && after.home == db.home && after.facilityLines == db.facilityLines
      && PassedTo(db.operator, db.operationLines, keys, e.toOperator, e.effective, after.operator, after.operationLines)
  }

  /** Only this event changes, and only its status. */
  predicate MarkedOnly(db: Db, after: Db, id: EventId) {
    && id in db.events && after.events.Keys == db.events.Keys
    && (forall j | j in db.events && j != id :: after.events[j] == db.events[j])
    && after.events[id] == db.events[id].(status := Transferred)
  }

  /** The event names the owner of what it would move, spelled out. */
  predicate OwnedAsNamed(db: Db, e: Event, facilities: set<FacilityId>) {
    if facilities != {} then
      && e.fromOperation.Some? && e.toOperation.Some?
      && forall f | f in facilities :: f in db.home && db.home[f] == e.fromOperation.value
    else
      e.operation.Some? ==> e.operation.value in db.operator && db.operator[e.operation.value] == e.fromOperator
  }

  lemma OwnedIffSucceeds(db: Db, id: EventId, e: Event)
    requires Inv(db) && id in db.events && Known(db, e.operation)
    ensures Succeeds(db, id, e) <==> OwnedAsNamed(db, e, db.events[id].facilities)
  {
    SucceedsIffNamesOwner(db, id, e);
  }

  lemma MovedOutcome(db: Db, id: EventId, e: Event)
    requires Inv(db) && id in db.events && Succeeds(db, id, e)
    ensures CarriedOut(db, Moved(db, id, e), e, db.events[id].facilities) && Moved(db, id, e).events == db.events
  {
    var facilities := db.events[id].facilities;
    if facilities != {} {
      MovePasses(db.home, db.facilityLines, facilities, OperationHandover(e));
    } else if e.operation.Some? {
      MovePasses(db.operator, db.operationLines, {e.operation.value}, OperatorHandover(e));
    }
  }

  lemma MarkedOutcome(db: Db, moved: Db, id: EventId, e: Event, facilities: set<FacilityId>)
    requires id in db.events && moved.events == db.events && CarriedOut(db, moved, e, facilities)
    ensures CarriedOut(db, MarkTransferred(moved, id), e, facilities) && MarkedOnly(db, MarkTransferred(moved, id), id)
  {
    var after := MarkTransferred(moved, id);
    assert after.operator == moved.operator && after.operationLines == moved.operationLines;
    assert after.home == moved.home && after.facilityLines == moved.facilityLines;
  }

  lemma ProcessDoes(db: Db, id: EventId, e: Event)
    requires Inv(db) && id in db.events && Succeeds(db, id, e)
    ensures CarriedOut(db, Process(db, id, e).value, e, db.events[id].facilities)
    ensures MarkedOnly(db, Process(db, id, e).value, id)
  {
    MovedOutcome(db, id, e);
    MarkedOutcome(db, Moved(db, id, e), id, e, db.events[id].facilities);
  }

  lemma ProcessOutcome(db: Db, id: EventId, e: Event)
    requires Inv(db) && id in db.events && Known(db, e.operation)
    ensures Process(db, id, e).Ok? <==> OwnedAsNamed(db, e, db.events[id].facilities)
    ensures Process(db, id, e).Ok? ==> CarriedOut(db, Process(db, id, e).value, e, db.events[id].facilities)
    ensures Process(db, id, e).Ok? ==> MarkedOnly(db, Process(db, id, e).value, id)
  {
    OwnedIffSucceeds(db, id, e);
    if Succeeds(db, id, e) {
      ProcessDoes(db, id, e);
    }
  }

  /* ---------- creating an event ---------- */

  predicate IsActive(e: Event) {
    e.status == ToBeTransferred || e.status == Complete
  }

  /** What a creation asks of the tables. */
  predicate Acceptable(db: Db, p: CreatePayload) {
    match p.entity
    case OperationEntity =>
      && p.operation.Some? && p.operation.value in db.operator && p.fromOperator != p.toOperator
      && (forall j | j in db.events && IsActive(db.events[j]) :: db.events[j].operation != p.operation)
    case FacilityEntity =>
      && p.facilities != {} && p.facilities <= db.home.Keys
      && p.fromOperation.Some? && p.fromOperation.value in db.operator
      && p.toOperation.Some? && p.toOperation.value in db.operator && p.fromOperation != p.toOperation
      && (forall j | j in db.events && IsActive(db.events[j]) :: db.events[j].facilities !! p.facilities)
  }

  /** The party named owns what is going to move. */
  predicate OwnedByParty(db: Db, p: CreatePayload) {
    match p.entity
    case OperationEntity =>
      p.operation.Some? && p.operation.value in db.operator && db.operator[p.operation.value] == p.fromOperator
    case FacilityEntity =>
      p.fromOperation.Some? && forall f | f in p.facilities :: f in db.home && db.home[f] == p.fromOperation.value
  }

  /** The event holds what the payload says. */
  predicate StoredAsAsked(p: CreatePayload, e: Event) {
    && e.fromOperator == p.fromOperator && e.toOperator == p.toOperator && e.effective == p.effective
    && match p.entity
       case OperationEntity =>
         e.operation == p.operation && e.fromOperation == None && e.toOperation == None && e.facilities == {}
       case FacilityEntity =>
         && e.operation == None && e.facilities == p.facilities
         && e.fromOperation == p.fromOperation && e.toOperation == p.toOperation
  }

  lemma DisjointIff(a: set<FacilityId>, b: set<FacilityId>)
    ensures a * b == {} <==> a !! b
  {
    if f :| f in a && f in b {
      assert f in a * b;
    }
  }

  lemma NewEventOutcome(db: Db, p: CreatePayload)
    ensures NewEvent(db, p).Ok? <==> Acceptable(db, p)
    ensures NewEvent(db, p).Ok? ==>
      NewEvent(db, p).value.status == ToBeTransferred && StoredAsAsked(p, NewEvent(db, p).value)
  {
    forall j | j in db.events
      ensures db.events[j].facilities * p.facilities == {} <==> db.events[j].facilities !! p.facilities
    {
      DisjointIff(db.events[j].facilities, p.facilities);
    }
  }

  /** A creation goes through exactly when the tables accept it and, if it is due, the party named owns
      what moves. */
  lemma CreateSucceedsIff(db: Db, id: EventId, p: CreatePayload, now: Instant)
    requires Inv(db) && id !in db.events
    ensures Create(db, id, p, now).Ok? <==> Acceptable(db, p) && (AtOrBefore(p.effective, now) ==> OwnedByParty(db, p))
  {
    NewEventOutcome(db, p);
    if NewEvent(db, p).Ok? {
      var e := NewEvent(db, p).value;
      NewEventKeepsInv(db, id, p);
      ProcessOutcome(Store(db, id, e), id, e);
    }
  }

  /** It stores one event as asked, and nothing else; if it is due, exactly what the payload names passes
      from then on, and the event is marked. */
  lemma CreateOutcome(db: Db, id: EventId, p: CreatePayload, now: Instant)
    requires Inv(db) && id !in db.events && Create(db, id, p, now).Ok?
    ensures
      var after := Create(db, id, p, now).value;
      && id in after.events && StoredAsAsked(p, after.events[id])
      && after.events.Keys == db.events.Keys + {id} && (forall j | j in db.events :: after.events[j] == db.events[j])
      && if !AtOrBefore(p.effective, now) then
           after.events[id].status == ToBeTransferred && after == db.(events := after.events)
         else
           && after.events[id].status == Transferred
           && match p.entity
              case OperationEntity =>
                && p.operation.Some? && after.home == db.home && after.facilityLines == db.facilityLines
                && PassedTo(db.operator, db.operationLines, {p.operation.value}, p.toOperator, p.effective,
                            after.operator, after.operationLines)
              case FacilityEntity =>
                && p.toOperation.Some? && after.operator == db.operator && after.operationLines == db.operationLines
                && PassedTo(db.home, db.facilityLines, p.facilities, p.toOperation.value, p.effective,
                            after.home, after.facilityLines)
  {
    NewEventOutcome(db, p);
    var e := NewEvent(db, p).value;
    NewEventKeepsInv(db, id, p);
    ProcessOutcome(Store(db, id, e), id, e);
  }

  predicate OverlapsActive(db: Db, p: CreatePayload) {
    exists j | j in db.events && IsActive(db.events[j]) ::
      match p.entity
      case OperationEntity => p.operation.Some? && db.events[j].operation == p.operation
      case FacilityEntity => exists f | f in p.facilities :: f in db.events[j].facilities
  }

  predicate NamesNoTarget(p: CreatePayload) {
    match p.entity
    case OperationEntity => p.operation.None?
    case FacilityEntity => p.facilities == {} || p.fromOperation.None? || p.toOperation.None?
  }

  predicate SameParty(p: CreatePayload) {
    match p.entity
    case OperationEntity => p.fromOperator == p.toOperator
    case FacilityEntity => p.fromOperation == p.toOperation
  }

  lemma OverlapIff(db: Db, p: CreatePayload)
    ensures OverlapsActive(db, p) <==>
            if p.entity.OperationEntity?
              then OperationTaken(db, p.operation, None) else FacilitiesTaken(db, p.facilities, None)
  {
    if p.entity.FacilityEntity? {
      forall j | j in db.events
        ensures db.events[j].facilities * p.facilities != {} <==> exists f | f in p.facilities ::
          f in db.events[j].facilities
      {
        DisjointIff(db.events[j].facilities, p.facilities);
      }
    }
  }

  /** The reason of a refusal is the first of these that applies: an active event overlaps, something is
      missing, the parties are the same, a row does not exist, the party named does not own what moves. */
  lemma CreateRefusals(db: Db, id: EventId, p: CreatePayload, now: Instant)
    requires Inv(db) && id !in db.events && Create(db, id, p, now).Err?
    ensures
      Create(db, id, p, now).error ==
      if OverlapsActive(db, p) then Overlapping
      else if NamesNoTarget(p) then Missing
      else if SameParty(p) then SameOwner
      else if !Acceptable(db, p) then NotFound
      else ProcessingFailed
  {
    OverlapIff(db, p);
    NewEventOutcome(db, p);
  }

  /* ---------- updating and deleting ---------- */

  /** What an update asks of the tables. */
  predicate UpdateAcceptable(db: Db, id: EventId, p: UpdatePayload) {
    && id in db.events && db.events[id].status == ToBeTransferred
    && match p.entity
       case OperationEntity =>
         && p.operation.Some? && p.operation.value in db.operator
         && (forall j | j in db.events && j != id && IsActive(db.events[j]) :: db.events[j].operation != p.operation)
       case FacilityEntity =>
         && p.facilities != {} && p.facilities <= db.home.Keys
         && (forall j | j in db.events && j != id && IsActive(db.events[j]) :: db.events[j].facilities !! p.facilities)
  }

  /** The facilities an updated event holds. */
  function FacilitiesAfter(before: Event, p: UpdatePayload): set<FacilityId> {
    if p.entity.FacilityEntity? then p.facilities else before.facilities
  }

  lemma UpdatedEventOutcome(db: Db, id: EventId, p: UpdatePayload)
    ensures UpdatedEvent(db, id, p).Ok? <==> UpdateAcceptable(db, id, p)
    ensures UpdatedEvent(db, id, p).Ok? ==>
      UpdatedEvent(db, id, p).value ==
      db.events[id].(effective := p.effective,
                     operation := if p.entity.OperationEntity? then p.operation else db.events[id].operation,
                     facilities := FacilitiesAfter(db.events[id], p))
  {
    forall j | j in db.events
      ensures db.events[j].facilities * p.facilities == {} <==> db.events[j].facilities !! p.facilities
    {
      DisjointIff(db.events[j].facilities, p.facilities);
    }
  }

  /** An update goes through exactly when the tables accept it and, if it is due, the event as it was
      before names the owner of what it would have moved, or of the new facilities. */
  lemma UpdateSucceedsIff(db: Db, id: EventId, p: UpdatePayload, now: Instant)
    requires Inv(db)
    ensures Update(db, id, p, now).Ok? <==>
            && UpdateAcceptable(db, id, p)
            && (AtOrBefore(p.effective, now) ==> OwnedAsNamed(db, db.events[id], FacilitiesAfter(db.events[id], p)))
  {
    UpdatedEventOutcome(db, id, p);
    if UpdatedEvent(db, id, p).Ok? {
      UpdatedEventKeepsInv(db, id, p);
      assert Refers(db.events[id], db.operator.Keys, db.home.Keys);
      ProcessOutcome(Store(db, id, UpdatedEvent(db, id, p).value), id, db.events[id]);
    }
  }

  /** It stores the payload in the event and touches no other; if it is due, what passes is what the event
      named before, to whom and when it said before, except that the facilities are the new ones. */
  lemma UpdateOutcome(db: Db, id: EventId, p: UpdatePayload, now: Instant)
    requires Inv(db) && Update(db, id, p, now).Ok?
    ensures
      id in db.events &&
      var before, after := db.events[id], Update(db, id, p, now).value;
      && after.events.Keys == db.events.Keys
      && (forall j | j in db.events && j != id :: after.events[j] == db.events[j])
      && after.events[id] ==
         before.(status := if AtOrBefore(p.effective, now) then Transferred else ToBeTransferred,
                 effective := p.effective,
                 operation := if p.entity.OperationEntity? then p.operation else before.operation,
                 facilities := FacilitiesAfter(before, p))
      && if AtOrBefore(p.effective, now) then CarriedOut(db, after, before, FacilitiesAfter(before, p))
         else after == db.(events := after.events)
  {
    UpdatedEventOutcome(db, id, p);
    UpdatedEventKeepsInv(db, id, p);
    assert Refers(db.events[id], db.operator.Keys, db.home.Keys);
    ProcessOutcome(Store(db, id, UpdatedEvent(db, id, p).value), id, db.events[id]);
  }

  predicate UpdateNamesNoTarget(p: UpdatePayload) {
    match p.entity
    case OperationEntity => p.operation.None?
    case FacilityEntity => p.facilities == {}
  }

  /** An update is refused, in this order, for an unknown event, one that is not pending, a missing target,
      an overlap (or a row that does not exist), and an event that does not name the owner. */
  lemma UpdateRefusals(db: Db, id: EventId, p: UpdatePayload, now: Instant)
    requires Inv(db) && Update(db, id, p, now).Err?
    ensures
      var error := Update(db, id, p, now).error;
      if id !in db.events then error == NotFound
      else if db.events[id].status != ToBeTransferred then error == NotPending
      else if UpdateNamesNoTarget(p) then error == Missing
      else if !UpdateAcceptable(db, id, p) then error == Overlapping || error == NotFound
      else error == ProcessingFailed
  {
    UpdatedEventOutcome(db, id, p);
  }

  /** Exactly pending events can be deleted; the event is gone, and nothing else is. */
  lemma DeleteOutcome(db: Db, id: EventId)
    ensures Delete(db, id).Ok? <==> id in db.events && db.events[id].status == ToBeTransferred
    ensures Delete(db, id).Err? ==> Delete(db, id).error == if id in db.events then NotPending else NotFound
    ensures Delete(db, id).Ok? ==>
      var after := Delete(db, id).value;
      && after == db.(events := after.events) && after.events.Keys == db.events.Keys - {id}
      && forall j | j in after.events :: after.events[j] == db.events[j]
  {
  }

  /* ---------- the daily run ---------- */

  /** Pending, and dated today or earlier. */
  predicate HasCome(e: Event, today: CalendarDate) {
    && e.status == ToBeTransferred
    && (e.effective.date.year < today.year
          || (e.effective.date.year == today.year && e.effective.date.day <= today.day))
  }

  /** Some event that has come holds the operation, or the facility. */
  predicate OperationAwaited(db: Db, today: CalendarDate, o: OperationId) {
    exists id | id in db.events :: HasCome(db.events[id], today) && db.events[id].operation == Some(o)
  }

  predicate FacilityAwaited(db: Db, today: CalendarDate, f: FacilityId) {
    exists id | id in db.events :: HasCome(db.events[id], today) && f in db.events[id].facilities
  }

  lemma RunLeavesOperation(db: Db, today: CalendarDate, o: OperationId)
    requires Inv(db) && o in db.operator && !OperationAwaited(db, today, o)
    ensures o in RunDue(db, today).operator && RunDue(db, today).operator[o] == db.operator[o]
    ensures o in RunDue(db, today).operationLines && RunDue(db, today).operationLines[o] == db.operationLines[o]
  {
    forall id | MovesOperation(db, Due(db, today), id, o) ensures false {
      DueIff(db, today, id);
    }
    assert OperationMover(db, Due(db, today), o) == None;
  }

  lemma RunLeavesFacility(db: Db, today: CalendarDate, f: FacilityId)
    requires Inv(db) && f in db.home && !FacilityAwaited(db, today, f)
    ensures f in RunDue(db, today).home && RunDue(db, today).home[f] == db.home[f]
    ensures f in RunDue(db, today).facilityLines && RunDue(db, today).facilityLines[f] == db.facilityLines[f]
  {
    forall id | MovesFacility(db, Due(db, today), id, f) ensures false {
      DueIff(db, today, id);
    }
    assert FacilityMover(db, Due(db, today), f) == None;
  }

  /** An event that is dated later or is not pending stays as it is, and so does everything that only such
      events hold. */
  lemma RunLeavesAlone(db: Db, today: CalendarDate)
    requires Inv(db)
    ensures
      var after := RunDue(db, today);
      && after.events.Keys == db.events.Keys && after.operator.Keys == after.operationLines.Keys == db.operator.Keys
      && after.home.Keys == after.facilityLines.Keys == db.home.Keys
      && (forall id | id in db.events && !HasCome(db.events[id], today) :: after.events[id] == db.events[id])
      && (forall o | o in db.operator && !OperationAwaited(db, today, o) ::
            after.operator[o] == db.operator[o] && after.operationLines[o] == db.operationLines[o])
      && (forall f | f in db.home && !FacilityAwaited(db, today, f) ::
            after.home[f] == db.home[f] && after.facilityLines[f] == db.facilityLines[f])
  {
    var after := RunDue(db, today);
    forall id | id in db.events && !HasCome(db.events[id], today) ensures after.events[id] == db.events[id] {
      DueIff(db, today, id);
    }
    forall o | o in db.operator && !OperationAwaited(db, today, o)
      ensures after.operator[o] == db.operator[o] && after.operationLines[o] == db.operationLines[o]
    {
      RunLeavesOperation(db, today, o);
    }
    forall f | f in db.home && !FacilityAwaited(db, today, f)
      ensures after.home[f] == db.home[f] && after.facilityLines[f] == db.facilityLines[f]
    {
      RunLeavesFacility(db, today, f);
    }
  }

  /** All facilities of the event have passed to its destination. */
  predicate FacilitiesPassed(db: Db, after: Db, e: Event) {
    e.toOperation.Some? && forall f | f in e.facilities ::
      && f in after.home && after.home[f] == e.toOperation.value
      && f in db.facilityLines && f in after.facilityLines
      && Passed(db.facilityLines[f], after.facilityLines[f], e.toOperation.value, e.effective)
  }

  /** The operation of the event has passed to its new operator. */
  predicate OperationPassed(db: Db, after: Db, e: Event) {
    e.operation.Some? ==>
      var o := e.operation.value;
      && o in after.operator && after.operator[o] == e.toOperator
      && o in db.operationLines && o in after.operationLines
      && Passed(db.operationLines[o], after.operationLines[o], e.toOperator, e.effective)
  }

  lemma RunPassesFacility(db: Db, ids: set<EventId>, id: EventId, f: FacilityId)
    requires Inv(db) && Pending(db, ids) && GoesThrough(db, ids, id) && f in db.events[id].facilities
    ensures
      var e, after := db.events[id], After(db, ids);
      && e.toOperation.Some? && f in after.home && after.home[f] == e.toOperation.value
      && f in db.facilityLines && f in after.facilityLines
      && Passed(db.facilityLines[f], after.facilityLines[f], e.toOperation.value, e.effective)
  {
    var e := db.events[id];
    assert Refers(e, db.operator.Keys, db.home.Keys);
    assert MovesFacility(db, ids, id, f);
    FacilityMoverIs(db, ids, id, f);
    TransferSucceedsIffOwner(db.facilityLines[f], OperationHandover(e));
  }

  lemma RunPassesFacilities(db: Db, ids: set<EventId>, id: EventId)
    requires Inv(db) && Pending(db, ids) && GoesThrough(db, ids, id) && db.events[id].facilities != {}
    ensures FacilitiesPassed(db, After(db, ids), db.events[id])
  {
    var e, after := db.events[id], After(db, ids);
    forall f | f in e.facilities
      ensures f in after.home && e.toOperation.Some? && after.home[f] == e.toOperation.value
      ensures f in db.facilityLines && f in after.facilityLines
      ensures Passed(db.facilityLines[f], after.facilityLines[f], e.toOperation.value, e.effective)
    {
      RunPassesFacility(db, ids, id, f);
    }
  }

  lemma RunPassesOperation(db: Db, ids: set<EventId>, id: EventId)
    requires Inv(db) && Pending(db, ids) && GoesThrough(db, ids, id) && db.events[id].facilities == {}
    ensures OperationPassed(db, After(db, ids), db.events[id])
  {
    var e := db.events[id];
    assert Refers(e, db.operator.Keys, db.home.Keys);
    if e.operation.Some? {
      var o := e.operation.value;
      assert MovesOperation(db, ids, id, o);
      OperationMoverIs(db, ids, id, o);
      TransferSucceedsIffOwner(db.operationLines[o], OperatorHandover(e));
    }
  }

  /** Every event that has come is carried out exactly if it names the owner of what it moves, and is left
      pending otherwise. */
  lemma RunCarriesOut(db: Db, today: CalendarDate, id: EventId)
    requires Inv(db) && id in db.events && HasCome(db.events[id], today)
    ensures
      var e, after := db.events[id], RunDue(db, today);
      && id in after.events
      && if !OwnedAsNamed(db, e, e.facilities) then after.events[id] == e
         else
           && after.events[id] == e.(status := Transferred)
           && if e.facilities != {} then FacilitiesPassed(db, after, e) else OperationPassed(db, after, e)
  {
    var e, due := db.events[id], Due(db, today);
    DueIff(db, today, id);
    assert Refers(e, db.operator.Keys, db.home.Keys);
    OwnedIffSucceeds(db, id, e);
    if Succeeds(db, id, e) {
      if e.facilities != {} {
        RunPassesFacilities(db, due, id);
      } else {
        RunPassesOperation(db, due, id);
      }
    }
  }

  /** While pending events name the present owners, all that have come are carried out. */
  lemma HonestRunCarriesOut(db: Db, today: CalendarDate, id: EventId)
    requires Inv(db) && Honest(db) && id in db.events && HasCome(db.events[id], today)
    ensures OwnedAsNamed(db, db.events[id], db.events[id].facilities)
    ensures id in RunDue(db, today).events && RunDue(db, today).events[id] == db.events[id].(status := Transferred)
  {
    RunCarriesOut(db, today, id);
    assert NamesOwner(db, id, db.events[id]);
  }

  /* ---------- several runs ---------- */

  /** A batch of pending events can be carried out in two parts. */
  lemma {:induction false} AfterInParts(db: Db, first: set<EventId>, second: set<EventId>)
    requires Inv(db) && Pending(db, first + second) && first !! second
    ensures Pending(After(db, first), second)
    ensures After(db, first + second) == After(After(db, first), second)
  {
    forall id | id in second ensures After(db, first).events[id] == db.events[id] {
      VerdictIndependent(ByYear, db, first, id);
    }
    if second == {} {
      assert first + second == first;
      AfterNothing(After(db, first));
    } else {
      var id :| id in second;
      var rest := second - {id};
      assert second == rest + {id} && first + second == (first + rest) + {id};
      AfterInParts(db, first, rest);
      AfterKeeps(ByYear, db, first);
      AfterOneMore(db, first + rest, id);
      AfterOneMore(After(db, first), rest, id);
    }
  }

  lemma DueIff(db: Db, today: CalendarDate, id: EventId)
    ensures id in Due(db, today) <==> id in db.events && HasCome(db.events[id], today)
  {
  }

  lemma MarkedNotDue(stored: Db, done: Db, id: EventId, today: CalendarDate)
    requires MarkedOnly(stored, done, id)
    ensures Due(done, today) == Due(stored, today) - {id}
  {
  }

  lemma AfterOne(db: Db, id: EventId)
    requires Inv(db) && Pending(db, {id}) && Process(db, id, db.events[id]).Ok?
    ensures After(db, {id}) == Process(db, id, db.events[id]).value
  {
    AfterNothing(db);
    AfterOneMore(db, {}, id);
    assert {} + {id} == {id};
  }

  /** An event that goes through may as well go before the rest of the run. */
  lemma GoesFirst(db: Db, id: EventId, today: CalendarDate)
    requires Inv(db) && id in db.events && HasCome(db.events[id], today) && Process(db, id, db.events[id]).Ok?
    ensures RunDue(Process(db, id, db.events[id]).value, today) == RunDue(db, today)
  {
    var done, rest := Process(db, id, db.events[id]).value, Due(db, today) - {id};
    DueIff(db, today, id);
    assert Due(db, today) == {id} + rest;
    AfterOne(db, id);
    AfterInParts(db, {id}, rest);
    MarkedNotDue(db, done, id, today);
  }

  /** An event stored for later and carried out by the run of its day, or a later one, leaves the same
      tables as if it had been carried out at once and the run had come then. */
  lemma StoredForLaterIsAtOnce(db: Db, id: EventId, p: CreatePayload, early: Instant, late: Instant,
                               today: CalendarDate)
    requires Inv(db) && id !in db.events && Create(db, id, p, late).Ok?
    requires !AtOrBefore(p.effective, early) && AtOrBefore(p.effective, late) && DateAtOrBefore(p.effective.date, today)
    ensures Create(db, id, p, early).Ok?
    ensures RunDue(Create(db, id, p, early).value, today) == RunDue(Create(db, id, p, late).value, today)
  {
    NewEventOutcome(db, p);
    NewEventKeepsInv(db, id, p);
    GoesFirst(Store(db, id, NewEvent(db, p).value), id, today);
  }

  /** Missed days do no harm: a run catches up on all runs before it. */
  lemma RunsCatchUp(db: Db, day: CalendarDate, later: CalendarDate)
    requires Inv(db) && DateAtOrBefore(day, later)
    ensures RunDue(RunDue(db, day), later) == RunDue(db, later)
  {
    var first, all := Due(db, day), Due(db, later);
    var rest, d := all - first, RunDue(db, day);
    forall id | id in first ensures id in all {
      DueIff(db, day, id);
      DueIff(db, later, id);
    }
    assert all == first + rest;
    AfterInParts(db, first, rest);
    AfterKeeps(ByYear, db, first);
    var failed := Due(d, later) - rest;
    forall id | id in rest ensures id in Due(d, later) {
      VerdictIndependent(ByYear, db, first, id);
    }
    assert Due(d, later) == failed + rest;
    forall id | id in failed ensures !Succeeds(d, id, d.events[id]) {
      assert id in first && !GoesThrough(db, first, id);
      FailureFailsAgain(db, first, id);
    }
    AfterFailures(d, failed);
    AfterInParts(d, failed, rest);
  }
}
