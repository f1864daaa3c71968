/** Transfer events and the ownership tables they move, as a state machine over values. */
module TransferModel {
  import opened Prelude
  import opened Calendar
  import opened Ids
  import opened Timelines

  /* ---------- tables ---------- */

  datatype Status = ToBeTransferred | Complete | Transferred

  predicate Active(status: Status) {
    status.ToBeTransferred? || status.Complete?
  }

  datatype Event = Event(
    status: Status,
    fromOperator: OperatorId, toOperator: OperatorId,
    effective: Instant,
    operation: Option<OperationId>,
    fromOperation: Option<OperationId>, toOperation: Option<OperationId>,
    facilities: set<FacilityId>)

  /** The operation and facility tables with their timelines, and the transfer events. */
  datatype Db = Db(
    operator: map<OperationId, OperatorId>,
    operationLines: map<OperationId, seq<Span<OperatorId>>>,
    home: map<FacilityId, OperationId>,
    facilityLines: map<FacilityId, seq<Span<OperationId>>>,
    events: map<EventId, Event>)

  datatype Error = NotFound | NotPending | Overlapping | Missing | SameOwner | ProcessingFailed

  /* ---------- processing one event ---------- */

  function OperatorHandover(e: Event): Handover<OperatorId> {
    Handover(e.fromOperator, e.toOperator, e.effective)
  }

  function OperationHandover(e: Event): Handover<OperationId>
    requires e.fromOperation.Some? && e.toOperation.Some?
  {
    Handover(e.fromOperation.value, e.toOperation.value, e.effective)
  }

  function TransferOr<T(==)>(line: seq<Span<T>>, h: Handover<T>): seq<Span<T>> {
    match Transfer(line, h)
    case None => line
    case Some(after) => after
  }

  function MoveOwners<T>(owners: map<nat, T>, keys: set<nat>, to: T): map<nat, T> {
    map k | k in owners :: if k in keys then to else owners[k]
  }

  function MoveLines<T(==)>(lines: map<nat, seq<Span<T>>>, keys: set<nat>, h: Handover<T>): map<nat, seq<Span<T>>> {
    map k | k in lines :: if k in keys then TransferOr(lines[k], h) else lines[k]
  }

  predicate CanMove<T(==)>(owners: map<nat, T>, lines: map<nat, seq<Span<T>>>, keys: set<nat>, h: Handover<T>) {
    forall k | k in keys :: k in owners && k in lines && Transfer(lines[k], h).Some?
  }

  predicate FacilitiesCanMove(db: Db, e: Event, facilities: set<FacilityId>) {
    && e.fromOperation.Some? && e.toOperation.Some?
    && CanMove(db.home, db.facilityLines, facilities, OperationHandover(e))
  }

  predicate OperationCanMove(db: Db, e: Event) {
    e.operation.Some? ==> CanMove(db.operator, db.operationLines, {e.operation.value}, OperatorHandover(e))
  }

  function MoveFacilities(db: Db, e: Event, facilities: set<FacilityId>): Db
    requires e.fromOperation.Some? && e.toOperation.Some?
  {
    db.(home := MoveOwners(db.home, facilities, e.toOperation.value),
        facilityLines := MoveLines(db.facilityLines, facilities, OperationHandover(e)))
  }

  function MoveOperation(db: Db, e: Event): Db
    requires e.operation.Some?
  {
    db.(operator := MoveOwners(db.operator, {e.operation.value}, e.toOperator),
        operationLines := MoveLines(db.operationLines, {e.operation.value}, OperatorHandover(e)))
  }

  /** The facilities are read from the link table by the event's id; everything else is read from the
      event object in hand, which an update leaves as it was fetched. */
  predicate Succeeds(db: Db, id: EventId, e: Event)
    requires id in db.events
  {
    if db.events[id].facilities != {} then FacilitiesCanMove(db, e, db.events[id].facilities)
    else OperationCanMove(db, e)
  }

  function Moved(db: Db, id: EventId, e: Event): Db
    requires id in db.events && Succeeds(db, id, e)
  {
    if db.events[id].facilities != {} then MoveFacilities(db, e, db.events[id].facilities)
    else if e.operation.Some? then MoveOperation(db, e)
    else db
  }

  function MarkTransferred(db: Db, id: EventId): Db
    requires id in db.events
  {
    db.(events := db.events[id := db.events[id].(status := Transferred)])
  }

  function Process(db: Db, id: EventId, e: Event): Result<Db, Error>
    requires id in db.events
  {
    if Succeeds(db, id, e) then Ok(MarkTransferred(Moved(db, id, e), id)) else Err(ProcessingFailed)
  }

  /* ---------- creating, updating and deleting events ---------- */

  datatype Entity = OperationEntity | FacilityEntity

  datatype CreatePayload = CreatePayload(
    entity: Entity,
    fromOperator: OperatorId, toOperator: OperatorId,
    effective: Instant,
    operation: Option<OperationId>,
    fromOperation: Option<OperationId>, toOperation: Option<OperationId>,
    facilities: set<FacilityId>)

  datatype UpdatePayload = UpdatePayload(
    entity: Entity, effective: Instant, operation: Option<OperationId>, facilities: set<FacilityId>)

  /** Some other active event already holds the operation. */
  predicate OperationTaken(db: Db, operation: Option<OperationId>, current: Option<EventId>) {
    operation.Some? && exists id | id in db.events ::
      Some(id) != current && Active(db.events[id].status) && db.events[id].operation == operation
  }

  /** Some other active event already holds one of the facilities. */
  predicate FacilitiesTaken(db: Db, facilities: set<FacilityId>, current: Option<EventId>) {
    exists id | id in db.events ::
      Some(id) != current && Active(db.events[id].status) && db.events[id].facilities * facilities != {}
  }

  predicate Known(db: Db, operation: Option<OperationId>) {
    operation.Some? ==> operation.value in db.operator
  }

  /** The event a creation payload would store, or the first check it fails. */
  function NewEvent(db: Db, p: CreatePayload): Result<Event, Error> {
    match p.entity
    case OperationEntity =>
      if OperationTaken(db, p.operation, None) then Err(Overlapping)
      else if p.operation.None? then Err(Missing)
      else if p.fromOperator == p.toOperator then Err(SameOwner)
      else if !Known(db, p.operation) then Err(NotFound)
      else Ok(Event(ToBeTransferred, p.fromOperator, p.toOperator, p.effective, p.operation, None, None, {}))
    case FacilityEntity =>
      if FacilitiesTaken(db, p.facilities, None) then Err(Overlapping)
      else if p.facilities == {} || p.fromOperation.None? || p.toOperation.None? then Err(Missing)
      else if p.fromOperation == p.toOperation then Err(SameOwner)
      else if !Known(db, p.fromOperation) || !Known(db, p.toOperation) || !(p.facilities <= db.home.Keys) then
        Err(NotFound)
      else Ok(Event(ToBeTransferred, p.fromOperator, p.toOperator, p.effective,
                    None, p.fromOperation, p.toOperation, p.facilities))
  }

  /** The event an update payload would store, or the first check it fails. */
  function UpdatedEvent(db: Db, id: EventId, p: UpdatePayload): Result<Event, Error> {
    if id !in db.events then Err(NotFound)
    else if !db.events[id].status.ToBeTransferred? then Err(NotPending)
    else
      match p.entity
      case OperationEntity =>
        if p.operation.None? then Err(Missing)
        else if OperationTaken(db, p.operation, Some(id)) then Err(Overlapping)
        else if !Known(db, p.operation) then Err(NotFound)
        else Ok(db.events[id].(operation := p.operation, effective := p.effective))
      case FacilityEntity =>
        if p.facilities == {} then Err(Missing)
        else if FacilitiesTaken(db, p.facilities, Some(id)) then Err(Overlapping)
        else if !(p.facilities <= db.home.Keys) then Err(NotFound)
        else Ok(db.events[id].(facilities := p.facilities, effective := p.effective))
  }

  function Store(db: Db, id: EventId, e: Event): Db {
    db.(events := db.events[id := e])
  }

  /** An effective date that is not in the future is carried out at once; a failure there undoes the
      whole request. */
  function Create(db: Db, id: EventId, p: CreatePayload, now: Instant): Result<Db, Error> {
    match NewEvent(db, p)
    case Err(error) => Err(error)
    case Ok(e) => if AtOrBefore(p.effective, now) then Process(Store(db, id, e), id, e) else Ok(Store(db, id, e))
  }

  /** As in the source, the object carried out at once is the one fetched before the update. */
  function Update(db: Db, id: EventId, p: UpdatePayload, now: Instant): Result<Db, Error> {
    match UpdatedEvent(db, id, p)
    case Err(error) => Err(error)
    case Ok(e) =>
      if AtOrBefore(p.effective, now) then Process(Store(db, id, e), id, db.events[id]) else Ok(Store(db, id, e))
  }

  function Delete(db: Db, id: EventId): Result<Db, Error> {
    if id !in db.events then Err(NotFound)
    else if !db.events[id].status.ToBeTransferred? then Err(NotPending)
    else Ok(db.(events := db.events - {id}))
  }

  /* ---------- the daily run ---------- */

  function Due(db: Db, today: CalendarDate): set<EventId> {
    set id | id in db.events && db.events[id].status.ToBeTransferred?
      && DateAtOrBefore(db.events[id].effective.date, today)
  }

  /** A due event goes through, judged against the state before the run. */
  predicate GoesThrough(db: Db, ids: set<EventId>, id: EventId) {
    id in ids && id in db.events && Succeeds(db, id, db.events[id])
  }

  predicate MovesOperation(db: Db, ids: set<EventId>, id: EventId, operation: OperationId) {
    GoesThrough(db, ids, id) && db.events[id].facilities == {} && db.events[id].operation == Some(operation)
  }

  predicate MovesFacility(db: Db, ids: set<EventId>, id: EventId, facility: FacilityId) {
    GoesThrough(db, ids, id) && facility in db.events[id].facilities
  }

  ghost function OperationMover(db: Db, ids: set<EventId>, operation: OperationId): Option<Event> {
    if id :| MovesOperation(db, ids, id, operation) then Some(db.events[id]) else None
  }

  ghost function FacilityMover(db: Db, ids: set<EventId>, facility: FacilityId): Option<Event> {
    if id :| MovesFacility(db, ids, id, facility) then Some(db.events[id]) else None
  }

  ghost function OperatorAfter(db: Db, ids: set<EventId>, o: OperationId): OperatorId
    requires o in db.operator
  {
    match OperationMover(db, ids, o)
    case None => db.operator[o]
    case Some(e) => e.toOperator
  }

  ghost function OperationLineAfter(db: Db, ids: set<EventId>, o: OperationId): seq<Span<OperatorId>>
    requires o in db.operationLines
  {
    match OperationMover(db, ids, o)
    case None => db.operationLines[o]
    case Some(e) => TransferOr(db.operationLines[o], OperatorHandover(e))
  }

  ghost function HomeAfter(db: Db, ids: set<EventId>, f: FacilityId): OperationId
    requires f in db.home
  {
    match FacilityMover(db, ids, f)
    case None => db.home[f]
    case Some(e) => if e.toOperation.Some? then e.toOperation.value else db.home[f]
  }

  ghost function FacilityLineAfter(db: Db, ids: set<EventId>, f: FacilityId): seq<Span<OperationId>>
    requires f in db.facilityLines
  {
    match FacilityMover(db, ids, f)
    case None => db.facilityLines[f]
    case Some(e) => if e.fromOperation.Some? && e.toOperation.Some?
                    then TransferOr(db.facilityLines[f], OperationHandover(e)) else db.facilityLines[f]
  }

  ghost function OperatorsAfter(db: Db, ids: set<EventId>): map<OperationId, OperatorId> {
    map o | o in db.operator :: OperatorAfter(db, ids, o)
  }

  ghost function OperationLinesAfter(db: Db, ids: set<EventId>): map<OperationId, seq<Span<OperatorId>>> {
    map o | o in db.operationLines :: OperationLineAfter(db, ids, o)
  }

  ghost function HomesAfter(db: Db, ids: set<EventId>): map<FacilityId, OperationId> {
    map f | f in db.home :: HomeAfter(db, ids, f)
  }

  ghost function FacilityLinesAfter(db: Db, ids: set<EventId>): map<FacilityId, seq<Span<OperationId>>> {
    map f | f in db.facilityLines :: FacilityLineAfter(db, ids, f)
  }

  ghost function EventsAfter(db: Db, ids: set<EventId>): map<EventId, Event> {
    map id | id in db.events ::
      if GoesThrough(db, ids, id) then db.events[id].(status := Transferred) else db.events[id]
  }

  /** Where a set of pending events takes the tables, in closed form: every row is moved by the event
      that holds it, if that event goes through, and no order of processing is mentioned. */
  ghost function After(db: Db, ids: set<EventId>): Db {
    Db(OperatorsAfter(db, ids), OperationLinesAfter(db, ids), HomesAfter(db, ids), FacilityLinesAfter(db, ids),
       EventsAfter(db, ids))
  }

  /* ---------- invariants ---------- */

  predicate HoldsDistinct(a: Event, b: Event) {
    (a.operation.Some? ==> a.operation != b.operation) && a.facilities * b.facilities == {}
  }

  /** At most one active event holds an operation, and active events hold disjoint facilities. */
  predicate Exclusive(events: map<EventId, Event>) {
    forall i, j | i in events && j in events && i != j && Active(events[i].status) && Active(events[j].status) ::
      HoldsDistinct(events[i], events[j])
  }

  /** Every timeline is contiguous, with one open row, and that row names the current owner. */
  predicate LinesOk<T(==)>(owners: map<nat, T>, lines: map<nat, seq<Span<T>>>) {
    && lines.Keys == owners.Keys
    && forall k | k in lines :: Contiguous(lines[k]) && Last(lines[k]).owner == owners[k]
  }

  predicate LinesInOrder<T>(g: Grain, lines: map<nat, seq<Span<T>>>) {
    forall k | k in lines :: Ordered(g, lines[k])
  }

  /** Foreign keys of one event. */
  predicate Refers(e: Event, operations: set<OperationId>, facilities: set<FacilityId>) {
    && (e.operation.Some? ==> e.operation.value in operations)
    && (e.fromOperation.Some? ==> e.fromOperation.value in operations)
    && (e.toOperation.Some? ==> e.toOperation.value in operations)
    && e.facilities <= facilities
  }

  predicate EventsRefer(events: map<EventId, Event>, operations: set<OperationId>, facilities: set<FacilityId>) {
    forall id | id in events :: Refers(events[id], operations, facilities)
  }

  /** What every run keeps. */
  predicate Inv(db: Db) {
    && LinesOk(db.operator, db.operationLines)
    && LinesOk(db.home, db.facilityLines)
    && EventsRefer(db.events, db.operator.Keys, db.home.Keys)
    && Exclusive(db.events)
  }

  predicate InOrder(g: Grain, db: Db) {
    LinesInOrder(g, db.operationLines) && LinesInOrder(g, db.facilityLines)
  }

  predicate OwnedBy<T(==)>(owners: map<nat, T>, keys: set<nat>, owner: T) {
    forall k | k in keys :: k in owners && owners[k] == owner
  }

  predicate StartBy<T>(g: Grain, lines: map<nat, seq<Span<T>>>, keys: set<nat>, at: Instant) {
    forall k | k in keys && k in lines && lines[k] != [] :: NotAfter(g, Last(lines[k]).start, at)
  }

  /** The event names the present owner of what it is going to move. */
  predicate NamesOwner(db: Db, id: EventId, e: Event)
    requires id in db.events
  {
    var facilities := db.events[id].facilities;
    if facilities != {} then
      e.fromOperation.Some? && e.toOperation.Some? && OwnedBy(db.home, facilities, e.fromOperation.value)
    else e.operation.Some? ==> OwnedBy(db.operator, {e.operation.value}, e.fromOperator)
  }

  /** The event is not dated before the rows it is going to close. */
  predicate TimelyFor(g: Grain, db: Db, id: EventId, e: Event)
    requires id in db.events
  {
    var facilities := db.events[id].facilities;
    if facilities != {} then StartBy(g, db.facilityLines, facilities, e.effective)
    else e.operation.Some? ==> StartBy(g, db.operationLines, {e.operation.value}, e.effective)
  }
}
