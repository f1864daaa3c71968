/** Whole runs of the transfer state machine: what they keep, and exactly when they keep more. */
module TransferRuns {
  import opened Prelude
  import opened Calendar
  import opened Ids
  import opened Timelines
  import opened TransferModel
  import opened TransferProofs

  /** Start date of an operation's first row: midnight of January 1, 2024 in Vancouver. */
  const OPERATION_DEFAULT_START_DATE: Instant := At(Date(2024, 1), 8 * 3600)

  datatype Step =
    | CreateOperation(operation: OperationId, operator: OperatorId)
    | CreateFacility(facility: FacilityId, operation: OperationId, at: Instant)
    | CreateEvent(id: EventId, create: CreatePayload, now: Instant)
    | UpdateEvent(id: EventId, update: UpdatePayload, now: Instant)
    | DeleteEvent(id: EventId)
    | RunDueEvents(today: CalendarDate)

  function OrSame(db: Db, result: Result<Db, Error>): Db {
    match result
    case Err(_) => db
    case Ok(next) => next
  }

  /** A request that is refused leaves the tables as they were. New rows get new keys. */
  ghost function Next(db: Db, step: Step): Db {
    match step
    case CreateOperation(o, operator) =>
      if o in db.operator then db
      else db.(operator := db.operator[o := operator],
               operationLines := db.operationLines[o := [Span(operator, OPERATION_DEFAULT_START_DATE, None)]])
    case CreateFacility(f, o, at) =>
      if f in db.home || o !in db.operator then db
      else db.(home := db.home[f := o], facilityLines := db.facilityLines[f := [Span(o, at, None)]])
    case CreateEvent(id, p, now) => if id in db.events then db else OrSame(db, Create(db, id, p, now))
    case UpdateEvent(id, p, now) => OrSame(db, Update(db, id, p, now))
    case DeleteEvent(id) => OrSame(db, Delete(db, id))
    case RunDueEvents(today) => RunDue(db, today)
  }

  ghost function Run(db: Db, steps: seq<Step>): Db
    decreases |steps|
  {
    if steps == [] then db else Run(Next(db, steps[0]), steps[1..])
  }

  /* ---------- the invariant, and order ---------- */

  predicate TimelyCreate(g: Grain, db: Db, id: EventId, p: CreatePayload, now: Instant) {
    id !in db.events && NewEvent(db, p).Ok? && AtOrBefore(p.effective, now) ==>
      var e := NewEvent(db, p).value;
      Succeeds(Store(db, id, e), id, e) ==> TimelyFor(g, Store(db, id, e), id, e)
  }

  predicate TimelyUpdate(g: Grain, db: Db, id: EventId, p: UpdatePayload, now: Instant) {
    UpdatedEvent(db, id, p).Ok? && AtOrBefore(p.effective, now) ==>
      var stored := Store(db, id, UpdatedEvent(db, id, p).value);
      Succeeds(stored, id, db.events[id]) ==> TimelyFor(g, stored, id, db.events[id])
  }

  /** Whatever the step transfers is not dated before the row it closes, in an earlier year if only years
      are compared. */
  ghost predicate TimelyStep(g: Grain, db: Db, step: Step) {
    match step
    case CreateEvent(id, p, now) => TimelyCreate(g, db, id, p, now)
    case UpdateEvent(id, p, now) => TimelyUpdate(g, db, id, p, now)
    case RunDueEvents(today) => forall id | GoesThrough(db, Due(db, today), id) :: TimelyFor(g, db, id, db.events[id])
    case _ => true
  }

  ghost predicate TimelyRun(g: Grain, db: Db, steps: seq<Step>)
    decreases |steps|
  {
    steps == [] || (TimelyStep(g, db, steps[0]) && TimelyRun(g, Next(db, steps[0]), steps[1..]))
  }

  lemma CreateStep(g: Grain, db: Db, id: EventId, p: CreatePayload, now: Instant)
    requires Inv(db) && id !in db.events
    ensures Inv(OrSame(db, Create(db, id, p, now)))
    ensures InOrder(g, OrSame(db, Create(db, id, p, now))) <==> InOrder(g, db) && TimelyCreate(g, db, id, p, now)
  {
    if NewEvent(db, p).Ok? {
      var e := NewEvent(db, p).value;
      NewEventKeepsInv(db, id, p);
      if AtOrBefore(p.effective, now) && Succeeds(Store(db, id, e), id, e) {
        ProcessKeeps(g, Store(db, id, e), id, e);
      }
    }
  }

  lemma UpdateStep(g: Grain, db: Db, id: EventId, p: UpdatePayload, now: Instant)
    requires Inv(db)
    ensures Inv(OrSame(db, Update(db, id, p, now)))
    ensures InOrder(g, OrSame(db, Update(db, id, p, now))) <==> InOrder(g, db) && TimelyUpdate(g, db, id, p, now)
  {
    if UpdatedEvent(db, id, p).Ok? {
      var stored := Store(db, id, UpdatedEvent(db, id, p).value);
      UpdatedEventKeepsInv(db, id, p);
      if AtOrBefore(p.effective, now) && Succeeds(stored, id, db.events[id]) {
        ProcessKeeps(g, stored, id, db.events[id]);
      }
    }
  }

  lemma NewLineKeeps<T>(g: Grain, owners: map<nat, T>, lines: map<nat, seq<Span<T>>>, k: nat, owner: T, at: Instant)
    requires LinesOk(owners, lines) && k !in owners
    ensures LinesOk(owners[k := owner], lines[k := [Span(owner, at, None)]])
    ensures LinesInOrder(g, lines[k := [Span(owner, at, None)]]) <==> LinesInOrder(g, lines)
  {
    var line := [Span(owner, at, None)];
    var next := lines[k := line];
    assert Contiguous(line) && Ordered(g, line);
    if LinesInOrder(g, next) {
      assert forall q | q in lines :: next[q] == lines[q];
    }
  }

  lemma MoreKeysKeepReferences(events: map<EventId, Event>, operations: set<OperationId>, facilities: set<FacilityId>,
                               operations': set<OperationId>, facilities': set<FacilityId>)
    requires EventsRefer(events, operations, facilities) && operations <= operations' && facilities <= facilities'
    ensures EventsRefer(events, operations', facilities')
  {
    assert forall id | id in events :: Refers(events[id], operations, facilities);
  }

  lemma NewOperationKeeps(g: Grain, db: Db, o: OperationId, operator: OperatorId)
    requires Inv(db) && o !in db.operator
    ensures Inv(Next(db, CreateOperation(o, operator)))
    ensures InOrder(g, Next(db, CreateOperation(o, operator))) <==> InOrder(g, db)
  {
    NewLineKeeps(g, db.operator, db.operationLines, o, operator, OPERATION_DEFAULT_START_DATE);
    MoreKeysKeepReferences(db.events, db.operator.Keys, db.home.Keys, db.operator.Keys + {o}, db.home.Keys);
    assert db.operator[o := operator].Keys == db.operator.Keys + {o};
  }

  lemma NewFacilityKeeps(g: Grain, db: Db, f: FacilityId, o: OperationId, at: Instant)
    requires Inv(db) && f !in db.home && o in db.operator
    ensures Inv(Next(db, CreateFacility(f, o, at)))
    ensures InOrder(g, Next(db, CreateFacility(f, o, at))) <==> InOrder(g, db)
  {
    NewLineKeeps(g, db.home, db.facilityLines, f, o, at);
    MoreKeysKeepReferences(db.events, db.operator.Keys, db.home.Keys, db.operator.Keys, db.home.Keys + {f});
    assert db.home[f := o].Keys == db.home.Keys + {f};
  }

  /** Every step keeps the invariant, and keeps the rows in order exactly when it is timely. */
  lemma StepKeeps(g: Grain, db: Db, step: Step)
    requires Inv(db)
    ensures Inv(Next(db, step))
    ensures InOrder(g, Next(db, step)) <==> InOrder(g, db) && TimelyStep(g, db, step)
  {
    match step
    case CreateOperation(o, operator) =>
      if o !in db.operator {
        NewOperationKeeps(g, db, o, operator);
      }
    case CreateFacility(f, o, at) =>
      if f !in db.home && o in db.operator {
        NewFacilityKeeps(g, db, f, o, at);
      }
    case CreateEvent(id, p, now) =>
      if id !in db.events {
        CreateStep(g, db, id, p, now);
      }
    case UpdateEvent(id, p, now) =>
      UpdateStep(g, db, id, p, now);
    case DeleteEvent(id) =>
      if Delete(db, id).Ok? {
        DeleteKeepsInv(db, id);
      }
    case RunDueEvents(today) =>
      AfterKeeps(g, db, Due(db, today));
  }

  /** Over every run: each operation and each facility has one contiguous timeline with one open row,
      owned by its current owner, and active events are exclusive. The rows are in order at the end, by
      instant or by year, exactly when they were at the start and nothing in the run was transferred out
      of turn, by the same measure. */
  lemma {:induction false} RunKeeps(g: Grain, db: Db, steps: seq<Step>)
    requires Inv(db)
    ensures Inv(Run(db, steps))
    ensures InOrder(g, Run(db, steps)) <==> InOrder(g, db) && TimelyRun(g, db, steps)
    decreases |steps|
  {
    if steps != [] {
      StepKeeps(g, db, steps[0]);
      RunKeeps(g, Next(db, steps[0]), steps[1..]);
    }
  }

  lemma EmptyInv(g: Grain)
    ensures Inv(Db(map[], map[], map[], map[], map[])) && InOrder(g, Db(map[], map[], map[], map[], map[]))
  {
  }

  /* ---------- events that name the present owner ---------- */

  /** Every pending event still names the owner of what it is going to move. */
  predicate Honest(db: Db) {
    forall id | id in db.events && db.events[id].status.ToBeTransferred? :: NamesOwner(db, id, db.events[id])
  }

  lemma OthersStillName(db: Db, id: EventId, e: Event, j: EventId)
    requires id in db.events && j in db.events && j != id && Succeeds(db, id, e)
    requires db.events[j].facilities * db.events[id].facilities == {}
    requires db.events[j].operation.Some? ==> db.events[j].operation != e.operation
    ensures NamesOwner(Process(db, id, e).value, j, db.events[j]) <==> NamesOwner(db, j, db.events[j])
  {
    var next, e' := Process(db, id, e).value, db.events[j];
    if e'.facilities != {} {
      assert forall f | f in e'.facilities :: f !in e'.facilities * db.events[id].facilities;
      assert forall f | f in e'.facilities :: f in next.home <==> f in db.home;
      assert forall f | f in e'.facilities && f in db.home :: next.home[f] == db.home[f];
    }
  }

  predicate HonestCreate(db: Db, id: EventId, p: CreatePayload, now: Instant) {
    id !in db.events && NewEvent(db, p).Ok? && !AtOrBefore(p.effective, now) ==>
      NamesOwner(Store(db, id, NewEvent(db, p).value), id, NewEvent(db, p).value)
  }

  predicate HonestUpdate(db: Db, id: EventId, p: UpdatePayload, now: Instant) {
    UpdatedEvent(db, id, p).Ok? && !AtOrBefore(p.effective, now) ==>
      NamesOwner(Store(db, id, UpdatedEvent(db, id, p).value), id, UpdatedEvent(db, id, p).value)
  }

  predicate HonestStep(db: Db, step: Step) {
    match step
    case CreateEvent(id, p, now) => HonestCreate(db, id, p, now)
    case UpdateEvent(id, p, now) => HonestUpdate(db, id, p, now)
    case _ => true
  }

  lemma StoreHonestIff(db: Db, id: EventId, e: Event)
    requires Honest(db) && e.status.ToBeTransferred?
    ensures Honest(Store(db, id, e)) <==> NamesOwner(Store(db, id, e), id, e)
  {
    var next := Store(db, id, e);
    assert forall j | j in db.events && j != id && db.events[j].status.ToBeTransferred? ::
        NamesOwner(db, j, db.events[j]) && next.events[j] == db.events[j]
          && (NamesOwner(next, j, next.events[j]) <==> NamesOwner(db, j, db.events[j]));
    if Honest(next) {
      assert id in next.events;
    }
  }

  lemma ProcessedHonest(db: Db, stored: Db, id: EventId, e: Event)
    requires Honest(db) && Inv(stored) && id in stored.events && Succeeds(stored, id, e)
    requires stored.events[id].status.ToBeTransferred?
    requires stored == Store(db, id, stored.events[id])
    requires forall j | j in db.events && j != id && db.events[j].status.ToBeTransferred?
                        && db.events[j].operation.Some? ::
      db.events[j].operation != e.operation
    ensures Honest(Process(stored, id, e).value)
  {
    var next := Process(stored, id, e).value;
    forall j | j in next.events && next.events[j].status.ToBeTransferred? ensures NamesOwner(next, j, next.events[j]) {
      assert j in db.events && j != id && stored.events[j] == db.events[j];
      assert HoldsDistinct(stored.events[j], stored.events[id]);
      OthersStillName(stored, id, e, j);
      assert NamesOwner(db, j, db.events[j]);
    }
  }

  lemma AfterHonest(db: Db, ids: set<EventId>)
    requires Inv(db) && Honest(db) && Pending(db, ids)
    ensures Honest(After(db, ids))
    ensures forall id | id in ids :: GoesThrough(db, ids, id)
  {
    var d := After(db, ids);
    AfterKeeps(ByYear, db, ids);
    forall id | id in db.events && db.events[id].status.ToBeTransferred? ensures Succeeds(db, id, db.events[id]) {
      assert Refers(db.events[id], db.operator.Keys, db.home.Keys);
      SucceedsIffNamesOwner(db, id, db.events[id]);
    }
    forall id | id in d.events && d.events[id].status.ToBeTransferred? ensures NamesOwner(d, id, d.events[id]) {
      assert id !in ids && id in db.events;
      VerdictIndependent(ByYear, db, ids, id);
      assert Refers(d.events[id], d.operator.Keys, d.home.Keys);
      SucceedsIffNamesOwner(d, id, d.events[id]);
    }
  }

  lemma NewRowsHonest(db: Db, next: Db)
    requires Inv(db) && Honest(db) && next.events == db.events
    requires forall o | o in db.operator :: o in next.operator && next.operator[o] == db.operator[o]
    requires forall f | f in db.home :: f in next.home && next.home[f] == db.home[f]
    ensures Honest(next)
  {
    forall id | id in db.events && db.events[id].status.ToBeTransferred? ensures NamesOwner(next, id, db.events[id]) {
      assert NamesOwner(db, id, db.events[id]);
    }
  }

  lemma CreateHonestIff(db: Db, id: EventId, p: CreatePayload, now: Instant)
    requires Inv(db) && Honest(db) && id !in db.events && NewEvent(db, p).Ok?
    ensures Honest(OrSame(db, Create(db, id, p, now))) <==> HonestCreate(db, id, p, now)
  {
    var e := NewEvent(db, p).value;
    NewEventKeepsInv(db, id, p);
    StoreHonestIff(db, id, e);
    if AtOrBefore(p.effective, now) && Succeeds(Store(db, id, e), id, e) {
      assert forall j | j in db.events && Active(db.events[j].status) ::
        HoldsDistinct(Store(db, id, e).events[j], e) by {
        assert Exclusive(Store(db, id, e).events);
      }
      ProcessedHonest(db, Store(db, id, e), id, e);
    }
  }

  lemma UpdateHonestIff(db: Db, id: EventId, p: UpdatePayload, now: Instant)
    requires Inv(db) && Honest(db) && UpdatedEvent(db, id, p).Ok?
    ensures Honest(OrSame(db, Update(db, id, p, now))) <==> HonestUpdate(db, id, p, now)
  {
    var e := UpdatedEvent(db, id, p).value;
    UpdatedEventKeepsInv(db, id, p);
    StoreHonestIff(db, id, e);
    if AtOrBefore(p.effective, now) && Succeeds(Store(db, id, e), id, db.events[id]) {
      assert forall j | j in db.events && j != id && db.events[j].status.ToBeTransferred? ::
          HoldsDistinct(db.events[j], db.events[id]);
      ProcessedHonest(db, Store(db, id, e), id, db.events[id]);
    }
  }

  lemma DeleteStaysHonest(db: Db, id: EventId)
    requires Honest(db) && Delete(db, id).Ok?
    ensures Honest(Delete(db, id).value)
  {
    assert forall j | j in db.events && j != id && db.events[j].status.ToBeTransferred? ::
      NamesOwner(db, j, db.events[j]);
  }

  /** While every pending event names the present owner, a step keeps it so exactly when the event it
      stores for later does too; in particular no transfer makes another pending event wrong. */
  lemma StepHonestIff(db: Db, step: Step)
    requires Inv(db) && Honest(db)
    ensures Honest(Next(db, step)) <==> HonestStep(db, step)
  {
    match step
    case CreateOperation(o, operator) => NewRowsHonest(db, Next(db, step));
    case CreateFacility(f, o, at) => NewRowsHonest(db, Next(db, step));
    case CreateEvent(id, p, now) =>
      if id !in db.events && NewEvent(db, p).Ok? {
        CreateHonestIff(db, id, p, now);
      }
    case UpdateEvent(id, p, now) =>
      if UpdatedEvent(db, id, p).Ok? {
        UpdateHonestIff(db, id, p, now);
      }
    case DeleteEvent(id) =>
      if Delete(db, id).Ok? {
        DeleteStaysHonest(db, id);
      }
    case RunDueEvents(today) =>
      AfterHonest(db, Due(db, today));
  }

  ghost predicate HonestRun(db: Db, steps: seq<Step>)
    decreases |steps|
  {
    steps == [] || (HonestStep(db, steps[0]) && HonestRun(Next(db, steps[0]), steps[1..]))
  }

  /** Over every run in which each event stored for later names the owner at that time, all pending
      events keep naming the owner, so a daily run carries out everything that is due. */
  lemma {:induction false} RunStaysHonest(db: Db, steps: seq<Step>, today: CalendarDate)
    requires Inv(db) && Honest(db) && HonestRun(db, steps)
    ensures Honest(Run(db, steps))
    ensures Due(RunDue(Run(db, steps), today), today) == {}
    decreases |steps|
  {
    if steps == [] {
      AfterHonest(db, Due(db, today));
    } else {
      StepKeeps(ByYear, db, steps[0]);
      StepHonestIff(db, steps[0]);
      RunStaysHonest(Next(db, steps[0]), steps[1..], today);
    }
  }

  /* ---------- the Year -> Operator map ---------- */

  /** One event carried out, at once or by the daily run, read through the year lookup: the operation it
      is about passes to the new operator for every year from the event's on, and nothing else changes. */
  lemma ProcessRefinesYearMap(db: Db, id: EventId, e: Event, o: OperationId, year: int)
    requires Inv(db) && InOrder(ByYear, db) && id in db.events && Succeeds(db, id, e) && TimelyFor(ByYear, db, id, e)
      && o in db.operator
    ensures
      var moves := db.events[id].facilities == {} && e.operation == Some(o);
      Designated(Process(db, id, e).value.operationLines[o], year) ==
        if moves && year >= YearOf(e.effective) then Some(e.toOperator) else Designated(db.operationLines[o], year)
  {
    if db.events[id].facilities == {} && e.operation == Some(o) {
      TransferSucceedsIffOwner(db.operationLines[o], OperatorHandover(e));
      TransferRefinesYearMap(db.operationLines[o], OperatorHandover(e), year);
    }
  }

  /** A daily run, read through the year lookup: an operation moved by an event passes to the new
      operator for every year from the event's on, and nothing else changes for anyone. */
  lemma RunDueRefinesYearMap(db: Db, today: CalendarDate, o: OperationId, year: int)
    requires Inv(db) && InOrder(ByYear, db) && TimelyStep(ByYear, db, RunDueEvents(today)) && o in db.operator
    ensures Designated(RunDue(db, today).operationLines[o], year) ==
            match OperationMover(db, Due(db, today), o)
            case None => Designated(db.operationLines[o], year)
            case Some(e) =>
              if year >= YearOf(e.effective) then Some(e.toOperator) else Designated(db.operationLines[o], year)
  {
    var due, line := Due(db, today), db.operationLines[o];
    if id :| MovesOperation(db, due, id, o) {
      OperationMoverIs(db, due, id, o);
      TransferSucceedsIffOwner(line, OperatorHandover(db.events[id]));
      assert TimelyFor(ByYear, db, id, db.events[id]) && NotAfter(ByYear, Last(line).start, db.events[id].effective);
      TransferRefinesYearMap(line, OperatorHandover(db.events[id]), year);
    }
  }

  /** The event a step carries out on an operation, if it does. */
  ghost function Mover(db: Db, step: Step, o: OperationId): Option<Event> {
    match step
    case CreateEvent(id, p, now) =>
      if id !in db.events && NewEvent(db, p).Ok? && AtOrBefore(p.effective, now)
      then MoverOf(Store(db, id, NewEvent(db, p).value), id, NewEvent(db, p).value, o)
      else None
    case UpdateEvent(id, p, now) =>
      if UpdatedEvent(db, id, p).Ok? && AtOrBefore(p.effective, now)
      then MoverOf(Store(db, id, UpdatedEvent(db, id, p).value), id, db.events[id], o)
      else None
    case RunDueEvents(today) => OperationMover(db, Due(db, today), o)
    case _ => None
  }

  function MoverOf(db: Db, id: EventId, e: Event, o: OperationId): Option<Event>
    requires id in db.events
  {
    if Succeeds(db, id, e) && db.events[id].facilities == {} && e.operation == Some(o) then Some(e) else None
  }

  /** What a step hands over of an operation. Creating it hands it to its operator from the default start
      date on. */
  ghost function Handovers(db: Db, step: Step, o: OperationId): seq<Handover<OperatorId>> {
    if step.CreateOperation? && step.operation == o && o !in db.operator then
      [Handover(step.operator, step.operator, OPERATION_DEFAULT_START_DATE)]
    else
      match Mover(db, step, o)
      case None => []
      case Some(e) => [OperatorHandover(e)]
  }

  ghost function RunHandovers(db: Db, steps: seq<Step>, o: OperationId): seq<Handover<OperatorId>>
    decreases |steps|
  {
    if steps == [] then [] else Handovers(db, steps[0], o) + RunHandovers(Next(db, steps[0]), steps[1..], o)
  }

  /** The Year -> Operator map of an operation; empty until the operation exists. */
  function OwnerIn(db: Db, o: OperationId, year: int): Option<OperatorId> {
    if o in db.operationLines then Designated(db.operationLines[o], year) else None
  }

  function Overwritten(owner: Option<OperatorId>, mover: Option<Event>, year: int): Option<OperatorId> {
    match mover
    case None => owner
    case Some(e) => if year >= YearOf(e.effective) then Some(e.toOperator) else owner
  }

  lemma MoverRefinesYearMap(db: Db, stored: Db, id: EventId, e: Event, o: OperationId, year: int)
    requires Inv(stored) && InOrder(ByYear, db) && id in stored.events && stored == Store(db, id, stored.events[id])
    requires Succeeds(stored, id, e) ==> TimelyFor(ByYear, stored, id, e)
    ensures OwnerIn(OrSame(db, Process(stored, id, e)), o, year) ==
      Overwritten(OwnerIn(db, o, year), MoverOf(stored, id, e, o), year)
  {
    if Succeeds(stored, id, e) {
      ProcessKeeps(ByYear, stored, id, e);
      if o in stored.operator {
        ProcessRefinesYearMap(stored, id, e, o, year);
      }
    }
  }

  lemma CreateRefinesYearMap(db: Db, id: EventId, p: CreatePayload, now: Instant, o: OperationId, year: int)
    requires Inv(db) && InOrder(ByYear, db) && id !in db.events && TimelyCreate(ByYear, db, id, p, now)
    ensures OwnerIn(OrSame(db, Create(db, id, p, now)), o, year) ==
            Overwritten(OwnerIn(db, o, year), Mover(db, CreateEvent(id, p, now), o), year)
  {
    if NewEvent(db, p).Ok? && AtOrBefore(p.effective, now) {
      var e := NewEvent(db, p).value;
      NewEventKeepsInv(db, id, p);
      MoverRefinesYearMap(db, Store(db, id, e), id, e, o, year);
    }
  }

  lemma UpdateRefinesYearMap(db: Db, id: EventId, p: UpdatePayload, now: Instant, o: OperationId, year: int)
    requires Inv(db) && InOrder(ByYear, db) && TimelyUpdate(ByYear, db, id, p, now)
    ensures OwnerIn(OrSame(db, Update(db, id, p, now)), o, year) ==
            Overwritten(OwnerIn(db, o, year), Mover(db, UpdateEvent(id, p, now), o), year)
  {
    if UpdatedEvent(db, id, p).Ok? && AtOrBefore(p.effective, now) {
      var e := UpdatedEvent(db, id, p).value;
      UpdatedEventKeepsInv(db, id, p);
      MoverRefinesYearMap(db, Store(db, id, e), id, db.events[id], o, year);
    }
  }

  lemma DueRefinesYearMap(db: Db, today: CalendarDate, o: OperationId, year: int)
    requires Inv(db) && InOrder(ByYear, db) && TimelyStep(ByYear, db, RunDueEvents(today))
    ensures OwnerIn(RunDue(db, today), o, year) ==
            Overwritten(OwnerIn(db, o, year), OperationMover(db, Due(db, today), o), year)
  {
    if o in db.operator {
      RunDueRefinesYearMap(db, today, o, year);
    } else if id :| MovesOperation(db, Due(db, today), id, o) {
      assert false;
    }
  }

  lemma NewOperationRefinesYearMap(db: Db, o: OperationId, operator: OperatorId, year: int)
    requires Inv(db) && o !in db.operator
    ensures OwnerIn(Next(db, CreateOperation(o, operator)), o, year) ==
            if year >= YearOf(OPERATION_DEFAULT_START_DATE) then Some(operator) else OwnerIn(db, o, year)
  {
    var line := [Span(operator, OPERATION_DEFAULT_START_DATE, None)];
    assert line[1..] == [];
    assert Lookup(line, year) == if Matches(line[0], year) then Some(line[0]) else None;
  }

  lemma HandedOnce<T>(owner: Option<T>, h: Handover<T>, year: int)
    ensures OwnerAfterAll(owner, [h], year) == if year >= YearOf(h.at) then Some(h.to) else owner
  {
    assert [h][1..] == [];
  }

  lemma StepRefinesYearMap(db: Db, step: Step, o: OperationId, year: int)
    requires Inv(db) && InOrder(ByYear, db) && TimelyStep(ByYear, db, step)
    ensures OwnerIn(Next(db, step), o, year) == OwnerAfterAll(OwnerIn(db, o, year), Handovers(db, step, o), year)
  {
    if Handovers(db, step, o) != [] {
      HandedOnce(OwnerIn(db, o, year), Handovers(db, step, o)[0], year);
    }
    match step
    case CreateEvent(id, p, now) =>
      if id !in db.events {
        CreateRefinesYearMap(db, id, p, now, o, year);
      }
    case UpdateEvent(id, p, now) => UpdateRefinesYearMap(db, id, p, now, o, year);
    case RunDueEvents(today) => DueRefinesYearMap(db, today, o, year);
    case CreateOperation(q, operator) =>
      if q == o && o !in db.operator {
        NewOperationRefinesYearMap(db, o, operator, year);
      }
    case _ =>
  }

  lemma {:induction false} OwnerAfterBoth<T>(owner: Option<T>, a: seq<Handover<T>>, b: seq<Handover<T>>, year: int)
    ensures OwnerAfterAll(owner, a + b, year) == OwnerAfterAll(OwnerAfterAll(owner, a, year), b, year)
    decreases |a|
  {
    if a == [] {
      assert a + b == b;
    } else {
      assert (a + b)[1..] == a[1..] + b;
      OwnerAfterBoth(if year >= YearOf(a[0].at) then Some(a[0].to) else owner, a[1..], b, year);
    }
  }

  /** A whole run without a transfer dated in a year before that of the row it closes, read through the
      year lookup, is the plain Year -> Operator map overwritten by the transfers that went through, in
      turn, for every operation, whether it was there at the start or was created on the way. */
  lemma {:induction false} RunRefinesYearMap(db: Db, steps: seq<Step>, o: OperationId, year: int)
    requires Inv(db) && InOrder(ByYear, db) && TimelyRun(ByYear, db, steps)
    ensures OwnerIn(Run(db, steps), o, year) == OwnerAfterAll(OwnerIn(db, o, year), RunHandovers(db, steps, o), year)
    decreases |steps|
  {
    if steps != [] {
      var next := Next(db, steps[0]);
      StepKeeps(ByYear, db, steps[0]);
      StepRefinesYearMap(db, steps[0], o, year);
      RunRefinesYearMap(next, steps[1..], o, year);
      OwnerAfterBoth(OwnerIn(db, o, year), Handovers(db, steps[0], o), RunHandovers(next, steps[1..], o), year);
    }
  }

  /* ---------- the first row ---------- */

  /** Every operation's first row starts on the default date. */
  predicate FirstRowsDefault(db: Db) {
    forall o | o in db.operationLines ::
      db.operationLines[o] != [] && db.operationLines[o][0].start == OPERATION_DEFAULT_START_DATE
  }

  lemma MoveKeepsFirst(lines: map<nat, seq<Span<OperatorId>>>, keys: set<nat>, h: Handover<OperatorId>, k: nat)
    requires k in lines && Contiguous(lines[k])
    ensures MoveLines(lines, keys, h)[k] != [] && MoveLines(lines, keys, h)[k][0].start == lines[k][0].start
  {
    TransferSucceedsIffOwner(lines[k], h);
  }

  lemma ProcessKeepsFirst(db: Db, id: EventId, e: Event)
    requires Inv(db) && FirstRowsDefault(db) && id in db.events && Succeeds(db, id, e)
    ensures FirstRowsDefault(Process(db, id, e).value)
  {
    if db.events[id].facilities == {} && e.operation.Some? {
      forall o | o in db.operationLines {
        MoveKeepsFirst(db.operationLines, {e.operation.value}, OperatorHandover(e), o);
      }
    }
  }

  lemma {:induction false} AfterKeepsFirst(db: Db, ids: set<EventId>)
    requires Inv(db) && FirstRowsDefault(db)
    ensures FirstRowsDefault(After(db, ids))
  {
    var after := After(db, ids);
    forall o | o in db.operationLines
      ensures after.operationLines[o] != [] && after.operationLines[o][0].start == OPERATION_DEFAULT_START_DATE
    {
      match OperationMover(db, ids, o)
      case None =>
      case Some(e) => TransferSucceedsIffOwner(db.operationLines[o], OperatorHandover(e));
    }
  }

  lemma StepKeepsFirst(db: Db, step: Step)
    requires Inv(db) && FirstRowsDefault(db)
    ensures FirstRowsDefault(Next(db, step))
  {
    match step
    case CreateEvent(id, p, now) =>
      if id !in db.events && Create(db, id, p, now).Ok? && AtOrBefore(p.effective, now) {
        NewEventKeepsInv(db, id, p);
        ProcessKeepsFirst(Store(db, id, NewEvent(db, p).value), id, NewEvent(db, p).value);
      }
    case UpdateEvent(id, p, now) =>
      if Update(db, id, p, now).Ok? && AtOrBefore(p.effective, now) {
        UpdatedEventKeepsInv(db, id, p);
        ProcessKeepsFirst(Store(db, id, UpdatedEvent(db, id, p).value), id, db.events[id]);
      }
    case RunDueEvents(today) => AfterKeepsFirst(db, Due(db, today));
    case _ =>
  }

  /** Over every run, timely or not: somebody is designated for every operation and every year from
      2024 on. */
  lemma {:induction false} RunDesignatesFrom2024(db: Db, steps: seq<Step>, o: OperationId, year: int)
    requires Inv(db) && FirstRowsDefault(db) && year >= 2024 && o in Run(db, steps).operator
    ensures FirstRowsDefault(Run(db, steps))
    ensures o in Run(db, steps).operationLines && Lookup(Run(db, steps).operationLines[o], year).Some?
    decreases |steps|
  {
    if steps == [] {
      LookupAnswersFrom(db.operationLines[o], year);
    } else {
      StepKeeps(ByYear, db, steps[0]);
      StepKeepsFirst(db, steps[0]);
      RunDesignatesFrom2024(Next(db, steps[0]), steps[1..], o, year);
    }
  }

  /* ---------- an update carries out the event as it was before ---------- */

  /** What an update that is due at once would do if it carried out the record it just stored. */
  function UpdateIntended(db: Db, id: EventId, p: UpdatePayload, now: Instant): Result<Db, Error> {
    match UpdatedEvent(db, id, p)
    case Err(error) => Err(error)
    case Ok(e) => if AtOrBefore(p.effective, now) then Process(Store(db, id, e), id, e) else Ok(Store(db, id, e))
  }

  lemma MoveKeysDiffer<T>(lines: map<nat, seq<Span<T>>>, h: Handover<T>, h': Handover<T>, k: nat, k': nat)
    requires k in lines && k' in lines && lines[k] != [] && lines[k'] != []
    requires TransferOr(lines[k], h) == HandedOver(lines[k], h)
      && TransferOr(lines[k'], h') == HandedOver(lines[k'], h')
    ensures MoveLines(lines, {k}, h) == MoveLines(lines, {k'}, h') ==> k == k' && h.at == h'.at
  {
    var a, b := MoveLines(lines, {k}, h), MoveLines(lines, {k'}, h');
    assert |a[k]| == |lines[k]| + 1;
    assert k != k' ==> b[k] == lines[k];
    if k == k' {
      assert Last(a[k]).start == h.at && Last(b[k]).start == h'.at;
    }
  }

  lemma MoveDatesDiffer<T>(owners: map<nat, T>, lines: map<nat, seq<Span<T>>>, keys: set<nat>, k: nat, h: Handover<T>,
                           h': Handover<T>)
    requires LinesOk(owners, lines) && k in keys && k in owners && owners[k] == h.from == h'.from
    ensures MoveLines(lines, keys, h) == MoveLines(lines, keys, h') ==> h.at == h'.at
  {
    TransferSucceedsIffOwner(lines[k], h);
    TransferSucceedsIffOwner(lines[k], h');
    assert Last(MoveLines(lines, keys, h)[k]).start == h.at && Last(MoveLines(lines, keys, h')[k]).start == h'.at;
  }

  /** What an update that names an operation leaves unchanged of what will be moved. */
  predicate SameMove(before: Event, p: UpdatePayload) {
    before.effective == p.effective && (before.facilities == {} ==> before.operation == p.operation)
  }

  lemma OperationMovesDiffer(stored: Db, id: EventId, before: Event, after: Event)
    requires Inv(stored) && id in stored.events && stored.events[id] == after && after.facilities == {}
    requires before.operation.Some? ==> before.operation.value in stored.operator
    requires after.operation.Some? && after.operation.value in stored.operator
    requires before.fromOperator == after.fromOperator && before.toOperator == after.toOperator
    requires NamesOwner(stored, id, before) && NamesOwner(stored, id, after)
    requires Succeeds(stored, id, before) && Succeeds(stored, id, after)
    ensures Process(stored, id, before) == Process(stored, id, after) <==>
            before.operation == after.operation && before.effective == after.effective
  {
    var o', h' := after.operation.value, OperatorHandover(after);
    TransferSucceedsIffOwner(stored.operationLines[o'], h');
    if before.operation.Some? {
      var o, h := before.operation.value, OperatorHandover(before);
      TransferSucceedsIffOwner(stored.operationLines[o], h);
      MoveKeysDiffer(stored.operationLines, h, h', o, o');
    } else {
      assert |MoveLines(stored.operationLines, {o'}, h')[o']| == |stored.operationLines[o']| + 1;
    }
  }

  lemma FacilityMovesDiffer(stored: Db, id: EventId, before: Event, after: Event)
    requires Inv(stored) && id in stored.events && stored.events[id].facilities != {}
    requires before.fromOperation == after.fromOperation && before.toOperation == after.toOperation
    requires NamesOwner(stored, id, before)
    requires Succeeds(stored, id, before) && Succeeds(stored, id, after)
    ensures Process(stored, id, before) == Process(stored, id, after) <==> before.effective == after.effective
  {
    var facilities := stored.events[id].facilities;
    var f :| f in facilities;
    assert stored.home[f] == before.fromOperation.value;
    var h, h' := OperationHandover(before), OperationHandover(after);
    MoveDatesDiffer(stored.home, stored.facilityLines, facilities, f, h, h');
  }

  lemma MovesDiffer(stored: Db, id: EventId, before: Event, after: Event)
    requires Inv(stored) && id in stored.events && stored.events[id] == after && before.facilities == after.facilities
    requires after == before.(operation := after.operation, effective := after.effective)
    requires before.operation.Some? ==> before.operation.value in stored.operator
    requires after.operation.Some? && after.operation.value in stored.operator
    requires NamesOwner(stored, id, before) && NamesOwner(stored, id, after)
    requires Succeeds(stored, id, before) && Succeeds(stored, id, after)
    ensures Process(stored, id, before) == Process(stored, id, after) <==>
            before.effective == after.effective && (before.facilities == {} ==> before.operation == after.operation)
  {
    if before.facilities == {} {
      OperationMovesDiffer(stored, id, before, after);
    } else {
      FacilityMovesDiffer(stored, id, before, after);
    }
  }

  /** The two processings agree exactly when what moves is the same, or both fail. */
  lemma ProcessesAgreeIff(stored: Db, id: EventId, before: Event, after: Event)
    requires Inv(stored) && id in stored.events && stored.events[id] == after && before.facilities == after.facilities
    requires after == before.(operation := after.operation, effective := after.effective)
    requires before.operation.Some? ==> before.operation.value in stored.operator
    requires after.operation.Some? && after.operation.value in stored.operator
    ensures Process(stored, id, before) == Process(stored, id, after) <==>
            || (before.effective == after.effective
                  && (before.facilities == {} ==> before.operation == after.operation))
            || (!NamesOwner(stored, id, before) && !NamesOwner(stored, id, after))
  {
    SucceedsIffNamesOwner(stored, id, before);
    SucceedsIffNamesOwner(stored, id, after);
    if NamesOwner(stored, id, before) && NamesOwner(stored, id, after) {
      MovesDiffer(stored, id, before, after);
    }
  }

  lemma UpdateProcesses(db: Db, id: EventId, p: UpdatePayload, now: Instant)
    requires UpdatedEvent(db, id, p).Ok?
    ensures
      var stored := Store(db, id, UpdatedEvent(db, id, p).value);
      if AtOrBefore(p.effective, now) then
        && Update(db, id, p, now) == Process(stored, id, db.events[id])
        && UpdateIntended(db, id, p, now) == Process(stored, id, UpdatedEvent(db, id, p).value)
      else Update(db, id, p, now) == UpdateIntended(db, id, p, now)
  {
  }

  /** An update that names an operation does what it stored exactly when it is not due yet, or changed
      nothing that is going to be moved (of an event with facilities, the date), or fails either way. */
  lemma OperationUpdateAsStoredIff(db: Db, id: EventId, p: UpdatePayload, now: Instant)
    requires Inv(db) && UpdatedEvent(db, id, p).Ok? && p.entity.OperationEntity?
    ensures
      var before, after := db.events[id], UpdatedEvent(db, id, p).value;
      var stored := Store(db, id, after);
      Update(db, id, p, now) == UpdateIntended(db, id, p, now) <==>
        || !AtOrBefore(p.effective, now)
        || SameMove(before, p)
        || (!NamesOwner(stored, id, before) && !NamesOwner(stored, id, after))
  {
    var before, after := db.events[id], UpdatedEvent(db, id, p).value;
    assert Refers(before, db.operator.Keys, db.home.Keys);
    UpdatedEventKeepsInv(db, id, p);
    UpdateProcesses(db, id, p, now);
    if AtOrBefore(p.effective, now) {
      ProcessesAgreeIff(Store(db, id, after), id, before, after);
    }
  }

  lemma FacilityProcessesAgreeIff(stored: Db, id: EventId, before: Event, after: Event)
    requires Inv(stored) && id in stored.events && stored.events[id] == after && after.facilities != {}
    requires after == before.(facilities := after.facilities, effective := after.effective)
    requires Known(stored, before.operation)
    ensures Process(stored, id, before) == Process(stored, id, after) <==>
            before.effective == after.effective || !NamesOwner(stored, id, before)
  {
    SucceedsIffNamesOwner(stored, id, before);
    SucceedsIffNamesOwner(stored, id, after);
    if NamesOwner(stored, id, before) {
      FacilityMovesDiffer(stored, id, before, after);
    }
  }

  /** For a facility transfer the new facilities are read back, so only the date can be stale. */
  lemma FacilityUpdateAsStoredIff(db: Db, id: EventId, p: UpdatePayload, now: Instant)
    requires Inv(db) && UpdatedEvent(db, id, p).Ok? && p.entity.FacilityEntity?
    ensures
      var stored, before := Store(db, id, UpdatedEvent(db, id, p).value), db.events[id];
      Update(db, id, p, now) == UpdateIntended(db, id, p, now) <==>
        || !AtOrBefore(p.effective, now)
        || before.effective == p.effective
        || !NamesOwner(stored, id, before)
  {
    var before, after := db.events[id], UpdatedEvent(db, id, p).value;
    assert Refers(before, db.operator.Keys, db.home.Keys);
    UpdatedEventKeepsInv(db, id, p);
    UpdateProcesses(db, id, p, now);
    if AtOrBefore(p.effective, now) {
      FacilityProcessesAgreeIff(Store(db, id, after), id, before, after);
    }
  }

  /** On a concrete state: the update names operation 2, which stays with its operator; operation 1,
      which the event named before, is the one that changes hands. */
  lemma UpdateMovesTheOldOperation()
    ensures
      var at := At(Date(2025, 10), 0);
      var event := Event(ToBeTransferred, 10, 20, at, Some(1), None, None, {});
      var line := [Span(10, OPERATION_DEFAULT_START_DATE, None)];
      var db := Db(map[1 := 10, 2 := 10], map[1 := line, 2 := line], map[], map[], map[5 := event]);
      var result := Update(db, 5, UpdatePayload(OperationEntity, at, Some(2), {}), at);
      && result.Ok? && result.value.operator == map[1 := 20, 2 := 10]
      && result.value.events[5] == event.(operation := Some(2), status := Transferred)
  {
    var at := At(Date(2025, 10), 0);
    var event := Event(ToBeTransferred, 10, 20, at, Some(1), None, None, {});
    var line := [Span(10, OPERATION_DEFAULT_START_DATE, None)];
    var db := Db(map[1 := 10, 2 := 10], map[1 := line, 2 := line], map[], map[], map[5 := event]);
    assert Contiguous(line);
    TransferSucceedsIffOwner(line, OperatorHandover(event));
    assert MoveOwners(db.operator, {1}, 20) == map[1 := 20, 2 := 10];
  }

  /** An event dated before the row it closes goes through too, and leaves the rows out of order. */
  lemma BackdatedTransferBreaksOrder(g: Grain)
    ensures
      var at := At(Date(2023, 100), 0);
      var event := Event(ToBeTransferred, 10, 20, at, Some(1), None, None, {});
      var line := [Span(10, OPERATION_DEFAULT_START_DATE, None)];
      var db := Db(map[1 := 10], map[1 := line], map[], map[], map[5 := event]);
      && Inv(db) && InOrder(g, db)
      && Process(db, 5, event).Ok? && !InOrder(g, Process(db, 5, event).value)
  {
    var at := At(Date(2023, 100), 0);
    var event := Event(ToBeTransferred, 10, 20, at, Some(1), None, None, {});
    var line := [Span(10, OPERATION_DEFAULT_START_DATE, None)];
    var db := Db(map[1 := 10], map[1 := line], map[], map[], map[5 := event]);
    assert Contiguous(line);
    TransferSucceedsIffOwner(line, OperatorHandover(event));
    ProcessKeeps(g, db, 5, event);
  }
}
