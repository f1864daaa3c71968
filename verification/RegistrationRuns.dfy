/** Whole runs of registration steps. */
module RegistrationRuns {
  import opened Prelude
  import opened Ids
  import opened RegistrationModel
  import opened RegistrationProofs

  datatype Step =
    | RegisterNew(payload: Payload)
    | RegisterExisting(operation: OperationId, payload: Payload)
    | UpdateRegistered(operation: OperationId, payload: Payload)
    | SubmitRegistration(operation: OperationId, restComplete: bool)
    | IssueId(operation: OperationId, year: nat)
    | AddFacility(operation: OperationId)
    | UploadApplication(operation: OperationId)
    | TransferFacilities(facilities: set<FacilityId>, operation: OperationId)
    | TransferOperation(operation: OperationId)
    | EditFacility(facility: FacilityId, operation: OperationId)

  /** The registration form moves an operation on from "Not Started". */
  function Drafted(db: Db, o: OperationId): Db {
    if o in db.operations && db.operations[o].status.NotStarted? then SetStatus(db, o, Draft) else db
  }

  function Moved(db: Db, facilities: set<FacilityId>, o: OperationId): Db {
    db.(home := map f | f in db.home :: if f in facilities then o else db.home[f])
  }

  /** Facility transfers take a snapshot of every facility, and append their designation rows in no
      particular order. */
  ghost predicate Transferred(db: Db, after: Db, facilities: set<FacilityId>, o: OperationId) {
    && after == Moved(db, facilities, o).(designations := after.designations, snapshots := db.snapshots + facilities)
    && |after.designations| == |db.designations| + |facilities|
    && multiset(after.designations) ==
       multiset(db.designations) + multiset(set f | f in facilities :: Designation(f, o))
  }

  ghost predicate Next(db: Db, step: Step, after: Db) {
    match step
    case RegisterNew(p) =>
      (match Create(db, p) case Err(_) => after == db case Ok(created) => after == Drafted(created, db.next))
    case RegisterExisting(o, p) =>
      (match Update(db, o, p) case Err(_) => after == db case Ok(updated) => after == Drafted(updated, o))
    case UpdateRegistered(o, p) =>
      (match Update(db, o, p) case Err(_) => after == db case Ok(updated) => after == updated)
    case SubmitRegistration(o, rest) =>
      (match Submit(db, o, rest) case Err(_) => after == db case Ok(next) => after == next)
    case IssueId(o, year) => (match IssueBoroId(db, o, year) case Err(_) => after == db case Ok(next) => after == next)
    case AddFacility(o) => (match CreateFacility(db, o) case Err(_) => after == db case Ok(next) => after == next)
    case UploadApplication(o) =>
      if o !in db.operations then after == db
      else
        (match ReplaceDocument(db, o, NewEntrantApplication)
         case Err(_) => after == db
         case Ok(next) => after == next)
    case TransferFacilities(fs, o) =>
      if o in db.operations && fs <= db.home.Keys then Transferred(db, after, fs, o) else after == db
    case TransferOperation(o) => after == db.(snapshots := db.snapshots + FacilitiesOf(db, o))
    case EditFacility(f, o) =>
      (match UpdateFacility(db, f, o) case Err(_) => after == db case Ok(next) => after == next)
  }

  /* ---------- what a step never takes back ---------- */

  /** Operations stay; a registered one stays registered and keeps its type; a BORO ID stays. */
  predicate Frozen(db: Db, after: Db) {
    forall o | o in db.operations ::
      && o in after.operations
      && (db.operations[o].status.Registered? ==>
            after.operations[o].status.Registered? && after.operations[o].kind == db.operations[o].kind)
      && (db.operations[o].boroId.Some? ==> after.operations[o].boroId == db.operations[o].boroId)
  }

  predicate KeepsIds(db: Db, after: Db) {
    forall q | q in db.operations :: q in after.operations && after.operations[q].boroId == db.operations[q].boroId
  }

  /** What a step keeps that neither issues a BORO ID nor moves facilities. */
  predicate Kept(db: Db, after: Db) {
    Inv(after) && Frozen(db, after) && KeepsIds(db, after) && (Single(db) ==> Single(after))
  }

  lemma DraftedKeeps(db: Db, o: OperationId)
    requires Inv(db)
    ensures Kept(db, Drafted(db, o))
  {
    if o in db.operations {
      SetStatusKeeps(db, o, Draft);
    }
  }

  lemma KeptTransitive(a: Db, b: Db, c: Db)
    requires Kept(a, b) && Kept(b, c)
    ensures Kept(a, c)
  {
    FrozenTransitive(a, b, c);
  }

  lemma CreateKept(db: Db, p: Payload)
    requires Inv(db) && Create(db, p).Ok?
    ensures Kept(db, Create(db, p).value)
  {
    CreateKeeps(db, p);
    assert db.next !in db.operations;
  }

  lemma UpdateKept(db: Db, o: OperationId, p: Payload)
    requires Inv(db) && Update(db, o, p).Ok?
    ensures Kept(db, Update(db, o, p).value)
  {
    UpdateKeeps(db, o, p);
  }

  lemma SubmitKept(db: Db, o: OperationId, restComplete: bool)
    requires Inv(db) && Submit(db, o, restComplete).Ok?
    ensures Kept(db, Submit(db, o, restComplete).value)
  {
    SetStatusKeeps(db, o, Registered);
  }

  lemma SameOperationsFrozen(db: Db, after: Db)
    requires after.operations == db.operations
    ensures Frozen(db, after) && KeepsIds(db, after)
  {
  }

  lemma MoveKeeps(db: Db, after: Db, facilities: set<FacilityId>, o: OperationId)
    requires Inv(db) && o in db.operations
    requires after == db.(home := after.home, designations := after.designations, snapshots := after.snapshots)
    requires after.home == Moved(db, facilities, o).home
    ensures Inv(after) && Frozen(db, after) && KeepsIds(db, after)
  {
  }

  lemma FormStepKeeps(db: Db, step: Step, after: Db)
    requires Inv(db) && Next(db, step, after)
    requires step.RegisterNew? || step.RegisterExisting? || step.UpdateRegistered? || step.SubmitRegistration?
    ensures Kept(db, after)
  {
    match step
    case RegisterNew(p) =>
      if Create(db, p).Ok? {
        CreateKept(db, p);
        DraftedKeeps(Create(db, p).value, db.next);
        KeptTransitive(db, Create(db, p).value, after);
      }
    case RegisterExisting(o, p) =>
      if Update(db, o, p).Ok? {
        UpdateKept(db, o, p);
        DraftedKeeps(Update(db, o, p).value, o);
        KeptTransitive(db, Update(db, o, p).value, after);
      }
    case UpdateRegistered(o, p) =>
      if Update(db, o, p).Ok? {
        UpdateKept(db, o, p);
      }
    case SubmitRegistration(o, rest) =>
      if Submit(db, o, rest).Ok? {
        SubmitKept(db, o, rest);
      }
  }

  lemma RowStepKeeps(db: Db, step: Step, after: Db)
    requires Inv(db) && Next(db, step, after)
    requires step.AddFacility? || step.UploadApplication? || step.TransferOperation?
    ensures Kept(db, after)
  {
    SameOperationsFrozen(db, after);
    match step
    case AddFacility(o) =>
      if CreateFacility(db, o).Ok? {
        CreateFacilityKeeps(db, o);
      }
    case UploadApplication(o) =>
      if o in db.operations {
        ReplaceKeeps(db, o, NewEntrantApplication);
        SingleKept(db, after);
      }
    case TransferOperation(_) => SingleKept(db, after);
  }

  /** The facilities and the destination of a step that moves facilities, if it is carried out. */
  function Moving(db: Db, step: Step): Option<(set<FacilityId>, OperationId)> {
    match step
    case TransferFacilities(fs, o) => if o in db.operations && fs <= db.home.Keys then Some((fs, o)) else None
    case EditFacility(f, o) => if f in db.home && o in db.operations then Some(({f}, o)) else None
    case _ => None
  }

  lemma MoveStepMoves(db: Db, step: Step, after: Db)
    requires Next(db, step, after) && (step.TransferFacilities? || step.EditFacility?)
    ensures
      match Moving(db, step)
      case None => after == db
      case Some((fs, o)) =>
        && fs <= db.home.Keys && o in db.operations
        && after == db.(home := after.home, designations := after.designations, snapshots := after.snapshots)
        && after.home == Moved(db, fs, o).home
  {
    if step.EditFacility? && Moving(db, step).Some? {
      assert after.home == Moved(db, {step.facility}, step.operation).home;
    }
  }

  lemma MoveStepKeeps(db: Db, step: Step, after: Db)
    requires Inv(db) && Next(db, step, after)
    requires step.TransferFacilities? || step.EditFacility?
    ensures Inv(after) && Frozen(db, after) && KeepsIds(db, after)
  {
    MoveStepMoves(db, step, after);
    if Moving(db, step).Some? {
      var (fs, o) := Moving(db, step).value;
      MoveKeeps(db, after, fs, o);
    }
  }

  /** The step may give the operation a BORO ID. */
  predicate MayIssue(db: Db, step: Step, o: OperationId)
    requires o in db.operations
  {
    && step.IssueId? && step.operation == o
    && db.operations[o].boroId.None? && db.operations[o].status.Registered? && Regulated(db.operations[o].purpose)
  }

  lemma IssueKept(db: Db, after: Db, o: OperationId)
    requires OnlyTouches(db, after, o) && o in db.operations && db.operations[o].boroId.None?
    requires after.operations[o] == db.operations[o].(boroId := after.operations[o].boroId)
    ensures Frozen(db, after)
    ensures forall q | q in db.operations && q != o :: after.operations[q].boroId == db.operations[q].boroId
  {
  }

  lemma IssueStepKeeps(db: Db, step: Step, after: Db)
    requires Inv(db) && Next(db, step, after) && step.IssueId?
    ensures Inv(after) && Frozen(db, after) && (Single(db) ==> Single(after))
    ensures forall o | o in db.operations && after.operations[o].boroId != db.operations[o].boroId ::
      MayIssue(db, step, o)
  {
    var o := step.operation;
    if IssueBoroId(db, o, step.year).Ok? {
      IssueKeeps(db, o, step.year);
      IssueKept(db, after, o);
      assert MayIssue(db, step, o);
    }
  }

  /** Every step keeps the invariants: a detail exactly for opted-in operations, at most one live
      document per type, BORO IDs unique and issued. Nothing is taken back, and a BORO ID appears only
      through its own step, on a registered, regulated operation that had none. */
  lemma StepKeeps(db: Db, step: Step, after: Db)
    requires Inv(db) && Next(db, step, after)
    ensures Inv(after) && Frozen(db, after)
    ensures forall o | o in db.operations && after.operations[o].boroId != db.operations[o].boroId ::
      MayIssue(db, step, o)
  {
    match step
    case RegisterNew(_) => FormStepKeeps(db, step, after);
    case RegisterExisting(_, _) => FormStepKeeps(db, step, after);
    case UpdateRegistered(_, _) => FormStepKeeps(db, step, after);
    case SubmitRegistration(_, _) => FormStepKeeps(db, step, after);
    case IssueId(_, _) => IssueStepKeeps(db, step, after);
    case AddFacility(_) => RowStepKeeps(db, step, after);
    case UploadApplication(_) => RowStepKeeps(db, step, after);
    case TransferOperation(_) => RowStepKeeps(db, step, after);
    case TransferFacilities(_, _) => MoveStepKeeps(db, step, after);
    case EditFacility(_, _) => MoveStepKeeps(db, step, after);
  }

  /* ---------- one facility ---------- */

  lemma {:induction false} AtMostOneIff(s: set<nat>)
    ensures |s| <= 1 <==> forall f, g | f in s && g in s :: f == g
  {
    if f :| f in s {
      assert |s - {f}| == |s| - 1;
      if |s| > 1 {
        var g :| g in s - {f};
      } else {
        assert forall g | g in s - {f} :: false by {
          assert |s - {f}| == 0;
        }
      }
    }
  }

  /** A move of facilities asks no questions. It keeps the one-facility rule exactly when the destination
      is an operation of linear facilities or ends up with one facility at most. */
  lemma MoveKeepsSingleIff(db: Db, after: Db, facilities: set<FacilityId>, o: OperationId)
    requires Single(db) && o in db.operations && facilities <= db.home.Keys
    requires after.home == Moved(db, facilities, o).home && after.operations == db.operations
    ensures Single(after) <==> db.operations[o].kind.LFO? || |FacilitiesOf(db, o) + facilities| <= 1
  {
    var there := FacilitiesOf(db, o) + facilities;
    AtMostOneIff(there);
    assert forall f :: f in there <==> f in after.home && after.home[f] == o;
  }

  predicate SingleStep(db: Db, step: Step) {
    match Moving(db, step)
    case None => true
    case Some((fs, o)) => o in db.operations ==> db.operations[o].kind.LFO? || |FacilitiesOf(db, o) + fs| <= 1
  }

  lemma MoveStepSingleIff(db: Db, step: Step, after: Db)
    requires Single(db) && Next(db, step, after) && (step.TransferFacilities? || step.EditFacility?)
    ensures Single(after) <==> SingleStep(db, step)
  {
    MoveStepMoves(db, step, after);
    if Moving(db, step).Some? {
      var (fs, o) := Moving(db, step).value;
      MoveKeepsSingleIff(db, after, fs, o);
    }
  }

  /** Creating, updating, registering and adding facilities keep the one-facility rule by themselves. */
  lemma StepSingleIff(db: Db, step: Step, after: Db)
    requires Inv(db) && Single(db) && Next(db, step, after)
    ensures Single(after) <==> SingleStep(db, step)
  {
    match step
    case RegisterNew(_) => FormStepKeeps(db, step, after);
    case RegisterExisting(_, _) => FormStepKeeps(db, step, after);
    case UpdateRegistered(_, _) => FormStepKeeps(db, step, after);
    case SubmitRegistration(_, _) => FormStepKeeps(db, step, after);
    case IssueId(_, _) => IssueStepKeeps(db, step, after);
    case AddFacility(_) => RowStepKeeps(db, step, after);
    case UploadApplication(_) => RowStepKeeps(db, step, after);
    case TransferOperation(_) => RowStepKeeps(db, step, after);
    case TransferFacilities(_, _) => MoveStepSingleIff(db, step, after);
    case EditFacility(_, _) => MoveStepSingleIff(db, step, after);
  }

  /* ---------- what a purpose brings and takes ---------- */

  lemma ImportRestSettled(d: Db, o: OperationId, before: Operation, p: Payload)
    requires Base(d) && o in d.operations && UpdateRest(d, o, before, p).Ok? && p.purpose == Some(ElectricityImport)
    ensures
      var after := UpdateRest(d, o, before, p).value;
      && o in after.operations && FacilitiesOf(after, o) != {}
      && after.operations[o].activities == p.activities && after.operations[o].products == p.products
      && (BoundaryMap !in p.documents ==> LiveDocuments(after, o, BoundaryMap) <= LiveDocuments(d, o, BoundaryMap))
      && (ProcessFlowDiagram !in p.documents ==>
            LiveDocuments(after, o, ProcessFlowDiagram) <= LiveDocuments(d, o, ProcessFlowDiagram))
  {
    ChangeKindKeeps(d, o, before, p.kind);
    ImportSettled(ChangeKind(d, o, before, p.kind).value, o, p);
  }

  /** An operation that becomes an electricity import operation has no live boundary map or flow diagram
      afterwards, no activities and no products; and any update to that purpose leaves it a facility. */
  lemma ImportOperationSettled(db: Db, o: OperationId, p: Payload)
    requires Inv(db) && Update(db, o, p).Ok? && p.purpose == Some(ElectricityImport)
    ensures
      var after := Update(db, o, p).value;
      && o in after.operations && FacilitiesOf(after, o) != {}
      && (db.operations[o].purpose != p.purpose ==>
            && LiveDocuments(after, o, BoundaryMap) == {} && LiveDocuments(after, o, ProcessFlowDiagram) == {}
            && after.operations[o].activities == {} && after.operations[o].products == {})
  {
    if db.operations[o].purpose != p.purpose {
      ChangePurposeKeeps(db, o, p.purpose);
      NoMapsAfterChange(db, o);
      ImportRestSettled(ChangePurpose(db, o, p.purpose).value, o, db.operations[o], Trimmed(p));
    } else {
      ImportRestSettled(db, o, db.operations[o], p);
    }
  }

  lemma NoMapsAfterChange(db: Db, o: OperationId)
    requires Inv(db) && o in db.operations && ChangePurpose(db, o, Some(ElectricityImport)).Ok?
    ensures
      var after := ChangePurpose(db, o, Some(ElectricityImport)).value;
      LiveDocuments(after, o, BoundaryMap) == {} && LiveDocuments(after, o, ProcessFlowDiagram) == {}
  {
    LeavePurposeKeeps(db, o);
    NoMapsLeft(LeavePurpose(db, o).value, o);
  }

  lemma NoMapsLeft(db: Db, o: OperationId)
    requires Base(db) && o in db.operations
    ensures
      && EnterPurpose(db, o, Some(ElectricityImport)).Ok?
      && var after := EnterPurpose(db, o, Some(ElectricityImport)).value;
         LiveDocuments(after, o, BoundaryMap) == {} && LiveDocuments(after, o, ProcessFlowDiagram) == {}
  {
    ArchiveKeeps(db, o, ProcessFlowDiagram);
    var d := ArchiveOrDelete(db, o, ProcessFlowDiagram).value;
    ArchiveKeeps(d, o, BoundaryMap);
    ArchiveAddsNone(d, o, BoundaryMap, ProcessFlowDiagram);
  }

  lemma ArchiveAddsNone(db: Db, o: OperationId, t: DocumentType, other: DocumentType)
    requires Base(db) && o in db.operations
    ensures ArchiveOrDelete(db, o, t).Ok? ==>
      LiveDocuments(ArchiveOrDelete(db, o, t).value, o, other) <= LiveDocuments(db, o, other)
  {
    TheDocumentFound(db, o, t);
  }

  lemma ImportSettled(db: Db, o: OperationId, p: Payload)
    requires Base(db) && o in db.operations && Settle(db, o, p).Ok? && p.purpose == Some(ElectricityImport)
    ensures
      var after := Settle(db, o, p).value;
      && o in after.operations && FacilitiesOf(after, o) != {}
      && after.operations[o].activities == p.activities && after.operations[o].products == p.products
      && (BoundaryMap !in p.documents ==> LiveDocuments(after, o, BoundaryMap) <= LiveDocuments(db, o, BoundaryMap))
      && (ProcessFlowDiagram !in p.documents ==>
            LiveDocuments(after, o, ProcessFlowDiagram) <= LiveDocuments(db, o, ProcessFlowDiagram))
  {
    var d := SetFields(db, o, p);
    SetFieldsKeeps(db, o, p);
    UploadsOnly(d, o, p.documents);
    var uploaded := UploadDocuments(d, o, p.documents).value;
    if FacilitiesOf(uploaded, o) == {} {
      assert db.next <= uploaded.next;
      assert uploaded.next in FacilitiesOf(MeetPurpose(uploaded, o).value, o);
    }
  }

  lemma UploadsOnly(db: Db, o: OperationId, uploads: set<DocumentType>)
    requires Base(db) && o in db.operations
    ensures
      UploadDocuments(db, o, uploads).Ok? && db.next <= UploadDocuments(db, o, uploads).value.next
      && forall t | t !in uploads ::
         LiveDocuments(UploadDocuments(db, o, uploads).value, o, t) <= LiveDocuments(db, o, t)
  {
    UploadOneKeeps(db, o, BoundaryMap, uploads);
    UploadOneOnly(db, o, BoundaryMap, uploads);
    var d1 := UploadDocument(db, o, BoundaryMap, uploads).value;
    UploadOneKeeps(d1, o, ProcessFlowDiagram, uploads);
    UploadOneOnly(d1, o, ProcessFlowDiagram, uploads);
    var d2 := UploadDocument(d1, o, ProcessFlowDiagram, uploads).value;
    UploadOneKeeps(d2, o, NewEntrantApplication, uploads);
    UploadOneOnly(d2, o, NewEntrantApplication, uploads);
  }

  lemma UploadOneOnly(db: Db, o: OperationId, t: DocumentType, uploads: set<DocumentType>)
    requires Base(db) && o in db.operations
    ensures UploadDocument(db, o, t, uploads).Ok? ==>
      var after := UploadDocument(db, o, t, uploads).value;
      db.next <= after.next && forall u | u !in uploads :: LiveDocuments(after, o, u) <= LiveDocuments(db, o, u)
  {
    TheDocumentFound(db, o, t);
  }

  /** Documents of a registered operation are kept, and those of another not archived. */
  predicate DocumentsFollowStatus(status: Status, before: map<DocumentId, Document>, after: map<DocumentId, Document>) {
    if status.Registered? then after.Keys == before.Keys
    else forall d | d in after :: d in before && after[d] == before[d]
  }

  /** Changing the purpose never deletes a document of a registered operation, and never archives one of
      an operation that is not. */
  lemma PurposeChangeArchivesIffRegistered(db: Db, o: OperationId, purpose: Option<Purpose>)
    requires Inv(db) && o in db.operations && ChangePurpose(db, o, purpose).Ok?
    ensures DocumentsFollowStatus(db.operations[o].status, db.documents, ChangePurpose(db, o, purpose).value.documents)
  {
    LeavePurposeKeeps(db, o);
    LeaveArchivesIffRegistered(db, o);
    EnterArchivesIffRegistered(LeavePurpose(db, o).value, o, purpose);
  }

  lemma LeaveArchivesIffRegistered(db: Db, o: OperationId)
    requires Inv(db) && o in db.operations && LeavePurpose(db, o).Ok?
    ensures DocumentsFollowStatus(db.operations[o].status, db.documents, LeavePurpose(db, o).value.documents)
  {
    if db.operations[o].purpose == Some(NewEntrant) {
      ArchivedIffRegistered(db, o, NewEntrantApplication);
    }
  }

  lemma EnterArchivesIffRegistered(db: Db, o: OperationId, purpose: Option<Purpose>)
    requires Base(db) && o in db.operations
    ensures EnterPurpose(db, o, purpose).Ok?
    ensures DocumentsFollowStatus(db.operations[o].status, db.documents, EnterPurpose(db, o, purpose).value.documents)
  {
    if purpose == Some(ElectricityImport) {
      ArchivedIffRegistered(db, o, ProcessFlowDiagram);
      ArchiveKeeps(db, o, ProcessFlowDiagram);
      ArchivedIffRegistered(ArchiveOrDelete(db, o, ProcessFlowDiagram).value, o, BoundaryMap);
    }
  }

  lemma ArchivedIffRegistered(db: Db, o: OperationId, t: DocumentType)
    requires Base(db) && o in db.operations
    ensures
      ArchiveOrDelete(db, o, t).Ok?
      && DocumentsFollowStatus(db.operations[o].status, db.documents, ArchiveOrDelete(db, o, t).value.documents)
  {
    TheDocumentFound(db, o, t);
    if TheDocument(db, o, t).value.Some? {
      assert TheDocument(db, o, t).value.value in LiveDocuments(db, o, t);
    }
  }

  /** Registration asks for two live documents among boundary maps and flow diagrams. With one live
      document per type that is one of each. */
  lemma CompleteHasBothDocuments(db: Db, o: OperationId, restComplete: bool)
    requires Inv(db) && o in db.operations && db.operations[o].purpose != Some(ElectricityImport)
    ensures Complete(db, o, restComplete) ==>
            LiveDocuments(db, o, BoundaryMap) != {} && LiveDocuments(db, o, ProcessFlowDiagram) != {}
  {
    var maps, diagrams := LiveDocuments(db, o, BoundaryMap), LiveDocuments(db, o, ProcessFlowDiagram);
    AtMostOneIff(maps);
    AtMostOneIff(diagrams);
    assert forall d, e | d in maps && e in maps :: db.documents[d] == db.documents[e];
    assert forall d, e | d in diagrams && e in diagrams :: db.documents[d] == db.documents[e];
    assert maps == {} ==> maps + diagrams == diagrams;
    assert diagrams == {} ==> maps + diagrams == maps;
  }

  /* ---------- runs ---------- */

  ghost predicate Run(states: seq<Db>, steps: seq<Step>) {
    |states| == |steps| + 1 && forall i | 0 <= i < |steps| :: Next(states[i], steps[i], states[i + 1])
  }

  /** Over every run: the invariants hold in every state, and what one state freezes all later ones
      keep: types of registered operations, and BORO IDs. */
  lemma {:induction false} RunKeeps(states: seq<Db>, steps: seq<Step>, i: nat, j: nat)
    requires Run(states, steps) && Inv(states[0]) && i <= j < |states|
    ensures Inv(states[i]) && Inv(states[j]) && Frozen(states[i], states[j])
    decreases j
  {
    if i < j {
      RunKeeps(states, steps, i, j - 1);
      StepKeeps(states[j - 1], steps[j - 1], states[j]);
      FrozenTransitive(states[i], states[j - 1], states[j]);
    } else if i > 0 {
      RunKeeps(states, steps, i - 1, i - 1);
      StepKeeps(states[i - 1], steps[i - 1], states[i]);
    }
  }

  lemma FrozenTransitive(a: Db, b: Db, c: Db)
    requires Frozen(a, b) && Frozen(b, c)
    ensures Frozen(a, c)
  {
    assert forall o | o in a.operations :: o in b.operations;
  }

  ghost predicate SingleUpTo(states: seq<Db>, n: nat)
    requires n < |states|
  {
    forall i | 0 <= i <= n :: Single(states[i])
  }

  ghost predicate SingleSteps(states: seq<Db>, steps: seq<Step>, n: nat)
    requires Run(states, steps) && n < |states|
  {
    forall i | 0 <= i < n :: SingleStep(states[i], steps[i])
  }

  lemma SingleNext(states: seq<Db>, steps: seq<Step>, n: nat)
    requires Run(states, steps) && Inv(states[0]) && n < |steps| && Single(states[n])
    ensures Single(states[n + 1]) <==> SingleStep(states[n], steps[n])
  {
    RunKeeps(states, steps, 0, n);
    StepSingleIff(states[n], steps[n], states[n + 1]);
  }

  /** The one-facility rule holds throughout a run exactly as long as no move breaks it. */
  lemma {:induction false} RunSingleIff(states: seq<Db>, steps: seq<Step>, n: nat)
    requires Run(states, steps) && Inv(states[0]) && Single(states[0]) && n < |states|
    ensures SingleUpTo(states, n) <==> SingleSteps(states, steps, n)
  {
    if n > 0 {
      RunSingleIff(states, steps, n - 1);
      assert SingleUpTo(states, n) <==> SingleUpTo(states, n - 1) && Single(states[n]);
      assert SingleSteps(states, steps, n) <==>
        SingleSteps(states, steps, n - 1) && SingleStep(states[n - 1], steps[n - 1]);
      if SingleUpTo(states, n - 1) {
        SingleNext(states, steps, n - 1);
      }
    }
  }
}
