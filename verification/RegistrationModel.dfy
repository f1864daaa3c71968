/** Operation registration: purpose, type, status, opted-in detail, documents, facilities, BORO ID. */
module RegistrationModel {
  import opened Prelude
  import opened Ids

  datatype Status = NotStarted | Draft | Registered | Declined

  datatype Kind = LFO | SFO | EIO

  datatype Purpose = Reporting | ObpsRegulated | OptedIn | NewEntrant | ElectricityImport | PotentialReporting

  datatype DocumentType = BoundaryMap | ProcessFlowDiagram | NewEntrantApplication

  type DetailId = nat
  type DocumentId = nat

  /** "YY-NNNN", as its two numbers. */
  datatype BoroId = BoroId(year: nat, number: nat)

  datatype Operation = Operation(
    status: Status, kind: Kind, purpose: Option<Purpose>,
    activities: set<nat>, products: set<nat>,
    detail: Option<DetailId>, boroId: Option<BoroId>)

  datatype Document = Document(operation: OperationId, kind: DocumentType, archived: bool)

  /** A row of the facility timeline: the facility is or was designated to the operation. */
  datatype Designation = Designation(facility: FacilityId, operation: OperationId)

  /** A detail is stored with the operation it belongs to, the other end of its one-to-one link. The
      snapshots are the facilities a transfer took a snapshot of. All keys below `next` may be in use. */
  datatype Db = Db(
    operations: map<OperationId, Operation>,
    details: map<DetailId, OperationId>,
    documents: map<DocumentId, Document>,
    home: map<FacilityId, OperationId>,
    designations: seq<Designation>,
    snapshots: set<FacilityId>,
    issued: seq<BoroId>,
    next: nat)

  datatype Error =
    | NotFound | TypeFixed | OneFacilityOnly | NotOneDesignation | Protected | ManyDocuments | Incomplete
    | HasBoroId | NotRegulated | NotRegistered | BadBoroId

  datatype Payload = Payload(
    kind: Kind, purpose: Option<Purpose>, activities: set<nat>, products: set<nat>, documents: set<DocumentType>)

  /* ---------- documents ---------- */

  function LiveDocuments(db: Db, o: OperationId, t: DocumentType): set<DocumentId> {
    set d | d in db.documents && db.documents[d] == Document(o, t, false)
  }

  /** The one live document of a type; looking it up fails when there are several. */
  ghost function TheDocument(db: Db, o: OperationId, t: DocumentType): Result<Option<DocumentId>, Error> {
    if LiveDocuments(db, o, t) == {} then Ok(None)
    else if d :| LiveDocuments(db, o, t) == {d} then Ok(Some(d))
    else Err(ManyDocuments)
  }

  /** The old document is deleted, its archived predecessors are not. */
  ghost function ReplaceDocument(db: Db, o: OperationId, t: DocumentType): (r: Result<Db, Error>)
    ensures r.Ok? ==> r.value == db.(documents := r.value.documents, next := r.value.next)
  {
    var existing :- TheDocument(db, o, t);
    var kept := if existing.Some? then db.documents - {existing.value} else db.documents;
    Ok(db.(documents := kept[db.next := Document(o, t, false)], next := db.next + 1))
  }

  ghost function UploadDocument(db: Db, o: OperationId, t: DocumentType, uploads: set<DocumentType>)
    : (r: Result<Db, Error>)
    ensures r.Ok? ==> r.value == db.(documents := r.value.documents, next := r.value.next)
  {
    if t in uploads then ReplaceDocument(db, o, t) else Ok(db)
  }

  ghost function UploadDocuments(db: Db, o: OperationId, uploads: set<DocumentType>): (r: Result<Db, Error>)
    ensures r.Ok? ==> r.value == db.(documents := r.value.documents, next := r.value.next)
  {
    var d1 :- UploadDocument(db, o, BoundaryMap, uploads);
    var d2 :- UploadDocument(d1, o, ProcessFlowDiagram, uploads);
    UploadDocument(d2, o, NewEntrantApplication, uploads)
  }

  /** Archived once the operation is registered, deleted before that. */
  ghost function ArchiveOrDelete(db: Db, o: OperationId, t: DocumentType): (r: Result<Db, Error>)
    requires o in db.operations
    ensures r.Ok? ==> r.value == db.(documents := r.value.documents)
  {
    var existing :- TheDocument(db, o, t);
    match existing
    case None => Ok(db)
    case Some(d) =>
      if db.operations[o].status.Registered?
      then Ok(db.(documents := db.documents[d := Document(o, t, true)]))
      else Ok(db.(documents := db.documents - {d}))
  }

  /* ---------- facilities ---------- */

  function FacilitiesOf(db: Db, o: OperationId): set<FacilityId> {
    set f | f in db.home && db.home[f] == o
  }

  function WithoutOperation(rows: seq<Designation>, o: OperationId): seq<Designation> {
    if rows == [] then []
    else (if rows[0].operation == o then [] else [rows[0]]) + WithoutOperation(rows[1..], o)
  }

  /** Deletes the designations of an operation, then its facilities; a facility that another operation
      was once designated for, or that has a snapshot, cannot go, and then nothing does. */
  function DeleteFacilities(db: Db, o: OperationId): (r: Result<Db, Error>)
    ensures r.Ok? ==> r.value == db.(home := r.value.home, designations := r.value.designations)
  {
    var rows, gone := WithoutOperation(db.designations, o), FacilitiesOf(db, o);
    if !(gone !! db.snapshots) || exists i | 0 <= i < |rows| :: rows[i].facility in gone then Err(Protected)
    else Ok(db.(designations := rows, home := db.home - gone))
  }

  /** Only an operation of linear facilities may have more than one. */
  function CreateFacility(db: Db, o: OperationId): Result<Db, Error> {
    if o !in db.operations then Err(NotFound)
    else if FacilitiesOf(db, o) != {} && !db.operations[o].kind.LFO? then Err(OneFacilityOnly)
    else
      Ok(db.(home := db.home[db.next := o],
             designations := db.designations + [Designation(db.next, o)],
             next := db.next + 1))
  }

  /** An electricity import operation has a facility of its own, created when it has none. */
  function EnsureImportFacility(db: Db, o: OperationId): Result<Db, Error>
    requires o in db.operations
  {
    if db.operations[o].purpose == Some(ElectricityImport) && FacilitiesOf(db, o) == {} then CreateFacility(db, o)
    else Ok(db)
  }

  /* ---------- the opted-in detail ---------- */

  /** Deleting a detail nulls the key that refers to it. */
  function DeleteDetail(db: Db, o: OperationId): Db
    requires o in db.operations
  {
    match db.operations[o].detail
    case None => db
    case Some(d) =>
      db.(details := db.details - {d}, operations := db.operations[o := db.operations[o].(detail := None)])
  }

  function EnsureDetail(db: Db, o: OperationId): Db
    requires o in db.operations
  {
    if db.operations[o].purpose == Some(OptedIn) && db.operations[o].detail.None? then
      db.(details := db.details[db.next := o],
          operations := db.operations[o := db.operations[o].(detail := Some(db.next))],
          next := db.next + 1)
    else db
  }

  /* ---------- changing the purpose ---------- */

  /** The designation row of an electricity import operation is fetched as the only one it has. */
  function DropImportFacility(db: Db, o: OperationId): Result<Db, Error> {
    if |db.designations| != |WithoutOperation(db.designations, o)| + 1 then Err(NotOneDesignation)
    else DeleteFacilities(db, o)
  }

  ghost function LeavePurpose(db: Db, o: OperationId): (r: Result<Db, Error>)
    requires o in db.operations
    ensures r.Ok? ==> o in r.value.operations
  {
    match db.operations[o].purpose
    case Some(ElectricityImport) => DropImportFacility(db, o)
    case Some(OptedIn) => Ok(DeleteDetail(db, o))
    case Some(NewEntrant) => ArchiveOrDelete(db, o, NewEntrantApplication)
    case _ => Ok(db)
  }

  ghost function EnterPurpose(db: Db, o: OperationId, purpose: Option<Purpose>): (r: Result<Db, Error>)
    requires o in db.operations
    ensures r.Ok? ==> r.value == db.(documents := r.value.documents)
  {
    if purpose == Some(ElectricityImport) then
      var d1 :- ArchiveOrDelete(db, o, ProcessFlowDiagram);
      ArchiveOrDelete(d1, o, BoundaryMap)
    else Ok(db)
  }

  /** What the new purpose leaves of the payload. */
  function Trimmed(p: Payload): Payload {
    match p.purpose
    case Some(ElectricityImport) =>
      p.(activities := {}, products := {}, documents := p.documents - {BoundaryMap, ProcessFlowDiagram})
    case Some(Reporting) => p.(products := {})
    case Some(PotentialReporting) => p.(products := {})
    case _ => p
  }

  ghost function ChangePurpose(db: Db, o: OperationId, purpose: Option<Purpose>): (r: Result<Db, Error>)
    requires o in db.operations
    ensures r.Ok? ==> o in r.value.operations
  {
    var left :- LeavePurpose(db, o);
    EnterPurpose(left, o, purpose)
  }

  /* ---------- creating and updating an operation ---------- */

  function SetFields(db: Db, o: OperationId, p: Payload): Db
    requires o in db.operations
  {
    db.(operations := db.operations[o :=
      db.operations[o].(kind := p.kind, purpose := p.purpose, activities := p.activities, products := p.products)])
  }

  ghost function ChangeKind(db: Db, o: OperationId, before: Operation, kind: Kind): (r: Result<Db, Error>)
    ensures r.Ok? ==> r.value == db.(home := r.value.home, designations := r.value.designations)
  {
    if kind == before.kind then Ok(db)
    else if before.status.Registered? then Err(TypeFixed)
    else DeleteFacilities(db, o)
  }

  ghost function Update(db: Db, o: OperationId, p: Payload): Result<Db, Error> {
    if o !in db.operations then Err(NotFound)
    else if p.purpose != db.operations[o].purpose then
      var changed :- ChangePurpose(db, o, p.purpose);
      UpdateRest(changed, o, db.operations[o], Trimmed(p))
    else UpdateRest(db, o, db.operations[o], p)
  }

  ghost function UpdateRest(db: Db, o: OperationId, before: Operation, p: Payload): Result<Db, Error>
    requires o in db.operations
  {
    var d :- ChangeKind(db, o, before, p.kind);
    Settle(d, o, p)
  }

  /** The second half of an update: store the fields, the documents, and what the purpose calls for. */
  ghost function Settle(db: Db, o: OperationId, p: Payload): Result<Db, Error>
    requires o in db.operations
  {
    var d :- UploadDocuments(SetFields(db, o, p), o, p.documents);
    MeetPurpose(d, o)
  }

  function MeetPurpose(db: Db, o: OperationId): Result<Db, Error>
    requires o in db.operations
  {
    EnsureImportFacility(EnsureDetail(db, o), o)
  }

  function NewOperation(p: Payload): Operation {
    Operation(NotStarted, p.kind, p.purpose, p.activities, p.products, None, None)
  }

  function Insert(db: Db, p: Payload): Db {
    db.(operations := db.operations[db.next := NewOperation(p)], next := db.next + 1)
  }

  /** A new operation is stored and then settled as after an update. */
  ghost function Create(db: Db, p: Payload): Result<Db, Error> {
    Settle(Insert(db, p), db.next, p)
  }

  function SetStatus(db: Db, o: OperationId, status: Status): Db
    requires o in db.operations
  {
    db.(operations := db.operations[o := db.operations[o].(status := status)])
  }

  /** Registration information: everything but the contacts, scans and opt-in answers is read from the
      tables; those are one flag. */
  predicate Complete(db: Db, o: OperationId, restComplete: bool)
    requires o in db.operations
  {
    var operation := db.operations[o];
    var isImport := operation.purpose == Some(ElectricityImport);
    && restComplete
    && operation.purpose.Some?
    && (exists i | 0 <= i < |db.designations| :: db.designations[i].operation == o)
    && (!isImport ==> operation.activities != {})
    && (!isImport ==> |LiveDocuments(db, o, BoundaryMap) + LiveDocuments(db, o, ProcessFlowDiagram)| >= 2)
    && (operation.purpose == Some(NewEntrant) ==> LiveDocuments(db, o, NewEntrantApplication) != {})
    && (operation.purpose == Some(OptedIn) ==> operation.detail.Some?)
  }

  function Submit(db: Db, o: OperationId, restComplete: bool): Result<Db, Error> {
    if o !in db.operations then Err(NotFound)
    else if !Complete(db, o, restComplete) then Err(Incomplete)
    else Ok(SetStatus(db, o, Registered))
  }

  /* ---------- BORO IDs ---------- */

  predicate Regulated(purpose: Option<Purpose>) {
    purpose == Some(ObpsRegulated) || purpose == Some(NewEntrant) || purpose == Some(OptedIn)
  }

  /** The order of the printed ids. */
  predicate Later(a: BoroId, b: BoroId) {
    a.year > b.year || (a.year == b.year && a.number > b.number)
  }

  function Latest(issued: seq<BoroId>): Option<BoroId> {
    if issued == [] then None
    else
      var last := issued[|issued| - 1];
      match Latest(issued[..|issued| - 1])
      case None => Some(last)
      case Some(best) => if Later(last, best) then Some(last) else Some(best)
  }

  /** Two digits of the year, unpadded, and four of the number: a year or a number that prints as any
      other count of digits is refused. */
  function NextBoroId(issued: seq<BoroId>, calendarYear: nat): Result<BoroId, Error> {
    var year := calendarYear % 100;
    var number :=
      match Latest(issued)
      case None => 1
      case Some(latest) => if latest.year == year then latest.number + 1 else 1;
    if year < 10 || number > 9999 || BoroId(year, number) in issued then Err(BadBoroId) else Ok(BoroId(year, number))
  }

  function IssueBoroId(db: Db, o: OperationId, year: nat): Result<Db, Error> {
    if o !in db.operations then Err(NotFound)
    else if db.operations[o].boroId.Some? then Err(HasBoroId)
    else if !Regulated(db.operations[o].purpose) then Err(NotRegulated)
    else if !db.operations[o].status.Registered? then Err(NotRegistered)
    else
      var id :- NextBoroId(db.issued, year);
      Ok(db.(operations := db.operations[o := db.operations[o].(boroId := Some(id))], issued := db.issued + [id]))
  }

  /* ---------- moving facilities ---------- */

  /** Updating a facility stores the operation id of the payload along with the rest. */
  function UpdateFacility(db: Db, f: FacilityId, o: OperationId): Result<Db, Error> {
    if f !in db.home || o !in db.operations then Err(NotFound) else Ok(db.(home := db.home[f := o]))
  }
}
