/** The registration service as it works on its tables, row by row, undoing a request that fails. */
module RegistrationService {
  import opened Prelude
  import opened Ids
  import opened RegistrationModel
  import opened RegistrationProofs
  import opened RegistrationRuns

  lemma OneOrNone(db: Db, o: OperationId, t: DocumentType)
    ensures TheDocument(db, o, t) == Ok(None) <==> LiveDocuments(db, o, t) == {}
    ensures forall d | d in LiveDocuments(db, o, t) ::
      (|LiveDocuments(db, o, t)| == 1 ==> TheDocument(db, o, t) == Ok(Some(d)))
    ensures |LiveDocuments(db, o, t)| > 1 ==> TheDocument(db, o, t) == Err(ManyDocuments)
  {
    var live := LiveDocuments(db, o, t);
    forall d | d in live && |live| == 1 ensures live == {d} {
      assert |live - {d}| == 0;
    }
    forall d | |live| > 1 ensures live != {d} {
      assert |{d}| == 1;
    }
  }

  class RegistrationTables {
    var operations: map<OperationId, Operation>
    var details: map<DetailId, OperationId>
    var documents: map<DocumentId, Document>
    var home: map<FacilityId, OperationId>
    var designations: seq<Designation>
    var snapshots: set<FacilityId>
    var issued: seq<BoroId>
    var next: nat

    function State(): Db
      reads this
    {
      Db(operations, details, documents, home, designations, snapshots, issued, next)
    }

    constructor ()
      ensures State() == Db(map[], map[], map[], map[], [], {}, [], 0) && Inv(State()) && Single(State())
    {
      operations, details, documents, home := map[], map[], map[], map[];
      designations, snapshots, issued, next := [], {}, [], 0;
    }

    method Rollback(saved: Db)
      modifies this
      ensures State() == saved
    {
      operations, details, documents := saved.operations, saved.details, saved.documents;
      home, designations, snapshots := saved.home, saved.designations, saved.snapshots;
      issued, next := saved.issued, saved.next;
    }

    method CreateOrReplaceDocument(o: OperationId, t: DocumentType) returns (ok: bool)
      modifies this`documents, this`next
      ensures ok <==> ReplaceDocument(old(State()), o, t).Ok?
      ensures ok ==> State() == ReplaceDocument(old(State()), o, t).value
    {
      var live := LiveDocuments(State(), o, t);
      OneOrNone(State(), o, t);
      if |live| > 1 {
        return false;
      }
      if live != {} {
        var d :| d in live;
        documents := documents - {d};
      }
      documents := documents[next := Document(o, t, false)];
      next := next + 1;
      return true;
    }

    method ArchiveOrDeleteDocument(o: OperationId, t: DocumentType) returns (ok: bool)
      requires o in operations
      modifies this`documents
      ensures ok <==> ArchiveOrDelete(old(State()), o, t).Ok?
      ensures ok ==> State() == ArchiveOrDelete(old(State()), o, t).value
    {
      var live := LiveDocuments(State(), o, t);
      OneOrNone(State(), o, t);
      if |live| > 1 {
        return false;
      }
      if live != {} {
        var d :| d in live;
        if operations[o].status.Registered? {
          documents := documents[d := documents[d].(archived := true)];
        } else {
          documents := documents - {d};
        }
      }
      return true;
    }

    method DeleteFacilitiesByOperation(o: OperationId) returns (ok: bool)
      modifies this`designations, this`home
      ensures ok <==> DeleteFacilities(old(State()), o).Ok?
      ensures ok ==> State() == DeleteFacilities(old(State()), o).value
    {
      designations := WithoutOperation(designations, o);
      var gone := FacilitiesOf(State(), o);
      if !(gone !! snapshots) || exists i | 0 <= i < |designations| :: designations[i].facility in gone {
        return false;
      }
      home := home - gone;
      return true;
    }

    method AddFacility(o: OperationId) returns (error: Option<Error>)
      modifies this`home, this`designations, this`next
      ensures match CreateFacility(old(State()), o)
              case Err(e) => error == Some(e) && State() == old(State())
              case Ok(after) => error == None && State() == after
    {
      if o !in operations {
        return Some(NotFound);
      }
      if FacilitiesOf(State(), o) != {} && operations[o].kind != LFO {
        return Some(OneFacilityOnly);
      }
      home := home[next := o];
      designations := designations + [Designation(next, o)];
      next := next + 1;
      return None;
    }

    /** Leaving and entering purposes; what remains of the payload is returned. */
    method HandleChangeOfPurpose(o: OperationId, p: Payload) returns (ok: bool, trimmed: Payload)
      requires o in operations
      modifies this
      ensures ok <==> ChangePurpose(old(State()), o, p.purpose).Ok?
      ensures ok ==> State() == ChangePurpose(old(State()), o, p.purpose).value && trimmed == Trimmed(p)
    {
      var before := operations[o].purpose;
      ok, trimmed := true, p;
      if before == Some(ElectricityImport) {
        if |designations| != |WithoutOperation(designations, o)| + 1 {
          return false, trimmed;
        }
        ok := DeleteFacilitiesByOperation(o);
      }
      if before == Some(OptedIn) {
        if operations[o].detail.Some? {
          details := details - {operations[o].detail.value};
          operations := operations[o := operations[o].(detail := None)];
        }
      } else if before == Some(NewEntrant) {
        ok := ArchiveOrDeleteDocument(o, NewEntrantApplication);
      }
      if !ok {
        return;
      }
      assert State() == LeavePurpose(old(State()), o).value;
      if p.purpose == Some(ElectricityImport) {
        trimmed := trimmed.(activities := {}, products := {},
          documents := p.documents - {BoundaryMap, ProcessFlowDiagram});
        ok := ArchiveOrDeleteDocument(o, ProcessFlowDiagram);
        if ok {
          ok := ArchiveOrDeleteDocument(o, BoundaryMap);
        }
      } else if p.purpose == Some(Reporting) || p.purpose == Some(PotentialReporting) {
        trimmed := trimmed.(products := {});
      }
    }

    method StoreDocuments(o: OperationId, uploads: set<DocumentType>) returns (ok: bool)
      modifies this`documents, this`next
      ensures ok <==> UploadDocuments(old(State()), o, uploads).Ok?
      ensures ok ==> State() == UploadDocuments(old(State()), o, uploads).value
    {
      ok := true;
      if BoundaryMap in uploads {
        ok := CreateOrReplaceDocument(o, BoundaryMap);
      }
      if ok && ProcessFlowDiagram in uploads {
        ok := CreateOrReplaceDocument(o, ProcessFlowDiagram);
      }
      if ok && NewEntrantApplication in uploads {
        ok := CreateOrReplaceDocument(o, NewEntrantApplication);
      }
    }

    method MeetPurposeOf(o: OperationId) returns (ok: bool)
      requires o in operations
      modifies this
      ensures ok <==> MeetPurpose(old(State()), o).Ok?
      ensures ok ==> State() == MeetPurpose(old(State()), o).value
    {
      if operations[o].purpose == Some(OptedIn) && operations[o].detail.None? {
        details := details[next := o];
        operations := operations[o := operations[o].(detail := Some(next))];
        next := next + 1;
      }
      if operations[o].purpose == Some(ElectricityImport) && FacilitiesOf(State(), o) == {} {
        var error := AddFacility(o);
        return error == None;
      }
      return true;
    }

    method SettleOperation(o: OperationId, p: Payload) returns (ok: bool)
      requires o in operations
      modifies this
      ensures ok <==> Settle(old(State()), o, p).Ok?
      ensures ok ==> State() == Settle(old(State()), o, p).value
    {
      operations := operations[o :=
        operations[o].(kind := p.kind, purpose := p.purpose, activities := p.activities, products := p.products)];
      ok := StoreDocuments(o, p.documents);
      if ok {
        ok := MeetPurposeOf(o);
      }
    }

    method UpdateOperation(o: OperationId, payload: Payload) returns (ok: bool)
      modifies this
      ensures ok <==> Update(old(State()), o, payload).Ok?
      ensures State() == match Update(old(State()), o, payload) case Err(_) => old(State()) case Ok(after) => after
    {
      if o !in operations {
        return false;
      }
      var saved, fetched, p := State(), operations[o], payload;
      ok := true;
      if payload.purpose != fetched.purpose {
        ok, p := HandleChangeOfPurpose(o, payload);
      }
      if ok && p.kind != fetched.kind {
        if fetched.status.Registered? {
          ok := false;
        } else {
          ok := DeleteFacilitiesByOperation(o);
        }
      }
      if ok {
        ok := SettleOperation(o, p);
      }
      if !ok {
        Rollback(saved);
      }
    }

    method CreateOperation(p: Payload) returns (ok: bool, o: OperationId)
      modifies this
      ensures o == old(next)
      ensures ok <==> Create(old(State()), p).Ok?
      ensures State() == match Create(old(State()), p) case Err(_) => old(State()) case Ok(after) => after
    {
      var saved := State();
      o := next;
      operations := operations[o := NewOperation(p)];
      next := next + 1;
      assert State() == Insert(saved, p);
      ok := SettleOperation(o, p);
      if !ok {
        Rollback(saved);
      }
    }

    /** The first page of the registration form: a new operation, or an update of one. */
    method RegisterOperationInformation(existing: Option<OperationId>, p: Payload) returns (ok: bool, o: OperationId)
      modifies this
      ensures o == match existing case None => old(next) case Some(id) => id
      ensures ok <==> if existing.None? then Create(old(State()), p).Ok? else Update(old(State()), o, p).Ok?
      ensures Next(old(State()), if existing.None? then RegisterNew(p) else RegisterExisting(o, p), State())
    {
      if existing.Some? {
        o := existing.value;
        ok := UpdateOperation(o, p);
      } else {
        ok, o := CreateOperation(p);
      }
      if ok && o in operations && operations[o].status.NotStarted? {
        operations := operations[o := operations[o].(status := Draft)];
      }
    }

    method SubmitRegistration(o: OperationId, restComplete: bool) returns (error: Option<Error>)
      modifies this`operations
      ensures match Submit(old(State()), o, restComplete)
              case Err(e) => error == Some(e) && State() == old(State())
              case Ok(after) => error == None && State() == after
    {
      if o !in operations {
        return Some(NotFound);
      }
      if !Complete(State(), o, restComplete) {
        return Some(Incomplete);
      }
      operations := operations[o := operations[o].(status := Registered)];
      return None;
    }

    method GenerateBoroId(o: OperationId, year: nat) returns (result: Result<BoroId, Error>)
      modifies this`operations, this`issued
      ensures match IssueBoroId(old(State()), o, year)
              case Err(e) => result == Err(e) && State() == old(State())
              case Ok(after) => result.Ok? && State() == after && operations[o].boroId == Some(result.value)
    {
      if o !in operations {
        return Err(NotFound);
      }
      if operations[o].boroId.Some? {
        return Err(HasBoroId);
      }
      if !Regulated(operations[o].purpose) {
        return Err(NotRegulated);
      }
      if operations[o].status != Registered {
        return Err(NotRegistered);
      }
      var latest, digits, number := Latest(issued), year % 100, 1;
      if latest.Some? && latest.value.year == digits {
        number := latest.value.number + 1;
      }
      var id := BoroId(digits, number);
      if digits < 10 || number > 9999 || id in issued {
        return Err(BadBoroId);
      }
      issued := issued + [id];
      operations := operations[o := operations[o].(boroId := Some(id))];
      return Ok(id);
    }
  }
}
