/** What creating, updating, submitting and issuing leave behind for the operation itself: its documents,
    its facilities, its status and its BORO ID. */
module RegistrationEffects {
  import opened Prelude
  import opened Ids
  import opened RegistrationModel
  import opened RegistrationProofs
  import opened RegistrationRuns
  import opened RegistrationOutcomes

  /* ---------- documents ---------- */

  /** The one live document of the type is new. */
  predicate HasNewDocument(db: Db, after: Db, o: OperationId, t: DocumentType) {
    exists d | d in after.documents :: d !in db.documents && d >= db.next && LiveDocuments(after, o, t) == {d}
  }

  lemma UploadOneExact(db: Db, o: OperationId, t: DocumentType, uploads: set<DocumentType>, u: DocumentType)
    requires Base(db) && o in db.operations && UploadDocument(db, o, t, uploads).Ok?
    ensures
      var after := UploadDocument(db, o, t, uploads).value;
      && db.next <= after.next
      && if u == t && t in uploads then HasNewDocument(db, after, o, u)
         else LiveDocuments(after, o, u) == LiveDocuments(db, o, u)
  {
    if t in uploads {
      ReplaceKeeps(db, o, t);
      ReplaceTouchesOne(db, o, t);
      var after := ReplaceDocument(db, o, t).value;
      if u == t {
        assert db.next in LiveDocuments(after, o, t) && db.next !in db.documents;
      } else {
        assert LiveDocuments(after, o, u) == LiveDocuments(db, o, u);
      }
    }
  }

  lemma NewDocumentKept(db: Db, d: Db, after: Db, o: OperationId, t: DocumentType)
    requires HasNewDocument(db, d, o, t) && LiveDocuments(after, o, t) == LiveDocuments(d, o, t)
    ensures HasNewDocument(db, after, o, t)
  {
    var k :| k in d.documents && k !in db.documents && k >= db.next && LiveDocuments(d, o, t) == {k};
    assert k in LiveDocuments(after, o, t);
  }

  lemma NewDocumentLater(db: Db, d: Db, after: Db, o: OperationId, t: DocumentType)
    requires HasNewDocument(d, after, o, t) && db.next <= d.next && forall k | k in db.documents :: k < db.next
    ensures HasNewDocument(db, after, o, t)
  {
  }

  /** Every uploaded type has exactly one live document afterwards, a new one; the others are as before. */
  lemma UploadExact(db: Db, o: OperationId, uploads: set<DocumentType>, u: DocumentType)
    requires Base(db) && o in db.operations && UploadDocuments(db, o, uploads).Ok?
    ensures
      var after := UploadDocuments(db, o, uploads).value;
      if u in uploads then HasNewDocument(db, after, o, u) else LiveDocuments(after, o, u) == LiveDocuments(db, o, u)
  {
    UploadOneKeeps(db, o, BoundaryMap, uploads);
    UploadOneExact(db, o, BoundaryMap, uploads, u);
    var d1 := UploadDocument(db, o, BoundaryMap, uploads).value;
    UploadOneKeeps(d1, o, ProcessFlowDiagram, uploads);
    UploadOneExact(d1, o, ProcessFlowDiagram, uploads, u);
    var d2 := UploadDocument(d1, o, ProcessFlowDiagram, uploads).value;
    UploadOneExact(d2, o, NewEntrantApplication, uploads, u);
    var d3 := UploadDocument(d2, o, NewEntrantApplication, uploads).value;
    if u in uploads {
      match u
      case BoundaryMap =>
        NewDocumentKept(db, d1, d3, o, u);
      case ProcessFlowDiagram =>
        NewDocumentLater(db, d1, d2, o, u);
        NewDocumentKept(db, d2, d3, o, u);
      case NewEntrantApplication =>
        NewDocumentLater(db, d2, d3, o, u);
    }
  }

  lemma SettleExact(db: Db, o: OperationId, p: Payload, u: DocumentType)
    requires Base(db) && o in db.operations && Settle(db, o, p).Ok?
    ensures
      var after := Settle(db, o, p).value;
      if u in p.documents then HasNewDocument(db, after, o, u)
      else LiveDocuments(after, o, u) == LiveDocuments(db, o, u)
  {
    var fields := SetFields(db, o, p);
    SetFieldsKeeps(db, o, p);
    UploadExact(fields, o, p.documents, u);
    assert LiveDocuments(fields, o, u) == LiveDocuments(db, o, u);
    var uploaded := UploadDocuments(fields, o, p.documents).value;
    assert Settle(db, o, p).value.documents == uploaded.documents;
    if u in p.documents {
      NewDocumentKept(fields, uploaded, Settle(db, o, p).value, o, u);
      NewDocumentLater(db, fields, Settle(db, o, p).value, o, u);
    }
  }

  /** A creation stores exactly the documents of its payload. */
  lemma CreateStoresDocuments(db: Db, p: Payload, u: DocumentType)
    requires Inv(db) && Create(db, p).Ok?
    ensures
      var after := Create(db, p).value;
      if u in p.documents then HasNewDocument(db, after, db.next, u) else LiveDocuments(after, db.next, u) == {}
  {
    var o, d := db.next, Insert(db, p);
    InsertKeeps(db, p);
    SettleExact(d, o, p, u);
    assert LiveDocuments(d, o, u) == {} by {
      assert forall k | k in d.documents :: d.documents[k].operation != o;
    }
    if u in p.documents {
      NewDocumentLater(db, d, Create(db, p).value, o, u);
    }
  }

  /** What a change of purpose takes away: the application of a new entrant, the maps and diagrams of a
      new import operation. */
  predicate TakesAway(before: Option<Purpose>, purpose: Option<Purpose>, t: DocumentType) {
    && before != purpose
    && (|| (before == Some(NewEntrant) && t == NewEntrantApplication)
        || (purpose == Some(ElectricityImport) && (t == BoundaryMap || t == ProcessFlowDiagram)))
  }

  /** And what it drops of the payload. */
  predicate Dropped(before: Option<Purpose>, purpose: Option<Purpose>, t: DocumentType) {
    before != purpose && purpose == Some(ElectricityImport) && (t == BoundaryMap || t == ProcessFlowDiagram)
  }

  lemma ArchiveKeepsOtherTypes(db: Db, o: OperationId, t: DocumentType, u: DocumentType)
    requires Base(db) && o in db.operations && u != t
    ensures ArchiveOrDelete(db, o, t).Ok?
      && LiveDocuments(ArchiveOrDelete(db, o, t).value, o, u) == LiveDocuments(db, o, u)
  {
    ArchiveTouchesOne(db, o, t);
    TheDocumentFound(db, o, t);
  }

  lemma ArchiveExact(db: Db, o: OperationId, t: DocumentType, u: DocumentType)
    requires Base(db) && o in db.operations
    ensures
      ArchiveOrDelete(db, o, t).Ok?
      && LiveDocuments(ArchiveOrDelete(db, o, t).value, o, u) == if u == t then {} else LiveDocuments(db, o, u)
  {
    if u == t {
      ArchiveKeeps(db, o, t);
    } else {
      ArchiveKeepsOtherTypes(db, o, t, u);
    }
  }

  lemma LeaveTakesAway(db: Db, o: OperationId, u: DocumentType)
    requires Inv(db) && o in db.operations && LeavePurpose(db, o).Ok?
    ensures LiveDocuments(LeavePurpose(db, o).value, o, u) ==
            if db.operations[o].purpose == Some(NewEntrant) && u == NewEntrantApplication then {}
            else LiveDocuments(db, o, u)
  {
    if db.operations[o].purpose == Some(NewEntrant) {
      ArchiveExact(db, o, NewEntrantApplication, u);
    }
  }

  lemma EnterTakesAway(db: Db, o: OperationId, purpose: Option<Purpose>, u: DocumentType)
    requires Base(db) && o in db.operations
    ensures
      EnterPurpose(db, o, purpose).Ok?
      && LiveDocuments(EnterPurpose(db, o, purpose).value, o, u) ==
         if purpose == Some(ElectricityImport) && (u == BoundaryMap || u == ProcessFlowDiagram) then {}
         else LiveDocuments(db, o, u)
  {
    if purpose == Some(ElectricityImport) {
      ArchiveExact(db, o, ProcessFlowDiagram, u);
      ArchiveKeeps(db, o, ProcessFlowDiagram);
      ArchiveExact(ArchiveOrDelete(db, o, ProcessFlowDiagram).value, o, BoundaryMap, u);
    }
  }

  lemma ChangeTakesAway(db: Db, o: OperationId, purpose: Option<Purpose>, u: DocumentType)
    requires Inv(db) && o in db.operations && ChangePurpose(db, o, purpose).Ok? && purpose != db.operations[o].purpose
    ensures LiveDocuments(ChangePurpose(db, o, purpose).value, o, u) ==
            if TakesAway(db.operations[o].purpose, purpose, u) then {} else LiveDocuments(db, o, u)
  {
    LeavePurposeKeeps(db, o);
    LeaveTakesAway(db, o, u);
    EnterTakesAway(LeavePurpose(db, o).value, o, purpose, u);
  }

  lemma RestStoresDocuments(d: Db, o: OperationId, before: Operation, p: Payload, u: DocumentType)
    requires Base(d) && o in d.operations && UpdateRest(d, o, before, p).Ok?
    ensures
      var after := UpdateRest(d, o, before, p).value;
      if u in p.documents then HasNewDocument(d, after, o, u) else LiveDocuments(after, o, u) == LiveDocuments(d, o, u)
  {
    var d2 := ChangeKind(d, o, before, p.kind).value;
    ChangeKindKeeps(d, o, before, p.kind);
    SettleExact(d2, o, p, u);
    assert LiveDocuments(d2, o, u) == LiveDocuments(d, o, u);
    if u in p.documents {
      NewDocumentLater(d, d2, UpdateRest(d, o, before, p).value, o, u);
    }
  }

  lemma LeaveKeepsNext(db: Db, o: OperationId)
    requires o in db.operations && LeavePurpose(db, o).Ok?
    ensures LeavePurpose(db, o).value.next == db.next
  {
  }

  lemma ChangeKeepsNext(db: Db, o: OperationId, purpose: Option<Purpose>)
    requires o in db.operations && ChangePurpose(db, o, purpose).Ok?
    ensures ChangePurpose(db, o, purpose).value.next == db.next
  {
    LeaveKeepsNext(db, o);
  }

  /** Exactly one live document, a new one, of every type in the payload that the new purpose does not drop;
      of every other type what there was, unless the change of purpose takes it away. */
  predicate DocumentsSettled(db: Db, after: Db, o: OperationId, before: Option<Purpose>, p: Payload, u: DocumentType) {
    if u in p.documents && !Dropped(before, p.purpose, u) then HasNewDocument(db, after, o, u)
    else LiveDocuments(after, o, u) == if TakesAway(before, p.purpose, u) then {} else LiveDocuments(db, o, u)
  }

  lemma TrimmedDocuments(p: Payload, before: Option<Purpose>, u: DocumentType)
    requires p.purpose != before
    ensures u in Trimmed(p).documents <==> u in p.documents && !Dropped(before, p.purpose, u)
  {
  }

  lemma ChangedStoresDocuments(db: Db, d: Db, o: OperationId, p: Payload, u: DocumentType)
    requires Inv(db) && Base(d) && o in db.operations && o in d.operations && d.next == db.next
    requires p.purpose != db.operations[o].purpose && UpdateRest(d, o, db.operations[o], Trimmed(p)).Ok?
    requires LiveDocuments(d, o, u) ==
             if TakesAway(db.operations[o].purpose, p.purpose, u) then {} else LiveDocuments(db, o, u)
    ensures
      var after := UpdateRest(d, o, db.operations[o], Trimmed(p)).value;
      DocumentsSettled(db, after, o, db.operations[o].purpose, p, u)
  {
    var after := UpdateRest(d, o, db.operations[o], Trimmed(p)).value;
    RestStoresDocuments(d, o, db.operations[o], Trimmed(p), u);
    TrimmedDocuments(p, db.operations[o].purpose, u);
    if u in Trimmed(p).documents {
      NewDocumentLater(db, d, after, o, u);
    }
  }

  /** So does an update leave them. */
  lemma UpdateStoresDocuments(db: Db, o: OperationId, p: Payload, u: DocumentType)
    requires Inv(db) && Update(db, o, p).Ok?
    ensures o in db.operations
    ensures DocumentsSettled(db, Update(db, o, p).value, o, db.operations[o].purpose, p, u)
  {
    if p.purpose != db.operations[o].purpose {
      ChangePurposeKeeps(db, o, p.purpose);
      ChangeKeepsNext(db, o, p.purpose);
      ChangeTakesAway(db, o, p.purpose, u);
      ChangedStoresDocuments(db, ChangePurpose(db, o, p.purpose).value, o, p, u);
    } else {
      RestStoresDocuments(db, o, db.operations[o], p, u);
    }
  }

  /* ---------- facilities ---------- */

  /** One new facility, with its designation. */
  ghost predicate HasNewFacility(db: Db, after: Db, o: OperationId) {
    exists f :: f !in db.home && f >= db.next && FacilitiesOf(after, o) == {f}
      && Designation(f, o) in after.designations
  }

  /** A facility is added exactly to an operation of linear facilities or one that has none. */
  lemma AddFacilityOutcome(db: Db, o: OperationId)
    requires KeysUsed(db)
    ensures CreateFacility(db, o).Ok? <==>
      o in db.operations && (db.operations[o].kind == LFO || FacilitiesOf(db, o) == {})
    ensures CreateFacility(db, o).Ok? ==>
      var after := CreateFacility(db, o).value;
      && after.home.Keys == db.home.Keys + {db.next} && after.home[db.next] == o
      && (forall f | f in db.home :: f != db.next && after.home[f] == db.home[f])
      && after.designations == db.designations + [Designation(db.next, o)]
      && after.operations == db.operations && after.documents == db.documents && after.details == db.details
  {
  }

  lemma ImportFacilityExact(db: Db, o: OperationId)
    requires Base(db) && o in db.operations && EnsureImportFacility(db, o).Ok?
    ensures
      var after := EnsureImportFacility(db, o).value;
      if db.operations[o].purpose == Some(ElectricityImport) && FacilitiesOf(db, o) == {} then
        HasNewFacility(db, after, o)
      else FacilitiesOf(after, o) == FacilitiesOf(db, o)
  {
    if db.operations[o].purpose == Some(ElectricityImport) && FacilitiesOf(db, o) == {} {
      var after := EnsureImportFacility(db, o).value;
      assert db.next !in db.home;
      assert FacilitiesOf(after, o) == {db.next};
      assert after.designations[|db.designations|] == Designation(db.next, o);
    }
  }

  lemma SettleFacilities(db: Db, o: OperationId, p: Payload)
    requires Base(db) && o in db.operations && Settle(db, o, p).Ok?
    requires db.operations[o].detail.Some? ==> p.purpose == Some(OptedIn)
    ensures
      var after := Settle(db, o, p).value;
      if p.purpose == Some(ElectricityImport) && FacilitiesOf(db, o) == {} then HasNewFacility(db, after, o)
      else FacilitiesOf(after, o) == FacilitiesOf(db, o)
  {
    var fields := SetFields(db, o, p);
    SetFieldsKeeps(db, o, p);
    UploadKeeps(fields, o, p.documents);
    UploadsOnly(fields, o, p.documents);
    var uploaded := UploadDocuments(fields, o, p.documents).value;
    EnsureDetailKeeps(uploaded, o);
    var detailed := EnsureDetail(uploaded, o);
    assert FacilitiesOf(detailed, o) == FacilitiesOf(db, o) && detailed.home == db.home && db.next <= detailed.next;
    ImportFacilityExact(detailed, o);
  }

  /** A creation brings a facility exactly for an import operation. */
  lemma CreateFacilities(db: Db, p: Payload)
    requires Inv(db) && Create(db, p).Ok?
    ensures
      var after := Create(db, p).value;
      if p.purpose == Some(ElectricityImport) then HasNewFacility(db, after, db.next)
      else FacilitiesOf(after, db.next) == {}
  {
    InsertKeeps(db, p);
    SettleFacilities(Insert(db, p), db.next, p);
    assert FacilitiesOf(Insert(db, p), db.next) == {} by {
      assert forall f | f in db.home :: db.home[f] != db.next;
    }
  }

  /** What there was, or one new facility if that is none and there must be one. */
  ghost predicate FacilitiesSettled(kept: set<FacilityId>, next: nat, after: Db, o: OperationId,
                                    purpose: Option<Purpose>) {
    if purpose == Some(ElectricityImport) && kept == {} then
      exists f :: f >= next && FacilitiesOf(after, o) == {f} && Designation(f, o) in after.designations
    else FacilitiesOf(after, o) == kept
  }

  lemma RestFacilities(d: Db, o: OperationId, before: Operation, p: Payload)
    requires Base(d) && o in d.operations && UpdateRest(d, o, before, p).Ok?
    requires d.operations[o].detail.Some? ==> p.purpose == Some(OptedIn)
    ensures
      var kept := if p.kind != before.kind then {} else FacilitiesOf(d, o);
      FacilitiesSettled(kept, d.next, UpdateRest(d, o, before, p).value, o, p.purpose)
  {
    var d2, after := ChangeKind(d, o, before, p.kind).value, UpdateRest(d, o, before, p).value;
    ChangeKindKeeps(d, o, before, p.kind);
    SettleFacilities(d2, o, p);
    if p.purpose == Some(ElectricityImport) && FacilitiesOf(d2, o) == {} {
      var f :| f !in d2.home && f >= d2.next && FacilitiesOf(after, o) == {f}
        && Designation(f, o) in after.designations;
      assert f >= d.next;
    }
  }

  lemma ChangeFacilities(db: Db, o: OperationId, purpose: Option<Purpose>)
    requires Inv(db) && o in db.operations && ChangePurpose(db, o, purpose).Ok?
    ensures FacilitiesOf(ChangePurpose(db, o, purpose).value, o) ==
            if db.operations[o].purpose == Some(ElectricityImport) then {} else FacilitiesOf(db, o)
  {
    LeavePurposeKeeps(db, o);
    EnterPurposeKeeps(LeavePurpose(db, o).value, o, purpose);
    if db.operations[o].purpose == Some(ElectricityImport) {
      DeleteFacilitiesExact(db, o);
    } else {
      LeavingKeepsFacilities(db, o);
    }
  }

  /** The facilities an update keeps: none of an operation that leaves the import purpose or changes its
      type, and else all. */
  function KeptFacilities(db: Db, o: OperationId, p: Payload): set<FacilityId>
    requires o in db.operations
  {
    if LeavesImport(db.operations[o], p) || p.kind != db.operations[o].kind then {} else FacilitiesOf(db, o)
  }

  lemma ChangedFacilities(db: Db, d: Db, o: OperationId, p: Payload)
    requires o in db.operations && o in d.operations && Base(d) && d.next == db.next && d.operations[o].detail.None?
    requires p.purpose != db.operations[o].purpose && UpdateRest(d, o, db.operations[o], Trimmed(p)).Ok?
    requires FacilitiesOf(d, o) ==
             if db.operations[o].purpose == Some(ElectricityImport) then {} else FacilitiesOf(db, o)
    ensures
      var after := UpdateRest(d, o, db.operations[o], Trimmed(p)).value;
      FacilitiesSettled(KeptFacilities(db, o, p), db.next, after, o, p.purpose)
  {
    RestFacilities(d, o, db.operations[o], Trimmed(p));
  }

  /** After an update an operation has the facilities it keeps, and an import operation without any a new
      one. */
  lemma UpdateSettlesFacilities(db: Db, o: OperationId, p: Payload)
    requires Inv(db) && Update(db, o, p).Ok?
    ensures o in db.operations
    ensures FacilitiesSettled(KeptFacilities(db, o, p), db.next, Update(db, o, p).value, o, p.purpose)
  {
    if p.purpose != db.operations[o].purpose {
      ChangePurposeKeeps(db, o, p.purpose);
      ChangeKeepsNext(db, o, p.purpose);
      ChangeFacilities(db, o, p.purpose);
      ChangedFacilities(db, ChangePurpose(db, o, p.purpose).value, o, p);
    } else {
      assert DetailMatches(db.operations[o]);
      RestFacilities(db, o, db.operations[o], p);
    }
  }

  /* ---------- the row of a new operation ---------- */

  /** A new operation holds what its payload says, is not started, and has a detail exactly if it opted in
      and no BORO ID. */
  lemma CreateSettlesOperation(db: Db, p: Payload)
    requires Inv(db) && Create(db, p).Ok?
    ensures
      db.next !in db.operations && db.next in Create(db, p).value.operations &&
      var row := Create(db, p).value.operations[db.next];
      && row.status == NotStarted && row.boroId == None
      && row.kind == p.kind && row.purpose == p.purpose
      && row.activities == p.activities && row.products == p.products
      && (row.detail.Some? <==> p.purpose == Some(OptedIn))
  {
    CreateKeeps(db, p);
    assert DetailMatches(Create(db, p).value.operations[db.next]);
    assert db.next !in db.operations;
  }

  /* ---------- status ---------- */

  /** The first page of the form leaves a new operation drafted, and drafts one not started. */
  lemma FormDrafts(db: Db, step: Step, after: Db)
    requires Inv(db) && Next(db, step, after)
    ensures step.RegisterNew? ==>
      db.next in after.operations && after.operations[db.next].status == Draft
    ensures step.RegisterExisting? && Update(db, step.operation, step.payload).Ok? ==>
      step.operation in db.operations && step.operation in after.operations
      && after.operations[step.operation].status ==
         if db.operations[step.operation].status == NotStarted then Draft else db.operations[step.operation].status
  {
    if step.RegisterNew? {
      CreateSucceeds(db, step.payload);
      CreateKeeps(db, step.payload);
    }
    if step.RegisterExisting? && Update(db, step.operation, step.payload).Ok? {
      UpdateKeeps(db, step.operation, step.payload);
    }
  }

  /** A submission is accepted exactly when purpose, facility, activities and documents are there (and the
      rest, which is not in these tables); it then registers the operation and changes nothing else. */
  lemma SubmitOutcome(db: Db, o: OperationId, restComplete: bool)
    requires Inv(db) && o in db.operations
    ensures
      var before, result := db.operations[o], Submit(db, o, restComplete);
      && (result.Ok? <==>
            && restComplete && before.purpose.Some?
            && (exists r | r in db.designations :: r.operation == o)
            && (before.purpose != Some(ElectricityImport) ==>
                  && before.activities != {}
                  && LiveDocuments(db, o, BoundaryMap) != {} && LiveDocuments(db, o, ProcessFlowDiagram) != {})
            && (before.purpose == Some(NewEntrant) ==> LiveDocuments(db, o, NewEntrantApplication) != {}))
      && (result.Ok? ==>
            && result.value == db.(operations := result.value.operations) && OnlyTouches(db, result.value, o)
            && result.value.operations[o] == before.(status := Registered))
  {
    assert DetailMatches(db.operations[o]);
    if r :| r in db.designations && r.operation == o {
      var i :| 0 <= i < |db.designations| && db.designations[i] == r;
      assert db.designations[i].operation == o;
    }
    if db.operations[o].purpose != Some(ElectricityImport) {
      CompleteHasBothDocuments(db, o, restComplete);
      if LiveDocuments(db, o, BoundaryMap) != {} && LiveDocuments(db, o, ProcessFlowDiagram) != {} {
        BothCount(LiveDocuments(db, o, BoundaryMap), LiveDocuments(db, o, ProcessFlowDiagram));
      }
    }
  }

  lemma BothCount(a: set<DocumentId>, b: set<DocumentId>)
    requires a != {} && b != {} && a !! b
    ensures |a + b| >= 2
  {
    var x :| x in a;
    var y :| y in b;
    assert |(a + b) - {x, y}| == |a + b| - |{x, y}| && |{x, y}| == 2;
  }

  /* ---------- BORO IDs ---------- */

  /** The number after the highest of its year, or the first. */
  predicate Following(issued: seq<BoroId>, id: BoroId) {
    && (forall b | b in issued && b.year == id.year :: b.number < id.number)
    && id.number > 0 && (id.number == 1 || BoroId(id.year, id.number - 1) in issued)
  }

  predicate Overtaken(issued: seq<BoroId>, year: nat) {
    exists b | b in issued :: b.year > year
  }

  /** A year of two digits has a number left: its first one if ids of later years exist. */
  predicate HasNumberLeft(issued: seq<BoroId>, year: nat) {
    && year >= 10
    && if Overtaken(issued, year) then BoroId(year, 1) !in issued
       else forall b | b in issued && b.year == year :: b.number < 9999
  }

  lemma NextBoroIdExact(issued: seq<BoroId>, calendarYear: nat)
    requires forall b | b in issued :: b.number > 0
    ensures NextBoroId(issued, calendarYear).Ok? <==> HasNumberLeft(issued, calendarYear % 100)
    ensures NextBoroId(issued, calendarYear).Ok? ==>
      var id := NextBoroId(issued, calendarYear).value;
      id.year == calendarYear % 100
      && if Overtaken(issued, calendarYear % 100) then id.number == 1 else Following(issued, id)
  {
    LatestIsLatest(issued);
    if b :| b in issued && b.year > calendarYear % 100 {
      assert Latest(issued).value.year > calendarYear % 100;
    } else {
      NextBoroIdFresh(issued, calendarYear);
    }
  }

  /** An id is issued exactly to a registered operation that has none, under one of the three regulated
      purposes, in a year that has a number left. */
  lemma IssueSucceedsIff(db: Db, o: OperationId, calendarYear: nat)
    requires Inv(db) && o in db.operations
    ensures
      var before := db.operations[o];
      IssueBoroId(db, o, calendarYear).Ok? <==>
        && before.status == Registered && before.boroId == None
        && before.purpose in {Some(ObpsRegulated), Some(NewEntrant), Some(OptedIn)}
        && HasNumberLeft(db.issued, calendarYear % 100)
  {
    NextBoroIdExact(db.issued, calendarYear);
  }

  /** Otherwise it is refused for the first of these reasons: it has one, it is not regulated, it is not
      registered, there is no number. */
  lemma IssueRefusals(db: Db, o: OperationId, calendarYear: nat)
    requires Inv(db) && IssueBoroId(db, o, calendarYear).Err?
    ensures
      IssueBoroId(db, o, calendarYear).error ==
      if o !in db.operations then NotFound
      else if db.operations[o].boroId.Some? then HasBoroId
      else if db.operations[o].purpose !in {Some(ObpsRegulated), Some(NewEntrant), Some(OptedIn)} then NotRegulated
      else if db.operations[o].status != Registered then NotRegistered
      else BadBoroId
  {
    NextBoroIdExact(db.issued, calendarYear);
  }

  /** It is the first of its year if ids of later years exist, else the one after the highest of its year;
      and it is recorded with the operation and as issued, and nothing else changes. */
  lemma IssueOutcome(db: Db, o: OperationId, calendarYear: nat)
    requires Inv(db) && IssueBoroId(db, o, calendarYear).Ok?
    ensures
      var year, after := calendarYear % 100, IssueBoroId(db, o, calendarYear).value;
      o in db.operations && o in after.operations && after.operations[o].boroId.Some? &&
      var id := after.operations[o].boroId.value;
      && id.year == year && (if Overtaken(db.issued, year) then id.number == 1 else Following(db.issued, id))
      && after == db.(operations := db.operations[o := db.operations[o].(boroId := Some(id))],
                      issued := db.issued + [id])
  {
    NextBoroIdExact(db.issued, calendarYear);
  }
}
