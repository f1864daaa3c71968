/** What creating and updating one operation leaves alone: documents and facilities of all others. */
module RegistrationFrames {
  import opened Prelude
  import opened Ids
  import opened RegistrationModel
  import opened RegistrationProofs

  predicate OtherDocumentsKept(db: Db, after: Db, o: OperationId) {
    && (forall d | d in db.documents && db.documents[d].operation != o ::
          d in after.documents && after.documents[d] == db.documents[d])
    && (forall d | d in after.documents && after.documents[d].operation != o ::
          d in db.documents && after.documents[d] == db.documents[d])
  }

  predicate OtherFacilitiesKept(db: Db, after: Db, o: OperationId) {
    && (forall f | f in db.home && db.home[f] != o :: f in after.home && after.home[f] == db.home[f])
    && (forall f | f in after.home && after.home[f] != o :: f in db.home && after.home[f] == db.home[f])
  }

  predicate OthersKept(db: Db, after: Db, o: OperationId) {
    OtherDocumentsKept(db, after, o) && OtherFacilitiesKept(db, after, o)
  }

  lemma KeptInTurn(a: Db, b: Db, c: Db, o: OperationId)
    requires OthersKept(a, b, o) && OthersKept(b, c, o)
    ensures OthersKept(a, c, o)
  {
  }

  lemma UploadOneFrames(db: Db, o: OperationId, t: DocumentType, uploads: set<DocumentType>)
    requires Base(db) && o in db.operations && UploadDocument(db, o, t, uploads).Ok?
    ensures OthersKept(db, UploadDocument(db, o, t, uploads).value, o)
  {
    if t in uploads {
      ReplaceTouchesOne(db, o, t);
    }
  }

  lemma UploadFrames(db: Db, o: OperationId, uploads: set<DocumentType>)
    requires Base(db) && o in db.operations && UploadDocuments(db, o, uploads).Ok?
    ensures OthersKept(db, UploadDocuments(db, o, uploads).value, o)
  {
    UploadOneKeeps(db, o, BoundaryMap, uploads);
    UploadOneFrames(db, o, BoundaryMap, uploads);
    var d1 := UploadDocument(db, o, BoundaryMap, uploads).value;
    UploadOneKeeps(d1, o, ProcessFlowDiagram, uploads);
    UploadOneFrames(d1, o, ProcessFlowDiagram, uploads);
    var d2 := UploadDocument(d1, o, ProcessFlowDiagram, uploads).value;
    UploadOneFrames(d2, o, NewEntrantApplication, uploads);
    KeptInTurn(db, d1, d2, o);
    KeptInTurn(db, d2, UploadDocuments(db, o, uploads).value, o);
  }

  lemma ArchiveFrames(db: Db, o: OperationId, t: DocumentType)
    requires Base(db) && o in db.operations && ArchiveOrDelete(db, o, t).Ok?
    ensures OthersKept(db, ArchiveOrDelete(db, o, t).value, o)
  {
    TheDocumentFound(db, o, t);
    if TheDocument(db, o, t).value.Some? {
      assert TheDocument(db, o, t).value.value in LiveDocuments(db, o, t);
    }
  }

  lemma ChangePurposeFrames(db: Db, o: OperationId, purpose: Option<Purpose>)
    requires Inv(db) && o in db.operations && ChangePurpose(db, o, purpose).Ok?
    ensures OthersKept(db, ChangePurpose(db, o, purpose).value, o)
  {
    LeavePurposeKeeps(db, o);
    var left := LeavePurpose(db, o).value;
    LeavePurposeFrames(db, o);
    if purpose == Some(ElectricityImport) {
      ArchiveKeeps(left, o, ProcessFlowDiagram);
      ArchiveFrames(left, o, ProcessFlowDiagram);
      var d := ArchiveOrDelete(left, o, ProcessFlowDiagram).value;
      ArchiveFrames(d, o, BoundaryMap);
      KeptInTurn(db, left, d, o);
      KeptInTurn(db, d, ChangePurpose(db, o, purpose).value, o);
    }
  }

  lemma LeavePurposeFrames(db: Db, o: OperationId)
    requires Inv(db) && o in db.operations && LeavePurpose(db, o).Ok?
    ensures OthersKept(db, LeavePurpose(db, o).value, o)
  {
    match db.operations[o].purpose
    case Some(ElectricityImport) => DeleteFacilitiesExact(db, o);
    case Some(NewEntrant) => ArchiveFrames(db, o, NewEntrantApplication);
    case _ =>
  }

  lemma MeetPurposeFrames(db: Db, o: OperationId)
    requires Base(db) && o in db.operations && MeetPurpose(db, o).Ok?
    ensures OthersKept(db, MeetPurpose(db, o).value, o)
  {
    assert forall f | f in db.home :: f < db.next;
  }

  lemma SettleFrames(db: Db, o: OperationId, p: Payload)
    requires Base(db) && o in db.operations && Settle(db, o, p).Ok?
    ensures OthersKept(db, Settle(db, o, p).value, o)
  {
    var d := SetFields(db, o, p);
    SetFieldsKeeps(db, o, p);
    UploadKeeps(d, o, p.documents);
    UploadFrames(d, o, p.documents);
    var uploaded := UploadDocuments(d, o, p.documents).value;
    MeetPurposeFrames(uploaded, o);
    KeptInTurn(db, uploaded, Settle(db, o, p).value, o);
  }

  lemma UpdateRestFrames(db: Db, d: Db, o: OperationId, before: Operation, p: Payload)
    requires OthersKept(db, d, o) && Base(d) && o in d.operations && UpdateRest(d, o, before, p).Ok?
    ensures OthersKept(db, UpdateRest(d, o, before, p).value, o)
  {
    ChangeKindKeeps(d, o, before, p.kind);
    DeleteFacilitiesExact(d, o);
    var d2 := ChangeKind(d, o, before, p.kind).value;
    SettleFrames(d2, o, p);
    KeptInTurn(db, d, d2, o);
    KeptInTurn(db, d2, UpdateRest(d, o, before, p).value, o);
  }

  /** An update touches no document and no facility of any other operation. */
  lemma UpdateLeavesOthers(db: Db, o: OperationId, p: Payload)
    requires Inv(db) && Update(db, o, p).Ok?
    ensures OthersKept(db, Update(db, o, p).value, o)
  {
    if p.purpose != db.operations[o].purpose {
      ChangePurposeKeeps(db, o, p.purpose);
      ChangePurposeFrames(db, o, p.purpose);
      UpdateRestFrames(db, ChangePurpose(db, o, p.purpose).value, o, db.operations[o], Trimmed(p));
    } else {
      UpdateRestFrames(db, db, o, db.operations[o], p);
    }
  }

  /** Nor does creating one. */
  lemma CreateLeavesOthers(db: Db, p: Payload)
    requires Inv(db) && Create(db, p).Ok?
    ensures OthersKept(db, Create(db, p).value, db.next)
  {
    InsertKeeps(db, p);
    SettleFrames(Insert(db, p), db.next, p);
    KeptInTurn(db, Insert(db, p), Create(db, p).value, db.next);
  }
}
