/** What every run of registration steps keeps. */
module RegistrationProofs {
  import opened Prelude
  import opened Ids
  import opened RegistrationModel

  /* ---------- invariants ---------- */

  /** An operation and its opted-in detail refer to each other. */
  predicate Linked(operations: map<OperationId, Operation>, details: map<DetailId, OperationId>) {
    && (forall o | o in operations && operations[o].detail.Some? ::
          operations[o].detail.value in details && details[operations[o].detail.value] == o)
    && (forall d | d in details :: details[d] in operations && operations[details[d]].detail == Some(d))
  }

  /** At most one live document per operation and type. */
  predicate OneLive(documents: map<DocumentId, Document>) {
    forall d, e | d in documents && e in documents && !documents[d].archived && documents[d] == documents[e] :: d == e
  }

  /** BORO IDs are issued ones, numbered from 1, and no two operations share one. */
  predicate BoroIdsOk(operations: map<OperationId, Operation>, issued: seq<BoroId>) {
    && (forall b | b in issued :: b.number > 0)
    && (forall o | o in operations && operations[o].boroId.Some? :: operations[o].boroId.value in issued)
    && (forall o, q | o in operations && q in operations && o != q && operations[o].boroId.Some? ::
          operations[o].boroId != operations[q].boroId)
  }

  predicate KeysUsed(db: Db) {
    && (forall o | o in db.operations :: o < db.next)
    && (forall d | d in db.details :: d < db.next)
    && (forall d | d in db.documents :: d < db.next && db.documents[d].operation in db.operations)
    && (forall f | f in db.home :: f < db.next && db.home[f] in db.operations)
  }

  predicate Base(db: Db) {
    Linked(db.operations, db.details) && OneLive(db.documents) && BoroIdsOk(db.operations, db.issued) && KeysUsed(db)
  }

  /** A detail exists exactly for the purpose it belongs to. */
  predicate DetailMatches(operation: Operation) {
    operation.detail.Some? <==> operation.purpose == Some(OptedIn)
  }

  predicate Inv(db: Db) {
    Base(db) && forall o | o in db.operations :: DetailMatches(db.operations[o])
  }

  /** Only operations of linear facilities have more than one facility. */
  predicate Single(db: Db) {
    forall f, g | f in db.home && g in db.home && db.home[f] == db.home[g]
                  && db.home[f] in db.operations && !db.operations[db.home[f]].kind.LFO? :: f == g
  }

  /** Nothing but one operation's row changes in the operation table. */
  predicate OnlyTouches(db: Db, after: Db, o: OperationId) {
    && after.operations.Keys == db.operations.Keys
    && forall q | q in db.operations && q != o :: after.operations[q] == db.operations[q]
  }

  /* ---------- documents ---------- */

  lemma TheDocumentFound(db: Db, o: OperationId, t: DocumentType)
    requires OneLive(db.documents)
    ensures TheDocument(db, o, t).Ok?
    ensures TheDocument(db, o, t).value.Some? ==> LiveDocuments(db, o, t) == {TheDocument(db, o, t).value.value}
    ensures TheDocument(db, o, t).value.None? ==> LiveDocuments(db, o, t) == {}
  {
    if LiveDocuments(db, o, t) != {} {
      var d :| d in LiveDocuments(db, o, t);
      assert forall e | e in LiveDocuments(db, o, t) :: e == d;
      assert LiveDocuments(db, o, t) == {d};
    }
  }

  lemma ReplaceKeepsOneLive(db: Db, o: OperationId, t: DocumentType)
    requires Base(db) && o in db.operations
    ensures ReplaceDocument(db, o, t).Ok?
    ensures OneLive(ReplaceDocument(db, o, t).value.documents)
    ensures LiveDocuments(ReplaceDocument(db, o, t).value, o, t) == {db.next}
  {
    TheDocumentFound(db, o, t);
    var after := ReplaceDocument(db, o, t).value;
    assert forall d | d in db.documents && db.documents[d] == Document(o, t, false) :: d in LiveDocuments(db, o, t);
    assert LiveDocuments(after, o, t) == {db.next};
  }

  /** Replacing always succeeds, and leaves exactly the new document live. */
  lemma ReplaceKeeps(db: Db, o: OperationId, t: DocumentType)
    requires Base(db) && o in db.operations
    ensures ReplaceDocument(db, o, t).Ok?
    ensures
      var after := ReplaceDocument(db, o, t).value;
      Base(after) && after == db.(documents := after.documents, next := after.next)
        && LiveDocuments(after, o, t) == {db.next}
  {
    ReplaceKeepsOneLive(db, o, t);
    assert KeysUsed(ReplaceDocument(db, o, t).value);
  }

  lemma UploadKeeps(db: Db, o: OperationId, uploads: set<DocumentType>)
    requires Base(db) && o in db.operations
    ensures UploadDocuments(db, o, uploads).Ok?
    ensures
      var after := UploadDocuments(db, o, uploads).value;
      Base(after) && after == db.(documents := after.documents, next := after.next)
  {
    UploadOneKeeps(db, o, BoundaryMap, uploads);
    var d1 := UploadDocument(db, o, BoundaryMap, uploads).value;
    UploadOneKeeps(d1, o, ProcessFlowDiagram, uploads);
    var d2 := UploadDocument(d1, o, ProcessFlowDiagram, uploads).value;
    UploadOneKeeps(d2, o, NewEntrantApplication, uploads);
  }

  lemma UploadOneKeeps(db: Db, o: OperationId, t: DocumentType, uploads: set<DocumentType>)
    requires Base(db) && o in db.operations
    ensures UploadDocument(db, o, t, uploads).Ok?
    ensures
      var after := UploadDocument(db, o, t, uploads).value;
      Base(after) && after == db.(documents := after.documents, next := after.next)
  {
    if t in uploads {
      ReplaceKeeps(db, o, t);
    }
  }

  lemma ArchiveLeavesNone(db: Db, o: OperationId, t: DocumentType)
    requires OneLive(db.documents) && o in db.operations
    ensures ArchiveOrDelete(db, o, t).Ok?
    ensures LiveDocuments(ArchiveOrDelete(db, o, t).value, o, t) == {}
    ensures OneLive(ArchiveOrDelete(db, o, t).value.documents)
  {
    TheDocumentFound(db, o, t);
    if TheDocument(db, o, t).value.Some? {
      var d := TheDocument(db, o, t).value.value;
      assert d in LiveDocuments(db, o, t);
      assert forall e | e in db.documents && db.documents[e] == Document(o, t, false) :: e in LiveDocuments(db, o, t);
    }
  }

  /** Archiving or deleting always succeeds, and leaves no live document of the type. */
  lemma ArchiveKeeps(db: Db, o: OperationId, t: DocumentType)
    requires Base(db) && o in db.operations
    ensures ArchiveOrDelete(db, o, t).Ok?
    ensures
      var after := ArchiveOrDelete(db, o, t).value;
      Base(after) && after == db.(documents := after.documents) && LiveDocuments(after, o, t) == {}
  {
    ArchiveLeavesNone(db, o, t);
    TheDocumentFound(db, o, t);
    assert TheDocument(db, o, t).value.Some? ==> TheDocument(db, o, t).value.value in LiveDocuments(db, o, t);
    assert KeysUsed(ArchiveOrDelete(db, o, t).value);
  }

  /** Nothing but the replaced document changes: predecessors in the archive, other types and other
      operations keep theirs. */
  lemma ReplaceTouchesOne(db: Db, o: OperationId, t: DocumentType)
    requires Base(db) && o in db.operations
    ensures
      ReplaceDocument(db, o, t).Ok? &&
      var after := ReplaceDocument(db, o, t).value.documents;
      && (forall d | d in db.documents && db.documents[d] != Document(o, t, false) ::
            d in after && after[d] == db.documents[d])
      && (forall d | d in after && d != db.next :: d in db.documents && after[d] == db.documents[d])
  {
    TheDocumentFound(db, o, t);
    assert db.next !in db.documents;
  }

  /** Nor does archiving or deleting touch any other; the document itself is archived exactly when the
      operation is registered and gone otherwise. */
  lemma ArchiveTouchesOne(db: Db, o: OperationId, t: DocumentType)
    requires Base(db) && o in db.operations
    ensures
      ArchiveOrDelete(db, o, t).Ok? &&
      var after := ArchiveOrDelete(db, o, t).value.documents;
      && (forall d | d in db.documents && db.documents[d] != Document(o, t, false) ::
            d in after && after[d] == db.documents[d])
      && (forall d | d in LiveDocuments(db, o, t) ::
            if db.operations[o].status.Registered? then d in after && after[d] == Document(o, t, true) else d !in after)
      && (forall d | d in after :: d in db.documents)
  {
    TheDocumentFound(db, o, t);
    if TheDocument(db, o, t).value.Some? {
      assert TheDocument(db, o, t).value.value in LiveDocuments(db, o, t);
    }
  }

  /* ---------- details ---------- */

  lemma DeleteDetailKeeps(db: Db, o: OperationId)
    requires Base(db) && o in db.operations
    ensures
      var after := DeleteDetail(db, o);
      && Base(after) && OnlyTouches(db, after, o)
      && after == db.(details := after.details, operations := after.operations)
      && after.operations[o] == db.operations[o].(detail := None)
  {
    var after := DeleteDetail(db, o);
    BoroIdsKept(db.operations, db.issued, o, db.operations[o].(detail := None));
    if db.operations[o].detail.Some? {
      UnlinkOld(db.operations, db.details, o, db.operations[o].detail.value);
    }
    assert KeysUsed(after);
  }

  lemma UnlinkOld(operations: map<OperationId, Operation>, details: map<DetailId, OperationId>, o: OperationId,
                  d: DetailId)
    requires Linked(operations, details) && o in operations && operations[o].detail == Some(d)
    ensures Linked(operations[o := operations[o].(detail := None)], details - {d})
  {
  }

  lemma LinkNew(operations: map<OperationId, Operation>, details: map<DetailId, OperationId>, o: OperationId,
                d: DetailId)
    requires Linked(operations, details) && o in operations && operations[o].detail.None? && d !in details
    ensures Linked(operations[o := operations[o].(detail := Some(d))], details[d := o])
  {
  }

  lemma EnsureDetailKeeps(db: Db, o: OperationId)
    requires Base(db) && o in db.operations
      && (db.operations[o].detail.Some? ==> db.operations[o].purpose == Some(OptedIn))
    ensures
      var after := EnsureDetail(db, o);
      && Base(after) && OnlyTouches(db, after, o)
      && after == db.(details := after.details, operations := after.operations, next := after.next)
      && after.operations[o] == db.operations[o].(detail := after.operations[o].detail)
      && DetailMatches(after.operations[o])
  {
    if db.operations[o].purpose == Some(OptedIn) && db.operations[o].detail.None? {
      assert db.next !in db.details;
      LinkNew(db.operations, db.details, o, db.next);
      BoroIdsKept(db.operations, db.issued, o, db.operations[o].(detail := Some(db.next)));
    }
  }

  lemma BoroIdsKept(operations: map<OperationId, Operation>, issued: seq<BoroId>, o: OperationId, row: Operation)
    requires BoroIdsOk(operations, issued) && o in operations && row.boroId == operations[o].boroId
    ensures BoroIdsOk(operations[o := row], issued)
  {
  }

  lemma RowKeepsLinks(db: Db, o: OperationId, row: Operation)
    requires Base(db) && o in db.operations
    requires row.detail == db.operations[o].detail && row.boroId == db.operations[o].boroId
    ensures Base(db.(operations := db.operations[o := row]))
  {
  }

  /* ---------- facilities ---------- */

  lemma {:induction false} WithoutOperationSubset(rows: seq<Designation>, o: OperationId)
    ensures |WithoutOperation(rows, o)| <= |rows|
    ensures forall r :: r in WithoutOperation(rows, o) <==> r in rows && r.operation != o
  {
    if rows != [] {
      WithoutOperationSubset(rows[1..], o);
      assert rows == [rows[0]] + rows[1..];
    }
  }

  /** Deleting an operation's facilities is all or nothing. */
  lemma DeleteFacilitiesExact(db: Db, o: OperationId)
    ensures DeleteFacilities(db, o).Ok? <==>
      && FacilitiesOf(db, o) !! db.snapshots
      && forall r | r in db.designations && r.facility in FacilitiesOf(db, o) :: r.operation == o
    ensures DeleteFacilities(db, o).Ok? ==>
      var after := DeleteFacilities(db, o).value;
      && after == db.(home := after.home, designations := after.designations)
      && FacilitiesOf(after, o) == {}
      && (forall f | f in db.home && db.home[f] != o :: f in after.home)
      && (forall f | f in after.home :: f in db.home && after.home[f] == db.home[f])
      && (forall r | r in after.designations :: r.operation != o)
  {
    WithoutOperationSubset(db.designations, o);
    var rows := WithoutOperation(db.designations, o);
    if DeleteFacilities(db, o).Ok? {
      assert forall r | r in db.designations && r.operation != o :: r in rows;
    } else if FacilitiesOf(db, o) !! db.snapshots {
      var i :| 0 <= i < |rows| && rows[i].facility in FacilitiesOf(db, o);
      assert rows[i] in rows;
    }
  }

  lemma DeleteFacilitiesKeeps(db: Db, o: OperationId)
    requires Base(db) && DeleteFacilities(db, o).Ok?
    ensures Base(DeleteFacilities(db, o).value)
    ensures Single(db) ==> Single(DeleteFacilities(db, o).value)
  {
    DeleteFacilitiesExact(db, o);
  }

  lemma CreateFacilityKeeps(db: Db, o: OperationId)
    requires Base(db) && CreateFacility(db, o).Ok?
    ensures
      var after := CreateFacility(db, o).value;
      && Base(after) && after == db.(home := after.home, designations := after.designations, next := after.next)
      && (Single(db) ==> Single(after))
  {
    var after := CreateFacility(db, o).value;
    if Single(db) {
      forall f, g | f in after.home && g in after.home && after.home[f] == after.home[g]
                    && after.home[f] in after.operations && !after.operations[after.home[f]].kind.LFO? ensures f == g {
        assert f in db.home && db.home[f] == o ==> f in FacilitiesOf(db, o);
        assert g in db.home && db.home[g] == o ==> g in FacilitiesOf(db, o);
      }
    }
  }

  /* ---------- an update ---------- */

  lemma DropImportFacilityKeeps(db: Db, o: OperationId)
    requires Base(db) && DropImportFacility(db, o).Ok?
    ensures
      var after := DropImportFacility(db, o).value;
      && Base(after) && after == db.(home := after.home, designations := after.designations)
      && (Single(db) ==> Single(after))
  {
    DeleteFacilitiesExact(db, o);
    DeleteFacilitiesKeeps(db, o);
  }

  /** The part of leaving a purpose that does not change the operation itself. */
  lemma SameOperationLeft(db: Db, after: Db, o: OperationId)
    requires Inv(db) && o in db.operations && db.operations[o].purpose != Some(OptedIn)
    requires after.operations == db.operations
    ensures OnlyTouches(db, after, o) && after.operations[o] == db.operations[o].(detail := None)
  {
    assert DetailMatches(db.operations[o]);
  }

  lemma LeavePurposeKeeps(db: Db, o: OperationId)
    requires Inv(db) && o in db.operations && LeavePurpose(db, o).Ok?
    ensures
      var after := LeavePurpose(db, o).value;
      && Base(after) && OnlyTouches(db, after, o)
      && after.operations[o] == db.operations[o].(detail := None)
      && (Single(db) ==> Single(after))
  {
    var after := LeavePurpose(db, o).value;
    match db.operations[o].purpose
    case Some(OptedIn) =>
      DeleteDetailKeeps(db, o);
      SingleKept(db, after);
    case Some(ElectricityImport) =>
      DropImportFacilityKeeps(db, o);
      SameOperationLeft(db, after, o);
    case Some(NewEntrant) =>
      ArchiveKeeps(db, o, NewEntrantApplication);
      SingleKept(db, after);
      SameOperationLeft(db, after, o);
    case _ => SameOperationLeft(db, after, o);
  }

  lemma EnterPurposeKeeps(db: Db, o: OperationId, purpose: Option<Purpose>)
    requires Base(db) && o in db.operations
    ensures EnterPurpose(db, o, purpose).Ok?
    ensures
      var after := EnterPurpose(db, o, purpose).value;
      Base(after) && after == db.(documents := after.documents)
  {
    if purpose == Some(ElectricityImport) {
      ArchiveKeeps(db, o, ProcessFlowDiagram);
      ArchiveKeeps(ArchiveOrDelete(db, o, ProcessFlowDiagram).value, o, BoundaryMap);
    }
  }

  lemma EnsureImportFacilityKeeps(db: Db, o: OperationId)
    requires Base(db) && o in db.operations && EnsureImportFacility(db, o).Ok?
    ensures
      var after := EnsureImportFacility(db, o).value;
      && Base(after) && after.operations == db.operations
      && (Single(db) ==> Single(after))
  {
    if db.operations[o].purpose == Some(ElectricityImport) && FacilitiesOf(db, o) == {} {
      CreateFacilityKeeps(db, o);
    }
  }

  lemma SingleKept(db: Db, after: Db)
    requires after.home == db.home && after.operations.Keys == db.operations.Keys
    requires forall q | q in db.operations :: after.operations[q].kind == db.operations[q].kind
    ensures Single(db) ==> Single(after)
  {
  }

  lemma SetFieldsKeeps(db: Db, o: OperationId, p: Payload)
    requires Base(db) && o in db.operations
    ensures Base(SetFields(db, o, p))
  {
    RowKeepsLinks(db, o, SetFields(db, o, p).operations[o]);
  }

  lemma MeetPurposeKeeps(db: Db, o: OperationId)
    requires Base(db) && o in db.operations && MeetPurpose(db, o).Ok?
    requires db.operations[o].detail.Some? ==> db.operations[o].purpose == Some(OptedIn)
    ensures
      var after := MeetPurpose(db, o).value;
      && Base(after) && OnlyTouches(db, after, o)
      && after.operations[o] == db.operations[o].(detail := after.operations[o].detail)
      && DetailMatches(after.operations[o])
      && (Single(db) ==> Single(after))
  {
    EnsureDetailKeeps(db, o);
    SingleKept(db, EnsureDetail(db, o));
    EnsureImportFacilityKeeps(EnsureDetail(db, o), o);
  }

  /** What the second half of an update makes of the operation, given the rows already agree. */
  lemma SettleKeeps(db: Db, o: OperationId, p: Payload)
    requires Base(db) && o in db.operations && Settle(db, o, p).Ok?
    requires db.operations[o].detail.Some? ==> p.purpose == Some(OptedIn)
    ensures
      var after := Settle(db, o, p).value;
      && Base(after) && OnlyTouches(db, after, o)
      && after.operations[o] == SetFields(db, o, p).operations[o].(detail := after.operations[o].detail)
      && DetailMatches(after.operations[o])
      && (Single(SetFields(db, o, p)) ==> Single(after))
  {
    var d := SetFields(db, o, p);
    SetFieldsKeeps(db, o, p);
    UploadKeeps(d, o, p.documents);
    SingleKept(d, UploadDocuments(d, o, p.documents).value);
    MeetPurposeKeeps(UploadDocuments(d, o, p.documents).value, o);
  }

  /** What an update, or its rest once the purpose has been left and entered, does to the tables. */
  predicate Updated(db: Db, after: Db, o: OperationId, p: Payload) {
    && o in db.operations && o in after.operations
    && Inv(after) && OnlyTouches(db, after, o)
    && after.operations[o] == db.operations[o].(kind := p.kind, purpose := p.purpose, activities := p.activities,
                                                products := p.products, detail := after.operations[o].detail)
    && (Single(db) ==> Single(after))
  }

  /** An operation about to be settled: its row is as before but perhaps for the detail, which fits the
      purpose to come. */
  predicate Prepared(db: Db, d: Db, o: OperationId, purpose: Option<Purpose>) {
    && Base(d) && o in db.operations && OnlyTouches(db, d, o) && (Single(db) ==> Single(d))
    && d.operations[o] == db.operations[o].(detail := d.operations[o].detail)
    && (d.operations[o].detail.Some? ==> purpose == Some(OptedIn))
  }

  lemma UpdateRestKeeps(db: Db, d: Db, o: OperationId, p: Payload)
    requires Inv(db) && Prepared(db, d, o, p.purpose) && UpdateRest(d, o, db.operations[o], p).Ok?
    ensures Updated(db, UpdateRest(d, o, db.operations[o], p).value, o, p)
    ensures db.operations[o].status.Registered? ==> p.kind == db.operations[o].kind
  {
    var d2 := ChangeKind(d, o, db.operations[o], p.kind).value;
    ChangeKindKeeps(d, o, db.operations[o], p.kind);
    KindSettled(db, d2, o, db.operations[o], p);
    SettleKeeps(d2, o, p);
    OthersMatch(db, Settle(d2, o, p).value, o);
  }

  lemma ChangePurposePrepares(db: Db, o: OperationId, purpose: Option<Purpose>)
    requires Inv(db) && o in db.operations && ChangePurpose(db, o, purpose).Ok?
    ensures Prepared(db, ChangePurpose(db, o, purpose).value, o, purpose)
  {
    ChangePurposeKeeps(db, o, purpose);
  }

  lemma SamePurposePrepared(db: Db, o: OperationId, p: Payload)
    requires Inv(db) && o in db.operations && p.purpose == db.operations[o].purpose
    ensures Prepared(db, db, o, p.purpose)
  {
    assert DetailMatches(db.operations[o]);
  }

  lemma UpdateChanged(db: Db, o: OperationId, p: Payload)
    requires Update(db, o, p).Ok? && o in db.operations && p.purpose != db.operations[o].purpose
    ensures ChangePurpose(db, o, p.purpose).Ok?
    ensures Update(db, o, p) == UpdateRest(ChangePurpose(db, o, p.purpose).value, o, db.operations[o], Trimmed(p))
  {
  }

  lemma ChangedUpdateKeeps(db: Db, o: OperationId, p: Payload)
    requires Inv(db) && Update(db, o, p).Ok? && o in db.operations && p.purpose != db.operations[o].purpose
    ensures Updated(db, Update(db, o, p).value, o, Trimmed(p))
    ensures db.operations[o].status.Registered? ==> p.kind == db.operations[o].kind
  {
    UpdateChanged(db, o, p);
    ChangePurposePrepares(db, o, p.purpose);
    UpdateRestKeeps(db, ChangePurpose(db, o, p.purpose).value, o, Trimmed(p));
  }

  lemma SamePurposeUpdateKeeps(db: Db, o: OperationId, p: Payload)
    requires Inv(db) && Update(db, o, p).Ok? && o in db.operations && p.purpose == db.operations[o].purpose
    ensures Updated(db, Update(db, o, p).value, o, p)
    ensures db.operations[o].status.Registered? ==> p.kind == db.operations[o].kind
  {
    SamePurposePrepared(db, o, p);
    UpdateRestKeeps(db, db, o, p);
  }

  /** An update keeps every invariant, and never changes the type of a registered operation. */
  lemma UpdateKeeps(db: Db, o: OperationId, p: Payload)
    requires Inv(db) && Update(db, o, p).Ok?
    ensures o in db.operations
    ensures Updated(db, Update(db, o, p).value, o, if p.purpose != db.operations[o].purpose then Trimmed(p) else p)
    ensures db.operations[o].status.Registered? ==> p.kind == db.operations[o].kind
  {
    if p.purpose != db.operations[o].purpose {
      ChangedUpdateKeeps(db, o, p);
    } else {
      SamePurposeUpdateKeeps(db, o, p);
    }
  }

  /** As asked, except that a new purpose without activities or products drops those of the payload;
      status and BORO ID stay, and the detail follows the purpose. */
  predicate AsAsked(before: Operation, after: Operation, p: Payload) {
    && after.kind == p.kind && after.purpose == p.purpose
    && after.status == before.status && after.boroId == before.boroId
    && (after.detail.Some? <==> p.purpose == Some(OptedIn))
    && after.activities ==
       (if p.purpose != before.purpose && p.purpose == Some(ElectricityImport) then {} else p.activities)
    && after.products ==
       (if p.purpose != before.purpose
           && p.purpose in {Some(ElectricityImport), Some(Reporting), Some(PotentialReporting)}
        then {} else p.products)
  }

  lemma UpdatedAsAsked(before: Operation, after: Operation, p: Payload)
    requires
      var q := if p.purpose != before.purpose then Trimmed(p) else p;
      after == before.(kind := q.kind, purpose := q.purpose, activities := q.activities, products := q.products,
        detail := after.detail)
    requires DetailMatches(after)
    ensures AsAsked(before, after, p)
  {
  }

  /** An update leaves the operation as asked. */
  lemma UpdateSettlesOperation(db: Db, o: OperationId, p: Payload)
    requires Inv(db) && Update(db, o, p).Ok?
    ensures o in db.operations && o in Update(db, o, p).value.operations
    ensures AsAsked(db.operations[o], Update(db, o, p).value.operations[o], p)
  {
    UpdateKeeps(db, o, p);
    UpdatedAsAsked(db.operations[o], Update(db, o, p).value.operations[o], p);
  }

  lemma OthersMatch(db: Db, after: Db, o: OperationId)
    requires Inv(db) && Base(after) && OnlyTouches(db, after, o) && o in db.operations
      && DetailMatches(after.operations[o])
    ensures Inv(after)
  {
    assert forall q | q in db.operations :: DetailMatches(db.operations[q]);
  }

  lemma ChangePurposeKeeps(db: Db, o: OperationId, purpose: Option<Purpose>)
    requires Inv(db) && o in db.operations && ChangePurpose(db, o, purpose).Ok?
    ensures
      var after := ChangePurpose(db, o, purpose).value;
      && Base(after) && OnlyTouches(db, after, o)
      && after.operations[o] == db.operations[o].(detail := None)
      && (Single(db) ==> Single(after))
  {
    LeavePurposeKeeps(db, o);
    EnterPurposeKeeps(LeavePurpose(db, o).value, o, purpose);
  }

  lemma ChangeKindKeeps(db: Db, o: OperationId, before: Operation, kind: Kind)
    requires Base(db) && ChangeKind(db, o, before, kind).Ok?
    ensures
      var after := ChangeKind(db, o, before, kind).value;
      && Base(after) && after == db.(home := after.home, designations := after.designations)
      && (Single(db) ==> Single(after))
      && (kind != before.kind ==> FacilitiesOf(after, o) == {})
  {
    if kind != before.kind {
      DeleteFacilitiesExact(db, o);
      DeleteFacilitiesKeeps(db, o);
    }
  }

  /** Storing a new type is safe because a change of type has cleared the facilities. */
  lemma KindSettled(db: Db, d: Db, o: OperationId, before: Operation, p: Payload)
    requires o in d.operations && d.operations[o].kind == before.kind
    requires p.kind != before.kind ==> FacilitiesOf(d, o) == {}
    requires Single(db) ==> Single(d)
    ensures Single(db) ==> Single(SetFields(d, o, p))
  {
    if Single(db) {
      var after := SetFields(d, o, p);
      assert forall f | f in d.home && d.home[f] == o :: f in FacilitiesOf(d, o);
    }
  }

  /** What creating an operation does to the tables. */
  predicate Created(db: Db, after: Db, o: OperationId, p: Payload) {
    && Inv(after) && after.operations.Keys == db.operations.Keys + {o}
    && (forall q | q in db.operations :: after.operations[q] == db.operations[q])
    && after.operations[o] == NewOperation(p).(detail := after.operations[o].detail)
    && (Single(db) ==> Single(after))
  }

  lemma SettleNewKeeps(db: Db, d: Db, o: OperationId, p: Payload)
    requires Inv(db) && Base(d) && o !in db.operations && (Single(db) ==> Single(d))
    requires d.operations == db.operations[o := NewOperation(p)] && Settle(d, o, p).Ok?
    requires SetFields(d, o, p).operations == d.operations
    ensures Created(db, Settle(d, o, p).value, o, p)
  {
    assert SetFields(d, o, p) == d;
    SettleKeeps(d, o, p);
    NewOperationMatches(db, d, Settle(d, o, p).value, o);
  }

  /** Creating an operation keeps every invariant and touches no other operation. */
  lemma CreateKeeps(db: Db, p: Payload)
    requires Inv(db) && Create(db, p).Ok?
    ensures Created(db, Create(db, p).value, db.next, p)
  {
    InsertKeeps(db, p);
    SettleNewKeeps(db, Insert(db, p), db.next, p);
  }

  lemma NewOperationMatches(db: Db, d: Db, after: Db, o: OperationId)
    requires Inv(db) && Base(after) && OnlyTouches(d, after, o) && o !in db.operations && o in d.operations
    requires d.operations == db.operations[o := d.operations[o]] && DetailMatches(after.operations[o])
    ensures Inv(after) && after.operations.Keys == db.operations.Keys + {o}
    ensures forall q | q in db.operations :: after.operations[q] == db.operations[q]
  {
    assert forall q | q in db.operations :: after.operations[q] == d.operations[q] && DetailMatches(db.operations[q]);
  }

  lemma InsertKeepsLinks(operations: map<OperationId, Operation>, details: map<DetailId, OperationId>,
                         issued: seq<BoroId>, o: OperationId, row: Operation)
    requires Linked(operations, details) && BoroIdsOk(operations, issued) && o !in operations
    requires row.detail.None? && row.boroId.None?
    ensures Linked(operations[o := row], details) && BoroIdsOk(operations[o := row], issued)
  {
  }

  lemma InsertKeeps(db: Db, p: Payload)
    requires Base(db)
    ensures Base(Insert(db, p)) && db.next !in db.operations && (Single(db) ==> Single(Insert(db, p)))
    ensures SetFields(Insert(db, p), db.next, p).operations == Insert(db, p).operations
  {
    assert db.next !in db.operations;
    InsertKeepsLinks(db.operations, db.details, db.issued, db.next, NewOperation(p));
    assert KeysUsed(Insert(db, p));
  }

  /* ---------- BORO IDs ---------- */

  lemma {:induction false} LatestIsLatest(issued: seq<BoroId>)
    ensures Latest(issued).None? <==> issued == []
    ensures Latest(issued).Some? ==>
      Latest(issued).value in issued && forall b | b in issued :: !Later(b, Latest(issued).value)
  {
    if issued != [] {
      LatestIsLatest(issued[..|issued| - 1]);
      assert issued == issued[..|issued| - 1] + [issued[|issued| - 1]];
    }
  }

  /** A new id was never issued before. While no id of a later year exists, one is issued exactly until
      the year has used up its four digits, and it is the highest so far; in the first ten years of a
      century none is. */
  lemma NextBoroIdFresh(issued: seq<BoroId>, calendarYear: nat)
    ensures NextBoroId(issued, calendarYear).Ok? ==>
      var id := NextBoroId(issued, calendarYear).value;
      id !in issued && id.year == calendarYear % 100 && 10 <= id.year <= 99 && id.number <= 9999
    ensures (forall b | b in issued :: b.year <= calendarYear % 100) ==>
      && (NextBoroId(issued, calendarYear).Ok? <==>
          calendarYear % 100 >= 10 && forall b | b in issued && b.year == calendarYear % 100 :: b.number < 9999)
      && (NextBoroId(issued, calendarYear).Ok? ==>
            forall b | b in issued :: Later(NextBoroId(issued, calendarYear).value, b))
  {
    LatestIsLatest(issued);
  }

  /** Otherwise the last check decides: after an id of a later year, only number 1 is ever tried. */
  lemma NextBoroIdAfterLaterYear(issued: seq<BoroId>, calendarYear: nat, later: BoroId)
    requires later in issued && later.year > calendarYear % 100 >= 10
    ensures NextBoroId(issued, calendarYear) ==
            var first := BoroId(calendarYear % 100, 1); if first in issued then Err(BadBoroId) else Ok(first)
  {
    LatestIsLatest(issued);
  }

  lemma BoroIdIssued(operations: map<OperationId, Operation>, issued: seq<BoroId>, o: OperationId, id: BoroId)
    requires BoroIdsOk(operations, issued) && o in operations && id !in issued && id.number > 0
    ensures BoroIdsOk(operations[o := operations[o].(boroId := Some(id))], issued + [id])
  {
  }

  lemma IssuedKeeps(db: Db, o: OperationId, id: BoroId)
    requires Base(db) && o in db.operations && id !in db.issued && id.number > 0
    ensures
      var after :=
        db.(operations := db.operations[o := db.operations[o].(boroId := Some(id))], issued := db.issued + [id]);
      Base(after) && (Single(db) ==> Single(after))
  {
    var after :=
      db.(operations := db.operations[o := db.operations[o].(boroId := Some(id))], issued := db.issued + [id]);
    BoroIdIssued(db.operations, db.issued, o, id);
    assert Linked(after.operations, after.details) && KeysUsed(after);
    SingleKept(db, after);
  }

  lemma IssueKeeps(db: Db, o: OperationId, year: nat)
    requires Inv(db) && IssueBoroId(db, o, year).Ok?
    ensures
      var after := IssueBoroId(db, o, year).value;
      && Inv(after) && OnlyTouches(db, after, o) && (Single(db) ==> Single(after))
      && after.operations[o] == db.operations[o].(boroId := after.operations[o].boroId)
      && db.operations[o].boroId.None? && db.operations[o].status.Registered? && Regulated(db.operations[o].purpose)
  {
    NextBoroIdFresh(db.issued, year);
    IssuedKeeps(db, o, NextBoroId(db.issued, year).value);
    assert DetailMatches(db.operations[o]);
    OthersMatch(db, IssueBoroId(db, o, year).value, o);
  }

  lemma SetStatusKeeps(db: Db, o: OperationId, status: Status)
    requires Inv(db) && o in db.operations
    ensures Inv(SetStatus(db, o, status)) && (Single(db) ==> Single(SetStatus(db, o, status)))
  {
    RowKeepsLinks(db, o, db.operations[o].(status := status));
  }
}
