/** When a request about an operation goes through, and when it is refused. */
module RegistrationOutcomes {
  import opened Prelude
  import opened Ids
  import opened RegistrationModel
  import opened RegistrationProofs
  import opened RegistrationRuns

  /* ---------- conditions a caller could check ---------- */

  predicate LeavesImport(before: Operation, p: Payload) {
    before.purpose == Some(ElectricityImport) && p.purpose != Some(ElectricityImport)
  }

  /** The operation's facilities were never designated to another operation, nor part of a transfer. */
  predicate Removable(db: Db, o: OperationId) {
    && FacilitiesOf(db, o) !! db.snapshots
    && forall r | r in db.designations && r.facility in FacilitiesOf(db, o) :: r.operation == o
  }

  predicate OnlyRow(rows: seq<Designation>, o: OperationId, i: nat)
    requires i < |rows|
  {
    rows[i].operation == o && forall j | 0 <= j < |rows| && j != i :: rows[j].operation != o
  }

  predicate OneDesignation(rows: seq<Designation>, o: OperationId) {
    exists i | 0 <= i < |rows| :: OnlyRow(rows, o, i)
  }

  lemma {:induction false} NoDesignationIff(rows: seq<Designation>, o: OperationId)
    ensures |WithoutOperation(rows, o)| <= |rows|
    ensures |WithoutOperation(rows, o)| == |rows| <==> forall i | 0 <= i < |rows| :: rows[i].operation != o
  {
    if rows != [] {
      NoDesignationIff(rows[1..], o);
      assert forall i | 1 <= i < |rows| :: rows[i] == rows[1..][i - 1];
      assert forall i | 0 <= i < |rows| - 1 :: rows[1..][i] == rows[i + 1];
    }
  }

  lemma OneDesignationHead(rows: seq<Designation>, o: OperationId)
    requires rows != [] && rows[0].operation == o
    ensures OneDesignation(rows, o) <==> forall i | 0 < i < |rows| :: rows[i].operation != o
  {
    assert OneDesignation(rows, o) <==> OnlyRow(rows, o, 0);
  }

  lemma OnlyRowOfTail(rows: seq<Designation>, o: OperationId, i: nat)
    requires rows != [] && rows[0].operation != o && i + 1 < |rows|
    ensures OnlyRow(rows, o, i + 1) <==> OnlyRow(rows[1..], o, i)
  {
    var rest := rows[1..];
    if OnlyRow(rest, o, i) {
      forall j | 0 <= j < |rows| && j != i + 1 ensures rows[j].operation != o {
        assert j > 0 ==> rows[j] == rest[j - 1];
      }
    }
    if OnlyRow(rows, o, i + 1) {
      forall j | 0 <= j < |rest| && j != i ensures rest[j].operation != o {
        assert rest[j] == rows[j + 1];
      }
    }
  }

  lemma OneDesignationTail(rows: seq<Designation>, o: OperationId)
    requires rows != [] && rows[0].operation != o
    ensures OneDesignation(rows, o) <==> OneDesignation(rows[1..], o)
  {
    if i :| 0 <= i < |rows| && OnlyRow(rows, o, i) {
      OnlyRowOfTail(rows, o, i - 1);
    }
    if i :| 0 <= i < |rows[1..]| && OnlyRow(rows[1..], o, i) {
      OnlyRowOfTail(rows, o, i);
    }
  }

  lemma {:induction false} OneDesignationIff(rows: seq<Designation>, o: OperationId)
    ensures |rows| == |WithoutOperation(rows, o)| + 1 <==> OneDesignation(rows, o)
  {
    if rows != [] {
      if rows[0].operation == o {
        OneDesignationHead(rows, o);
        NoDesignationIff(rows[1..], o);
        assert forall i | 0 < i < |rows| :: rows[i] == rows[1..][i - 1];
        assert forall i | 0 <= i < |rows| - 1 :: rows[1..][i] == rows[i + 1];
      } else {
        OneDesignationTail(rows, o);
        OneDesignationIff(rows[1..], o);
      }
    }
  }

  lemma DeletableIff(db: Db, o: OperationId)
    ensures DeleteFacilities(db, o).Ok? <==> Removable(db, o)
  {
    DeleteFacilitiesExact(db, o);
  }

  /* ---------- updates ---------- */

  /** Leaving and entering a purpose only ever fails at the facility of an import operation. */
  lemma ChangePurposeSucceedsIff(db: Db, o: OperationId, purpose: Option<Purpose>)
    requires Inv(db) && o in db.operations
    ensures ChangePurpose(db, o, purpose).Ok? <==>
            (db.operations[o].purpose == Some(ElectricityImport) ==>
              OneDesignation(db.designations, o) && Removable(db, o))
  {
    OneDesignationIff(db.designations, o);
    DeletableIff(db, o);
    if db.operations[o].purpose == Some(NewEntrant) {
      ArchiveKeeps(db, o, NewEntrantApplication);
    }
    if LeavePurpose(db, o).Ok? {
      LeavePurposeKeeps(db, o);
      EnterPurposeKeeps(LeavePurpose(db, o).value, o, purpose);
    }
  }

  /** After it, facilities can be removed exactly if they could before, and always if there are none left. */
  lemma RemovableAfterChange(db: Db, o: OperationId, purpose: Option<Purpose>)
    requires Inv(db) && o in db.operations && ChangePurpose(db, o, purpose).Ok?
    ensures Removable(ChangePurpose(db, o, purpose).value, o) <==>
            db.operations[o].purpose == Some(ElectricityImport) || Removable(db, o)
  {
    var left := LeavePurpose(db, o).value;
    LeavePurposeKeeps(db, o);
    EnterPurposeKeeps(left, o, purpose);
    if db.operations[o].purpose == Some(ElectricityImport) {
      DeleteFacilitiesExact(db, o);
    } else {
      LeavingKeepsFacilities(db, o);
    }
  }

  lemma LeavingKeepsFacilities(db: Db, o: OperationId)
    requires o in db.operations && db.operations[o].purpose != Some(ElectricityImport) && LeavePurpose(db, o).Ok?
    ensures
      var left := LeavePurpose(db, o).value;
      left.home == db.home && left.snapshots == db.snapshots && left.designations == db.designations
  {
  }

  /** The second half of an update or creation never fails. */
  lemma SettleSucceeds(db: Db, o: OperationId, p: Payload)
    requires Base(db) && o in db.operations
    ensures Settle(db, o, p).Ok?
  {
    SetFieldsKeeps(db, o, p);
    UploadKeeps(SetFields(db, o, p), o, p.documents);
  }

  lemma UpdateRestSucceedsIff(db: Db, o: OperationId, before: Operation, p: Payload)
    requires Base(db) && o in db.operations
    ensures UpdateRest(db, o, before, p).Ok? <==>
            (p.kind != before.kind ==> !before.status.Registered? && Removable(db, o))
  {
    DeletableIff(db, o);
    if ChangeKind(db, o, before, p.kind).Ok? {
      ChangeKindKeeps(db, o, before, p.kind);
      SettleSucceeds(ChangeKind(db, o, before, p.kind).value, o, p);
    }
  }

  /** An update goes through exactly when an import operation that leaves its purpose has one designation
      row, an operation that changes its type is not registered, and either has removable facilities. */
  lemma UpdateSucceedsIff(db: Db, o: OperationId, p: Payload)
    requires Inv(db) && o in db.operations
    ensures
      var before := db.operations[o];
      Update(db, o, p).Ok? <==>
        && (LeavesImport(before, p) ==> OneDesignation(db.designations, o))
        && (p.kind != before.kind ==> !before.status.Registered?)
        && (LeavesImport(before, p) || p.kind != before.kind ==> Removable(db, o))
  {
    if p.purpose == db.operations[o].purpose {
      UpdateRestSucceedsIff(db, o, db.operations[o], p);
    } else {
      ChangePurposeSucceedsIff(db, o, p.purpose);
      if ChangePurpose(db, o, p.purpose).Ok? {
        ChangePurposeKeeps(db, o, p.purpose);
        RemovableAfterChange(db, o, p.purpose);
        UpdateRestSucceedsIff(ChangePurpose(db, o, p.purpose).value, o, db.operations[o], Trimmed(p));
      }
    }
  }

  /** A creation always goes through. */
  lemma CreateSucceeds(db: Db, p: Payload)
    requires Inv(db)
    ensures Create(db, p).Ok?
  {
    InsertKeeps(db, p);
    SettleSucceeds(Insert(db, p), db.next, p);
  }

  /* ---------- what a transfer takes away ---------- */

  /** A facility that was once part of a transfer keeps its operation where it is: an import operation
      does not leave that purpose any more, and no type changes. */
  lemma SnapshotForbidsChange(db: Db, o: OperationId, p: Payload)
    requires Inv(db) && o in db.operations && !(FacilitiesOf(db, o) !! db.snapshots)
    requires LeavesImport(db.operations[o], p) || p.kind != db.operations[o].kind
    ensures Update(db, o, p).Err?
  {
    UpdateSucceedsIff(db, o, p);
  }

  const EMPTY: Db := Db(map[], map[], map[], map[], [], {}, [], 0)

  const IMPORT: Payload := Payload(EIO, Some(ElectricityImport), {}, {}, {})

  /** The tables after a first import operation has been entered, and after it has been transferred. */
  const ENTERED: Db :=
    Db(map[0 := Operation(Draft, EIO, Some(ElectricityImport), {}, {}, None, None)],
       map[], map[], map[1 := 0], [Designation(1, 0)], {}, [], 2)

  const TRANSFERRED: Db := ENTERED.(snapshots := {1})

  lemma FirstImport()
    ensures Create(EMPTY, IMPORT).Ok? && Drafted(Create(EMPTY, IMPORT).value, 0) == ENTERED
  {
    var fields := SetFields(Insert(EMPTY, IMPORT), 0, IMPORT);
    assert fields.operations == map[0 := NewOperation(IMPORT)];
    assert UploadDocuments(fields, 0, {}) == Ok(fields);
    assert FacilitiesOf(fields, 0) == {};
    var met := MeetPurpose(fields, 0).value;
    assert met.home == map[1 := 0] && met.designations == [Designation(1, 0)];
  }

  lemma EnteredInv()
    ensures Inv(ENTERED) && FacilitiesOf(ENTERED, 0) == {1} && Inv(TRANSFERRED) && FacilitiesOf(TRANSFERRED, 0) == {1}
  {
  }

  lemma ImportCanLeave(db: Db, o: OperationId, p: Payload)
    requires Inv(db) && o in db.operations && p.kind == db.operations[o].kind
    requires OneDesignation(db.designations, o) && Removable(db, o)
    ensures Update(db, o, p).Ok?
  {
    UpdateSucceedsIff(db, o, p);
  }

  lemma EnteredCanLeave()
    ensures Update(ENTERED, 0, IMPORT.(purpose := Some(Reporting))).Ok?
  {
    EnteredInv();
    assert OnlyRow(ENTERED.designations, 0, 0);
    ImportCanLeave(ENTERED, 0, IMPORT.(purpose := Some(Reporting)));
  }

  lemma TransferredCannotLeave()
    ensures Update(TRANSFERRED, 0, IMPORT.(purpose := Some(Reporting))).Err?
  {
    EnteredInv();
    SnapshotForbidsChange(TRANSFERRED, 0, IMPORT.(purpose := Some(Reporting)));
  }

  /** A new import operation that was transferred once: before the transfer it could have become a
      reporting operation, afterwards it cannot. */
  lemma TransferredImportStays()
    ensures Run([EMPTY, ENTERED, TRANSFERRED], [RegisterNew(IMPORT), TransferOperation(0)])
    ensures Update(ENTERED, 0, IMPORT.(purpose := Some(Reporting))).Ok?
    ensures Update(TRANSFERRED, 0, IMPORT.(purpose := Some(Reporting))).Err?
  {
    FirstImport();
    EnteredInv();
    EnteredCanLeave();
    TransferredCannotLeave();
    var states, steps := [EMPTY, ENTERED, TRANSFERRED], [RegisterNew(IMPORT), TransferOperation(0)];
    assert Next(states[0], steps[0], states[1]);
    assert Next(states[1], steps[1], states[2]);
  }
}
