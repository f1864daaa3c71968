/** Saving a report operation: which facility-level rows the save prunes, cascades to and leaves. */
module FacilityReports {
  import opened Prelude

  type FacilityReportId = nat
  type ActivityId = nat
  type ProductId = nat

  /** A row of one facility report about one activity or product; (report, item) is unique. */
  datatype Entry = Entry(report: FacilityReportId, item: nat)

  /** An allocation of emissions, held under a facility report, to a report product. */
  datatype Allocation = Allocation(id: nat, holder: FacilityReportId, product: Entry)

  datatype FacilityReport = FacilityReport(activities: set<ActivityId>, completed: bool)

  /** The rows of one report version. */
  datatype Version = Version(
    linear: bool,
    activities: set<ActivityId>,
    products: set<ProductId>,
    facilities: map<FacilityReportId, FacilityReport>,
    reportActivities: set<Entry>,
    rawActivities: set<Entry>,
    reportProducts: set<Entry>,
    allocations: set<Allocation>)

  datatype SaveData = SaveData(linear: bool, activities: set<ActivityId>, products: set<ProductId>)

  datatype Error = NotOneFacilityReport

  /* ---------- what a save does ---------- */

  predicate OutOf(e: Entry, f: FacilityReportId, payload: set<nat>) {
    e.report == f && e.item !in payload
  }

  /** Selecting a facility's activities. Allocations and raw rows are only looked at when some report
      activity has to go. */
  function SetActivities(v: Version, known: set<ActivityId>, f: FacilityReportId, payload: set<ActivityId>): Version
    requires f in v.facilities
  {
    var set' := v.(facilities := v.facilities[f := v.facilities[f].(activities := known * payload)]);
    if forall e | e in v.reportActivities :: !OutOf(e, f, payload) then set'
    else
      set'.(reportActivities := (set e | e in v.reportActivities && !OutOf(e, f, payload)),
            rawActivities := (set e | e in v.rawActivities && !OutOf(e, f, payload)),
            allocations := (set a | a in v.allocations && a.holder != f))
  }

  /** Pruning a facility's products; the database deletes the allocations of a deleted product. */
  function PruneProducts(v: Version, f: FacilityReportId, regulated: set<ProductId>): Version {
    v.(reportProducts := (set e | e in v.reportProducts && !OutOf(e, f, regulated)),
       allocations :=
         (set a | a in v.allocations && !(a.product in v.reportProducts && OutOf(a.product, f, regulated))))
  }

  function Open(v: Version): set<FacilityReportId> {
    set f | f in v.facilities && !v.facilities[f].completed
  }

  /** The facilities of a linear operation, all at once: those still open are given the operation's
      activities on top of their own and lose the products that are no longer regulated. */
  function SaveFacilities(v: Version, known: set<ActivityId>, open: set<FacilityReportId>, data: SaveData): Version {
    v.(facilities := (map f | f in v.facilities ::
         if f in open then v.facilities[f].(activities := v.facilities[f].activities + known * data.activities)
         else v.facilities[f]),
       reportProducts := (set e | e in v.reportProducts && !(e.report in open && e.item !in data.products)),
       allocations := (set a | a in v.allocations
                               && !(a.product in v.reportProducts && a.product.report in open
                                    && a.product.item !in data.products)))
  }

  function SaveFields(v: Version, knownActivities: set<ActivityId>, knownProducts: set<ProductId>,
                      data: SaveData): Version {
    v.(linear := data.linear, activities := knownActivities * data.activities,
      products := knownProducts * data.products)
  }

  ghost function Save(v: Version, knownActivities: set<ActivityId>, knownProducts: set<ProductId>,
                      data: SaveData): Result<Version, Error> {
    var saved := SaveFields(v, knownActivities, knownProducts, data);
    if data.linear then Ok(SaveFacilities(saved, knownActivities, Open(v), data))
    else if f :| f in v.facilities && v.facilities.Keys == {f} then
      Ok(PruneProducts(SetActivities(saved, knownActivities, f, data.activities), f, data.products))
    else Err(NotOneFacilityReport)
  }

  /* ---------- the tables ---------- */

  class ReportTables {
    const knownActivities: set<ActivityId>
    const knownProducts: set<ProductId>
    var version: Version

    constructor (knownActivities: set<ActivityId>, knownProducts: set<ProductId>, version: Version)
      ensures this.version == version && this.knownActivities == knownActivities && this.knownProducts == knownProducts
    {
      this.knownActivities, this.knownProducts, this.version := knownActivities, knownProducts, version;
    }

    method SetActivitiesForFacilityReport(f: FacilityReportId, payload: set<ActivityId>)
      requires f in version.facilities
      modifies this
      ensures version == SetActivities(old(version), knownActivities, f, payload)
    {
      var report := version.facilities[f].(activities := knownActivities * payload);
      version := version.(facilities := version.facilities[f := report]);
      var toPrune := set e | e in version.reportActivities && OutOf(e, f, payload);
      if toPrune != {} {
        version := version.(reportActivities := version.reportActivities - toPrune);
        version := version.(allocations := set a | a in version.allocations && a.holder != f);
        version := version.(rawActivities := set e | e in version.rawActivities && !OutOf(e, f, payload));
      } else {
        assert forall e | e in version.reportActivities :: e !in toPrune;
      }
    }

    method AddActivitiesToFacilityReport(f: FacilityReportId, payload: set<ActivityId>)
      requires f in version.facilities
      modifies this
      ensures version == old(version).(facilities := old(version).facilities[f :=
        old(version).facilities[f].(activities := old(version).facilities[f].activities + knownActivities * payload)])
    {
      var report := version.facilities[f];
      version := version.(facilities :=
        version.facilities[f := report.(activities := report.activities + knownActivities * payload)]);
    }

    /** The ids for the explicit deletion of allocations come from a query that is only evaluated once
        the products are gone, so it names none. Deleting a product has already taken its allocations. */
    method PruneReportProducts(f: FacilityReportId, regulated: set<ProductId>)
      modifies this
      ensures version == PruneProducts(old(version), f, regulated)
    {
      var toPrune := set e | e in version.reportProducts && OutOf(e, f, regulated);
      if toPrune != {} {
        version := version.(reportProducts := version.reportProducts - toPrune,
                            allocations := set a | a in version.allocations && a.product !in toPrune);
        var lateIds := set e | e in version.reportProducts && OutOf(e, f, regulated);
        version := version.(allocations :=
          set a | a in version.allocations && !(a.holder == f && a.product in lateIds));
      } else {
        assert forall e | e in version.reportProducts :: e !in toPrune;
      }
    }

    /** The loop over the facility reports of a linear operation that are not completed. */
    method SaveOpenFacilities(data: SaveData)
      modifies this
      ensures version == SaveFacilities(old(version), knownActivities, Open(old(version)), data)
    {
      ghost var fields, done := version, {};
      var todo := Open(version);
      while todo != {}
        invariant todo + done == Open(fields) && todo !! done
        invariant version == SaveFacilities(fields, knownActivities, done, data)
      {
        var f :| f in todo;
        OneMoreFacility(fields, knownActivities, done, f, data);
        AddActivitiesToFacilityReport(f, data.activities);
        PruneReportProducts(f, data.products);
        todo, done := todo - {f}, done + {f};
      }
      assert done == Open(fields);
    }

    method SaveReportOperation(data: SaveData) returns (error: Option<Error>)
      modifies this
      ensures match Save(old(version), knownActivities, knownProducts, data)
              case Err(e) => error == Some(e) && version == old(version)
              case Ok(after) => error == None && version == after
    {
      var saved := version;
      version := SaveFields(version, knownActivities, knownProducts, data);
      if data.linear {
        SaveOpenFacilities(data);
        return None;
      }
      if |version.facilities| != 1 {
        NotOneKey(version.facilities);
        version := saved;
        return Some(NotOneFacilityReport);
      }
      var f :| f in version.facilities;
      OnlyKey(version.facilities, f);
      SetActivitiesForFacilityReport(f, data.activities);
      PruneReportProducts(f, data.products);
      return None;
    }
  }

  lemma OnlyKey<T>(m: map<nat, T>, f: nat)
    requires |m| == 1 && f in m
    ensures m.Keys == {f}
  {
    assert |m.Keys - {f}| == 0;
  }

  lemma NotOneKey<T>(m: map<nat, T>)
    requires |m| != 1
    ensures forall f | f in m :: m.Keys != {f}
  {
    forall f | f in m ensures m.Keys != {f} {
      assert |m.Keys| == |m| && |{f}| == 1;
    }
  }

  lemma OneMoreFacility(v: Version, known: set<ActivityId>, done: set<FacilityReportId>, f: FacilityReportId,
                        data: SaveData)
    requires f in v.facilities && f !in done
    ensures
      var before := SaveFacilities(v, known, done, data);
      var added := before.(facilities := before.facilities[f :=
        before.facilities[f].(activities := before.facilities[f].activities + known * data.activities)]);
      SaveFacilities(v, known, done + {f}, data) == PruneProducts(added, f, data.products)
  {
    var before := SaveFacilities(v, known, done, data);
    var after := SaveFacilities(v, known, done + {f}, data);
    var added := before.(facilities := before.facilities[f :=
      before.facilities[f].(activities := before.facilities[f].activities + known * data.activities)]);
    assert after.facilities == added.facilities;
    assert after.reportProducts == PruneProducts(added, f, data.products).reportProducts;
    assert after.allocations == PruneProducts(added, f, data.products).allocations;
  }

  /* ---------- what every save keeps ---------- */

  /** Raw rows belong to report activities, report activities to the activities selected for their
      facility, and allocations to live products. */
  predicate Consistent(v: Version) {
    && v.rawActivities <= v.reportActivities
    && (forall e | e in v.reportActivities :: e.report in v.facilities && e.item in v.facilities[e.report].activities)
    && (forall a | a in v.allocations :: a.product in v.reportProducts)
  }

  predicate ActivitiesKnown(v: Version, known: set<ActivityId>) {
    forall e | e in v.reportActivities :: e.item in known
  }

  lemma SetActivitiesKeeps(v: Version, known: set<ActivityId>, f: FacilityReportId, payload: set<ActivityId>)
    requires Consistent(v) && ActivitiesKnown(v, known) && f in v.facilities
    ensures Consistent(SetActivities(v, known, f, payload))
    ensures
      var after := SetActivities(v, known, f, payload);
      && (forall e :: e in after.reportActivities <==> e in v.reportActivities && !OutOf(e, f, payload))
      && (forall e :: e in after.rawActivities <==> e in v.rawActivities && !OutOf(e, f, payload))
  {
  }

  lemma PruneProductsKeeps(v: Version, f: FacilityReportId, regulated: set<ProductId>)
    requires Consistent(v)
    ensures Consistent(PruneProducts(v, f, regulated))
  {
  }

  /** Every save keeps the rows consistent. */
  lemma SaveKeepsConsistent(v: Version, knownActivities: set<ActivityId>, knownProducts: set<ProductId>, data: SaveData)
    requires Consistent(v) && ActivitiesKnown(v, knownActivities) && Save(v, knownActivities, knownProducts, data).Ok?
    ensures Consistent(Save(v, knownActivities, knownProducts, data).value)
    ensures ActivitiesKnown(Save(v, knownActivities, knownProducts, data).value, knownActivities)
  {
    if !data.linear {
      var f :| f in v.facilities && v.facilities.Keys == {f};
      SetActivitiesKeeps(SaveFields(v, knownActivities, knownProducts, data), knownActivities, f, data.activities);
      var fields := SaveFields(v, knownActivities, knownProducts, data);
      PruneProductsKeeps(SetActivities(fields, knownActivities, f, data.activities), f, data.products);
    }
  }

  /** The report operation itself says what the payload says, as far as it is known. */
  ghost predicate FieldsSaved(after: Version, knownActivities: set<ActivityId>, knownProducts: set<ProductId>,
                              data: SaveData) {
    && after.linear == data.linear
    && (forall x :: x in after.activities <==> x in data.activities && x in knownActivities)
    && (forall x :: x in after.products <==> x in data.products && x in knownProducts)
  }

  /** A save is refused exactly for an operation that is not linear and has not one facility report. */
  lemma SaveRefusedIff(v: Version, knownActivities: set<ActivityId>, knownProducts: set<ProductId>, data: SaveData)
    ensures Save(v, knownActivities, knownProducts, data).Err? <==> !data.linear && |v.facilities| != 1
  {
    if |v.facilities| == 1 {
      var f :| f in v.facilities;
      OnlyKey(v.facilities, f);
    } else {
      NotOneKey(v.facilities);
    }
  }

  /** Any operation but a linear one: its one facility ends up with exactly the activities of the
      payload; rows about anything else are gone and the others are untouched; allocations under the
      facility survive only if no activity went, and only on products that are still there. */
  lemma SingleFacilitySave(v: Version, knownActivities: set<ActivityId>, knownProducts: set<ProductId>,
                           data: SaveData, f: FacilityReportId)
    requires Consistent(v) && ActivitiesKnown(v, knownActivities) && !data.linear && v.facilities.Keys == {f}
    ensures
      var result := Save(v, knownActivities, knownProducts, data);
      result.Ok? &&
      var after := result.value;
      && FieldsSaved(after, knownActivities, knownProducts, data)
      && after.facilities == map[f := v.facilities[f].(activities := knownActivities * data.activities)]
      && after.reportActivities == (set e | e in v.reportActivities && e.item in data.activities)
      && after.rawActivities == (set e | e in v.rawActivities && e.item in data.activities)
      && (forall e ::
            e in after.reportProducts <==> e in v.reportProducts && (e.report == f ==> e.item in data.products))
      && (forall a :: a in after.allocations <==>
           && a in v.allocations && a.product in after.reportProducts
           && (a.holder == f ==> after.reportActivities == v.reportActivities))
  {
    assert f in v.facilities;
    var fields := SaveFields(v, knownActivities, knownProducts, data);
    SetActivitiesKeeps(fields, knownActivities, f, data.activities);
  }

  /** A linear operation: completed facilities are untouched, open ones only gain activities, no
      activity row goes, and open facilities keep exactly their regulated products. */
  lemma LinearSave(v: Version, knownActivities: set<ActivityId>, knownProducts: set<ProductId>, data: SaveData)
    requires Consistent(v) && data.linear
    ensures
      var result := Save(v, knownActivities, knownProducts, data);
      result.Ok? &&
      var after := result.value;
      && FieldsSaved(after, knownActivities, knownProducts, data)
      && after.facilities.Keys == v.facilities.Keys
      && (forall f | f in v.facilities ::
            && after.facilities[f].completed == v.facilities[f].completed
            && after.facilities[f].activities ==
               if v.facilities[f].completed then v.facilities[f].activities
               else v.facilities[f].activities + knownActivities * data.activities)
      && after.reportActivities == v.reportActivities && after.rawActivities == v.rawActivities
      && (forall e :: e in after.reportProducts <==>
            e in v.reportProducts
              && (e.report in v.facilities && !v.facilities[e.report].completed ==> e.item in data.products))
      && (forall a :: a in after.allocations <==> a in v.allocations && a.product in after.reportProducts)
  {
  }

  /** Saving the same data again changes nothing. */
  lemma SaveIdempotent(v: Version, knownActivities: set<ActivityId>, knownProducts: set<ProductId>, data: SaveData)
    requires Consistent(v) && ActivitiesKnown(v, knownActivities) && Save(v, knownActivities, knownProducts, data).Ok?
    ensures
      var after := Save(v, knownActivities, knownProducts, data).value;
      Save(after, knownActivities, knownProducts, data) == Ok(after)
  {
    var after := Save(v, knownActivities, knownProducts, data).value;
    SaveKeepsConsistent(v, knownActivities, knownProducts, data);
    if data.linear {
      LinearSave(v, knownActivities, knownProducts, data);
      var again := Save(after, knownActivities, knownProducts, data).value;
      assert again.facilities == after.facilities;
      assert again.reportProducts == after.reportProducts;
      assert again.allocations == after.allocations;
    } else {
      var f :| f in v.facilities && v.facilities.Keys == {f};
      SingleFacilitySave(v, knownActivities, knownProducts, data, f);
      assert after.facilities.Keys == {f};
      SingleFacilitySave(after, knownActivities, knownProducts, data, f);
      var again := Save(after, knownActivities, knownProducts, data).value;
      assert again.reportActivities == after.reportActivities && again.rawActivities == after.rawActivities;
      assert again.reportProducts == after.reportProducts;
      assert again.allocations == after.allocations;
    }
  }

  /** Without the premise that raw rows belong to report activities they may be left behind: they are
      pruned exactly when some report activity is. */
  lemma RawRowsPrunedIff(v: Version, known: set<ActivityId>, f: FacilityReportId, payload: set<ActivityId>)
    requires f in v.facilities
    ensures (forall e | e in SetActivities(v, known, f, payload).rawActivities :: !OutOf(e, f, payload)) <==>
            || (exists e | e in v.reportActivities :: OutOf(e, f, payload))
            || (forall e | e in v.rawActivities :: !OutOf(e, f, payload))
  {
  }
}
