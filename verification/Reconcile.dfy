/** The "make the live rows equal the payload" updates: partner, parent and multiple operators, and
    the well authorization numbers of a facility. Rows are never removed, only archived. */
module Reconcile {
  import opened Prelude

  type RowId = nat
  type OwnerId = nat

  /** The one thing all of them do, on the keys of one owner's rows: exactly the wanted rows are live
      afterwards, and the rows archived on the way are exactly the live ones no longer wanted. */
  predicate Reconciled(live: set<nat>, archived: set<nat>, wanted: set<nat>, live': set<nat>, archived': set<nat>) {
    live' == wanted && archived' == archived + (live - wanted)
  }

  function Elements(keys: seq<nat>): set<nat> {
    set k | k in keys
  }

  /* ---------- partner, parent and multiple operators ---------- */

  datatype Row<D> = Row(owner: OwnerId, data: D, archived: bool)

  datatype Table<D> = Table(rows: map<RowId, Row<D>>, next: RowId)

  /** One entry of the payload: an update of the row it names, or a new row. */
  datatype Item<D> = Item(id: Option<RowId>, data: D)

  datatype Error = ArchivedRow

  predicate Valid<D>(t: Table<D>) {
    forall k | k in t.rows :: k < t.next
  }

  function Live<D>(t: Table<D>, owner: OwnerId): set<RowId> {
    set k | k in t.rows && t.rows[k].owner == owner && !t.rows[k].archived
  }

  function Archived<D>(t: Table<D>, owner: OwnerId): set<RowId> {
    set k | k in t.rows && t.rows[k].owner == owner && t.rows[k].archived
  }

  function KeyOf<D>(t: Table<D>, item: Item<D>): RowId {
    match item.id
    case None => t.next
    case Some(k) => k
  }

  /** Update-or-create looks among live rows only, so a named archived row is created again, which its
      primary key refuses. A live row is taken over from whoever owned it. */
  function Put<D>(t: Table<D>, owner: OwnerId, item: Item<D>): Result<Table<D>, Error> {
    var k := KeyOf(t, item);
    if k in t.rows && t.rows[k].archived then Err(ArchivedRow)
    else Ok(Table(t.rows[k := Row(owner, item.data, false)], if k < t.next then t.next else k + 1))
  }

  /** All entries in turn, with the keys of the rows they denote. */
  function PutAll<D>(t: Table<D>, owner: OwnerId, items: seq<Item<D>>): Result<(Table<D>, seq<RowId>), Error> {
    if items == [] then Ok((t, []))
    else
      var last := |items| - 1;
      match PutAll(t, owner, items[..last])
      case Err(error) => Err(error)
      case Ok((before, keys)) =>
        match Put(before, owner, items[last])
        case Err(error) => Err(error)
        case Ok(after) => Ok((after, keys + [KeyOf(before, items[last])]))
  }

  function ArchiveOthers<D>(t: Table<D>, owner: OwnerId, keep: set<RowId>): Table<D> {
    t.(rows := map k | k in t.rows ::
         if k in Live(t, owner) && k !in keep then t.rows[k].(archived := true) else t.rows[k])
  }

  function Upsert<D>(t: Table<D>, owner: OwnerId, items: seq<Item<D>>): Result<(Table<D>, seq<RowId>), Error> {
    match PutAll(t, owner, items)
    case Err(error) => Err(error)
    case Ok((after, keys)) => Ok((ArchiveOthers(after, owner, Elements(keys)), keys))
  }

  class ChildTable<D> {
    var table: Table<D>

    constructor ()
      ensures table == Table(map[], 0) && Valid(table)
    {
      table := Table(map[], 0);
    }

    method CreateOrUpdate(owner: OwnerId, item: Item<D>) returns (key: Option<RowId>)
      modifies this
      ensures match Put(old(table), owner, item)
              case Err(_) => key == None && table == old(table)
              case Ok(after) => key == Some(KeyOf(old(table), item)) && table == after
    {
      var k := KeyOf(table, item);
      if k in table.rows && table.rows[k].archived {
        return None;
      }
      table := Table(table.rows[k := Row(owner, item.data, false)], if k < table.next then table.next else k + 1);
      return Some(k);
    }

    /** The old rows are only listed once the new ones exist. */
    method UpsertChildren(owner: OwnerId, items: seq<Item<D>>) returns (result: Result<seq<RowId>, Error>)
      modifies this
      ensures match Upsert(old(table), owner, items)
              case Err(error) => result == Err(error) && table == old(table)
              case Ok((after, keys)) => result == Ok(keys) && table == after
    {
      var saved := table;
      var keys: seq<RowId> := [];
      for i := 0 to |items|
        invariant PutAll(saved, owner, items[..i]) == Ok((table, keys))
      {
        assert items[..i + 1][..i] == items[..i];
        var key := CreateOrUpdate(owner, items[i]);
        if key.None? {
          PutAllStops(saved, owner, items, i);
          table := saved;
          return Err(ArchivedRow);
        }
        keys := keys + [key.value];
      }
      assert items[..|items|] == items;
      ghost var put := table;
      ghost var kept := Elements(keys);
      var todo := set k | k in Live(table, owner) && k !in keys;
      ghost var all := todo;
      while todo != {}
        invariant todo <= all
        invariant table == put.(rows := map k | k in put.rows ::
          if k in all - todo then put.rows[k].(archived := true) else put.rows[k])
      {
        var k :| k in todo;
        table := table.(rows := table.rows[k := table.rows[k].(archived := true)]);
        todo := todo - {k};
      }
      assert table.rows == ArchiveOthers(put, owner, kept).rows;
      return Ok(keys);
    }
  }

  lemma {:induction false} PutAllStops<D>(t: Table<D>, owner: OwnerId, items: seq<Item<D>>, i: nat)
    requires i < |items| && PutAll(t, owner, items[..i + 1]) == Err(ArchivedRow)
    ensures PutAll(t, owner, items) == Err(ArchivedRow)
    decreases |items|
  {
    if i + 1 < |items| {
      assert items[..|items| - 1][..i + 1] == items[..i + 1];
      PutAllStops(t, owner, items[..|items| - 1], i);
    } else {
      assert items[..i + 1] == items;
    }
  }

  /** The data a key ends up with: the last entry that denotes it wins. */
  function LastData<D>(items: seq<Item<D>>, keys: seq<RowId>, k: RowId): Option<D>
    requires |items| == |keys|
  {
    if items == [] then None
    else
      var last := |items| - 1;
      if keys[last] == k then Some(items[last].data) else LastData(items[..last], keys[..last], k)
  }

  predicate NamesArchived<D>(t: Table<D>, items: seq<Item<D>>) {
    exists i | 0 <= i < |items| ::
      items[i].id.Some? && items[i].id.value in t.rows && t.rows[items[i].id.value].archived
  }

  /** The keys a payload denotes: the ones it names, and new ones. */
  predicate Denotes<D>(t: Table<D>, items: seq<Item<D>>, keys: seq<RowId>) {
    && |keys| == |items|
    && forall i | 0 <= i < |items| :: if items[i].id.Some? then keys[i] == items[i].id.value else keys[i] >= t.next
  }

  /** The entries changed the rows they denote, and nothing else. */
  ghost predicate Changed<D>(t: Table<D>, owner: OwnerId, items: seq<Item<D>>, after: Table<D>, keys: seq<RowId>)
    requires |items| == |keys|
  {
    && (forall k | k in t.rows :: k in after.rows)
    && forall k | k in after.rows ::
         match LastData(items, keys, k)
         case None => k !in keys && k in t.rows && after.rows[k] == t.rows[k]
         case Some(data) =>
           k in keys && after.rows[k] == Row(owner, data, false) && (k in t.rows ==> !t.rows[k].archived)
  }

  lemma {:induction false} PutAllEffect<D>(t: Table<D>, owner: OwnerId, items: seq<Item<D>>)
    requires Valid(t)
    ensures PutAll(t, owner, items).Err? <==> NamesArchived(t, items)
    ensures PutAll(t, owner, items).Ok? ==>
      var (after, keys) := PutAll(t, owner, items).value;
      Valid(after) && t.next <= after.next && Denotes(t, items, keys) && Changed(t, owner, items, after, keys)
      && Elements(keys) <= after.rows.Keys
    decreases |items|
  {
    if items != [] {
      var rest, item := items[..|items| - 1], items[|items| - 1];
      PutAllEffect(t, owner, rest);
      NamesArchivedSplits(t, items);
      if PutAll(t, owner, rest).Ok? {
        var (before, keys) := PutAll(t, owner, rest).value;
        var k := KeyOf(before, item);
        assert k in t.rows && t.rows[k].archived ==> before.rows[k] == t.rows[k];
        if Put(before, owner, item).Ok? {
          PutOneMore(t, owner, items, before, keys);
        }
      }
    }
  }

  lemma NamesArchivedSplits<D>(t: Table<D>, items: seq<Item<D>>)
    requires items != []
    ensures
      var item := items[|items| - 1];
      NamesArchived(t, items) <==>
        NamesArchived(t, items[..|items| - 1])
        || (item.id.Some? && item.id.value in t.rows && t.rows[item.id.value].archived)
  {
    assert forall i | 0 <= i < |items| - 1 :: items[..|items| - 1][i] == items[i];
  }

  lemma PutOneMore<D>(t: Table<D>, owner: OwnerId, items: seq<Item<D>>, before: Table<D>, keys: seq<RowId>)
    requires Valid(t) && Valid(before) && items != [] && t.next <= before.next
    requires Denotes(t, items[..|items| - 1], keys) && Changed(t, owner, items[..|items| - 1], before, keys)
    requires Put(before, owner, items[|items| - 1]).Ok?
    ensures
      var after, keys' := Put(before, owner, items[|items| - 1]).value, keys + [KeyOf(before, items[|items| - 1])];
      Denotes(t, items, keys') && Changed(t, owner, items, after, keys')
  {
    var last, k := |items| - 1, KeyOf(before, items[|items| - 1]);
    var after, keys' := Put(before, owner, items[last]).value, keys + [k];
    assert keys'[..last] == keys;
    forall j | j in after.rows && j != k
      ensures LastData(items, keys', j) == LastData(items[..last], keys, j) && (j in keys' <==> j in keys)
    {}
    assert k in t.rows ==> k in before.rows;
  }

  lemma KeysBelowNext<D>(t: Table<D>, owner: OwnerId, items: seq<Item<D>>)
    requires Valid(t) && PutAll(t, owner, items).Ok?
    ensures t.next <= PutAll(t, owner, items).value.0.next && |PutAll(t, owner, items).value.1| == |items|
    ensures forall k | k in PutAll(t, owner, items).value.1 :: k < PutAll(t, owner, items).value.0.next
  {
    PutAllEffect(t, owner, items);
    var (after, keys) := PutAll(t, owner, items).value;
    assert forall k | k in keys :: k in Elements(keys);
  }

  lemma KeysSplit<D>(t: Table<D>, owner: OwnerId, items: seq<Item<D>>)
    requires items != [] && PutAll(t, owner, items).Ok?
    ensures
      var rest := PutAll(t, owner, items[..|items| - 1]);
      rest.Ok? && PutAll(t, owner, items).value.1 == rest.value.1 + [KeyOf(rest.value.0, items[|items| - 1])]
  {
  }

  /** New entries get rows of their own. */
  lemma {:induction false} NewRowsDistinct<D>(t: Table<D>, owner: OwnerId, items: seq<Item<D>>, i: nat, j: nat)
    requires Valid(t) && PutAll(t, owner, items).Ok? && i < j < |items| && items[i].id.None? && items[j].id.None?
    ensures
      var keys := PutAll(t, owner, items).value.1;
      |keys| == |items| && keys[i] != keys[j]
    decreases |items|
  {
    var last := |items| - 1;
    KeysSplit(t, owner, items);
    KeysBelowNext(t, owner, items[..last]);
    if j < last {
      NewRowsDistinct(t, owner, items[..last], i, j);
    } else {
      var keys := PutAll(t, owner, items[..last]).value.1;
      assert keys[i] in keys;
    }
  }

  /** What an upsert did: the owner's live rows are exactly those the payload denotes, with the data
      given last for each; every live row it dropped is archived, once; no archived row comes back; and
      rows of others stay as they are unless the payload names them. */
  ghost predicate Upserted<D>(t: Table<D>, owner: OwnerId, items: seq<Item<D>>, after: Table<D>, keys: seq<RowId>)
  {
    && Denotes(t, items, keys)
    && Reconciled(Live(t, owner), Archived(t, owner), Elements(keys), Live(after, owner), Archived(after, owner))
    && after.rows.Keys == t.rows.Keys + Elements(keys)
    && (forall k | k in keys :: Some(after.rows[k].data) == LastData(items, keys, k))
    && (forall k | k in t.rows && k !in keys ::
          after.rows[k] == if k in Live(t, owner) then t.rows[k].(archived := true) else t.rows[k])
  }

  /** An upsert is refused exactly when the payload names an archived row. */
  lemma UpsertReconciles<D>(t: Table<D>, owner: OwnerId, items: seq<Item<D>>)
    requires Valid(t)
    ensures Upsert(t, owner, items).Err? <==> NamesArchived(t, items)
    ensures Upsert(t, owner, items).Ok? ==>
      var (after, keys) := Upsert(t, owner, items).value;
      Valid(after) && Upserted(t, owner, items, after, keys)
  {
    PutAllEffect(t, owner, items);
    if PutAll(t, owner, items).Ok? {
      var (put, keys) := PutAll(t, owner, items).value;
      ArchivingReconciles(t, owner, items, put, keys);
    }
  }

  lemma ArchivingReconciles<D>(t: Table<D>, owner: OwnerId, items: seq<Item<D>>, put: Table<D>, keys: seq<RowId>)
    requires Denotes(t, items, keys) && Changed(t, owner, items, put, keys) && Elements(keys) <= put.rows.Keys
    ensures Upserted(t, owner, items, ArchiveOthers(put, owner, Elements(keys)), keys)
  {
    var after := ArchiveOthers(put, owner, Elements(keys));
    forall k | k in put.rows
      ensures k in keys <==> LastData(items, keys, k).Some?
    {}
    assert after.rows.Keys == t.rows.Keys + Elements(keys);
    assert Live(after, owner) == Elements(keys);
    assert Archived(after, owner) == Archived(t, owner) + (Live(t, owner) - Elements(keys));
  }

  /** The payload with every entry naming the row it denotes. */
  function Named<D>(items: seq<Item<D>>, keys: seq<RowId>): (named: seq<Item<D>>)
    requires |items| == |keys|
    ensures |named| == |items| && forall i | 0 <= i < |items| :: named[i] == Item(Some(keys[i]), items[i].data)
  {
    seq(|items|, i requires 0 <= i < |items| => Item(Some(keys[i]), items[i].data))
  }

  lemma {:induction false} NamedLastData<D>(items: seq<Item<D>>, keys: seq<RowId>, k: RowId)
    requires |items| == |keys|
    ensures LastData(Named(items, keys), keys, k) == LastData(items, keys, k)
  {
    if items != [] {
      var last := |items| - 1;
      assert Named(items, keys)[..last] == Named(items[..last], keys[..last]);
      NamedLastData(items[..last], keys[..last], k);
    }
  }

  lemma SameRowsAgain<D>(t: Table<D>, owner: OwnerId, items: seq<Item<D>>, after: Table<D>, again: Table<D>,
                         keys: seq<RowId>)
    requires Upserted(t, owner, items, after, keys) && Upserted(after, owner, Named(items, keys), again, keys)
    ensures again.rows == after.rows
  {
    forall k | k in after.rows ensures again.rows[k] == after.rows[k] {
      if k in keys {
        NamedLastData(items, keys, k);
        assert k in Live(again, owner) && k in Live(after, owner);
      } else {
        assert k !in Live(after, owner);
      }
    }
  }

  lemma SameKeysAgain<D>(t: Table<D>, items: seq<Item<D>>, keys: seq<RowId>, again: seq<RowId>)
    requires |keys| == |items| && Denotes(t, Named(items, keys), again)
    ensures again == keys
  {
  }

  lemma LiveKeysNotArchived<D>(t: Table<D>, owner: OwnerId, items: seq<Item<D>>, keys: seq<RowId>)
    requires Valid(t) && |keys| == |items| && Live(t, owner) == Elements(keys)
    ensures !NamesArchived(t, Named(items, keys))
    ensures forall k | k in keys :: k < t.next
  {
    forall i | 0 <= i < |keys| ensures keys[i] in t.rows && !t.rows[keys[i]].archived && keys[i] < t.next {
      assert keys[i] in Elements(keys);
    }
  }

  /** Sending the payload again under the keys it was given changes nothing: rows keep their identity. */
  lemma UpsertAgain<D>(t: Table<D>, owner: OwnerId, items: seq<Item<D>>)
    requires Valid(t) && Upsert(t, owner, items).Ok?
    ensures
      var (after, keys) := Upsert(t, owner, items).value;
      |keys| == |items| && Upsert(after, owner, Named(items, keys)) == Ok((after, keys))
  {
    UpsertReconciles(t, owner, items);
    var (after, keys) := Upsert(t, owner, items).value;
    LiveKeysNotArchived(after, owner, items, keys);
    UpsertReconciles(after, owner, Named(items, keys));
    var (again, keys') := Upsert(after, owner, Named(items, keys)).value;
    SameKeysAgain(after, items, keys, keys');
    SameRowsAgain(t, owner, items, after, again, keys);
    NextKept(after, owner, Named(items, keys));
  }

  lemma {:induction false} NextKept<D>(t: Table<D>, owner: OwnerId, items: seq<Item<D>>)
    requires Valid(t) && PutAll(t, owner, items).Ok?
    requires forall i | 0 <= i < |items| :: items[i].id.Some? && items[i].id.value < t.next
    ensures PutAll(t, owner, items).value.0.next == t.next
    decreases |items|
  {
    if items != [] {
      NextKept(t, owner, items[..|items| - 1]);
    }
  }

  /* ---------- well authorization numbers ---------- */

  type FacilityId = nat

  /** A well number is a primary key of its own: no two rows share one, archived rows included. */
  datatype Well = Well(facility: FacilityId, archived: bool)

  datatype WellError = DuplicateNumbers | NumberTaken

  function LiveWells(wells: map<nat, Well>, f: FacilityId): set<nat> {
    set n | n in wells && wells[n].facility == f && !wells[n].archived
  }

  function ArchivedWells(wells: map<nat, Well>, f: FacilityId): set<nat> {
    set n | n in wells && wells[n].facility == f && wells[n].archived
  }

  predicate HasDuplicates(numbers: seq<nat>) {
    exists i, j | 0 <= i < j < |numbers| :: numbers[i] == numbers[j]
  }

  function WithAdded(wells: map<nat, Well>, f: FacilityId, added: set<nat>): map<nat, Well> {
    map n | n in wells.Keys + added :: if n in wells then wells[n] else Well(f, false)
  }

  function WithArchived(wells: map<nat, Well>, removed: set<nat>): map<nat, Well> {
    map n | n in wells :: if n in removed then wells[n].(archived := true) else wells[n]
  }

  function UpdateWells(wells: map<nat, Well>, f: FacilityId, numbers: seq<nat>): Result<map<nat, Well>, WellError> {
    var wanted, live := Elements(numbers), LiveWells(wells, f);
    if HasDuplicates(numbers) then Err(DuplicateNumbers)
    else if !((wanted - live) !! wells.Keys) then Err(NumberTaken)
    else Ok(WithArchived(WithAdded(wells, f, wanted - live), live - wanted))
  }

  lemma {:induction false} DistinctCount(numbers: seq<nat>)
    ensures |Elements(numbers)| <= |numbers|
    ensures |Elements(numbers)| == |numbers| <==> !HasDuplicates(numbers)
  {
    if numbers != [] {
      var last := |numbers| - 1;
      var rest := numbers[..last];
      DistinctCount(rest);
      assert numbers == rest + [numbers[last]];
      assert (Elements(numbers)) == Elements(rest) + {numbers[last]};
      if HasDuplicates(rest) {
        var i, j :| 0 <= i < j < |rest| && rest[i] == rest[j];
        assert numbers[i] == numbers[j];
      } else if numbers[last] in rest {
        var i :| 0 <= i < last && rest[i] == numbers[last];
        assert numbers[i] == numbers[last];
      }
    }
  }

  class WellTable {
    var wells: map<nat, Well>

    constructor ()
      ensures wells == map[]
    {
      wells := map[];
    }

    method AddWells(f: FacilityId, numbers: set<nat>) returns (ok: bool)
      modifies this
      ensures ok <==> numbers !! old(wells).Keys
      ensures ok ==> wells == WithAdded(old(wells), f, numbers)
    {
      var todo := numbers;
      ghost var added: set<nat> := {};
      while todo != {}
        invariant added + todo == numbers && added !! todo
        invariant added !! old(wells).Keys
        invariant wells == WithAdded(old(wells), f, added)
      {
        var n :| n in todo;
        if n in wells {
          assert n in old(wells);
          return false;
        }
        wells := wells[n := Well(f, false)];
        todo, added := todo - {n}, added + {n};
      }
      assert added == numbers;
      return true;
    }

    method ArchiveWells(numbers: set<nat>)
      requires numbers <= wells.Keys
      modifies this
      ensures wells == WithArchived(old(wells), numbers)
    {
      var todo := numbers;
      ghost var archived: set<nat> := {};
      while todo != {}
        invariant archived + todo == numbers && archived !! todo
        invariant wells == WithArchived(old(wells), archived)
      {
        var n :| n in todo;
        wells := wells[n := wells[n].(archived := true)];
        todo, archived := todo - {n}, archived + {n};
      }
      assert archived == numbers;
    }

    /** Numbers to add are inserted, numbers to remove archived; a refused insertion undoes the request. */
    method HandleWellNumbers(f: FacilityId, numbers: seq<nat>) returns (error: Option<WellError>)
      modifies this
      ensures match UpdateWells(old(wells), f, numbers)
              case Err(e) => error == Some(e) && wells == old(wells)
              case Ok(after) => error == None && wells == after
    {
      var saved, wanted, live := wells, Elements(numbers), LiveWells(wells, f);
      DistinctCount(numbers);
      if |numbers| != |wanted| {
        return Some(DuplicateNumbers);
      }
      var ok := AddWells(f, wanted - live);
      if !ok {
        wells := saved;
        return Some(NumberTaken);
      }
      ArchiveWells(live - wanted);
      return None;
    }
  }

  /** The well numbers reconcile too: refused exactly for a repeated number or a new number that some
      row already has, archived rows included, and otherwise live are exactly the numbers given. */
  lemma UpdateWellsReconciles(wells: map<nat, Well>, f: FacilityId, numbers: seq<nat>)
    ensures UpdateWells(wells, f, numbers).Ok? <==>
      !HasDuplicates(numbers) && forall n | n in numbers && n in wells :: wells[n] == Well(f, false)
    ensures UpdateWells(wells, f, numbers).Err? ==>
      UpdateWells(wells, f, numbers).error == if HasDuplicates(numbers) then DuplicateNumbers else NumberTaken
    ensures UpdateWells(wells, f, numbers).Ok? ==>
      var after := UpdateWells(wells, f, numbers).value;
      && Reconciled(LiveWells(wells, f), ArchivedWells(wells, f), Elements(numbers),
                    LiveWells(after, f), ArchivedWells(after, f))
      && (forall n | n in wells && wells[n].facility != f :: after[n] == wells[n])
      && UpdateWells(after, f, numbers) == Ok(after)
  {
    if UpdateWells(wells, f, numbers).Ok? {
      var after := UpdateWells(wells, f, numbers).value;
      assert LiveWells(after, f) == Elements(numbers);
      assert ArchivedWells(after, f) == ArchivedWells(wells, f) + (LiveWells(wells, f) - Elements(numbers));
      assert UpdateWells(after, f, numbers).value == after;
    }
  }
}
