/** The op history `ShareDbAdapter` makes up for a document of which only the current snapshot is stored. */
module ShareDbOps {
  import opened Wrappers
  import opened RawOps

  type Id = string

  datatype Json = Null | EmptyArray | Other(text: string)

  // The entries of a JavaScript object, in order; keys are distinct.
  type Data = seq<(string, Json)>

  datatype VersionAndType = VersionAndType(version: int, opType: RawOpType)

  // Sets one key; `inserted` is the op's `oi`, and None an op without one.
  datatype SetOp = SetOp(key: string, inserted: Option<Json>)

  datatype Op =
    | Create(v: int, data: Data)
    | Edit(v: int, sets: seq<SetOp>)
    | Placeholder(v: int)                 // an edit op without content

  datatype Error = VersionsFailed | VersionTooLow | NotFound(id: Id) | FetchFailed

  datatype Result<T> = Ok(value: T) | Err(error: Error)

  /* One document. */

  predicate HasGapVersion(opType: RawOpType, currentVersion: int, fromVersion: int) {
    if opType.DelType? then false
    else if fromVersion > currentVersion then false
    else true
  }

  // `setRecord.build` turns an empty array into null.
  function RecordOps(data: Data): seq<SetOp> {
    if data == [] then []
    else
      var (key, value) := data[|data| - 1];
      RecordOps(data[..|data| - 1]) + [SetOp(key, Some(if value.EmptyArray? then Null else value))]
  }

  // `setFieldProperty.build` and `setTableProperty.build` leave `oi` out of an op that would set null.
  function PropertyOps(data: Data): seq<SetOp> {
    if data == [] then []
    else
      var (key, value) := data[|data| - 1];
      PropertyOps(data[..|data| - 1])
      + if key == "id" then [] else [SetOp(key, if value.Null? then None else Some(value))]
  }

  function GetOpsFromSnapshot(docType: DocType, data: Data): seq<SetOp> {
    match docType
    case Record => RecordOps(data)
    case Field => PropertyOps(data)
    case Table => PropertyOps(data)
    case View => []
  }

  function Min(a: int, b: int): int { if a < b then a else b }

  function TargetVersion(version: int, to: Option<int>): int {
    if to.Some? then Min(to.value, version + 1) else version + 1
  }

  function GapVersion(version: int, from: int, to: Option<int>): nat {
    if TargetVersion(version, to) > from then TargetVersion(version, to) - from else 0
  }

  // The ops for an edited document: none, the content op, or a placeholder and the content op.
  function EditOps(version: int, from: int, to: Option<int>, sets: seq<SetOp>): seq<Op> {
    var gap := GapVersion(version, from, to);
    if gap == 0 then []
    else if gap == 1 then [Edit(from, sets)]
    else [Placeholder(from), Edit(TargetVersion(version, to) - 1, sets)]
  }

  // `internalGetOps`, once the version is known; `snapshot` is what was fetched, None when the fetch threw.
  function InternalOps(docType: DocType, id: Id, from: int, to: Option<int>, vt: VersionAndType,
                       snapshot: Option<Option<Data>>): Result<seq<Op>> {
    if !HasGapVersion(vt.opType, vt.version, from) then Ok([])
    else match snapshot
      case None => Err(FetchFailed)
      case Some(None) => Err(NotFound(id))
      case Some(Some(data)) =>
        if vt.opType.CreateType? then Ok([Create(vt.version, data)])
        else Ok(EditOps(vt.version, from, to, GetOpsFromSnapshot(docType, data)))
  }

  /* The database behind the adapter. */

  // The version columns of a document.
  datatype Row = Row(version: int, deleted: bool)

  // `versionsFail` says that the version query of the collection throws, as for a table that does not exist; `broken`
  // holds the ids a snapshot query for which throws.
  datatype Db = Db(versionsFail: bool, rows: map<Id, Row>, snapshots: map<Id, Data>, broken: set<Id>)

  function Lookup<T>(entries: map<Id, T>, id: Id): Option<T> {
    if id in entries then Some(entries[id]) else None
  }

  function FormatVersionAndType(row: Option<Row>): Result<VersionAndType> {
    match row
    case None => Ok(VersionAndType(-1, DelType))
    case Some(Row(version, deleted)) =>
      if version < 1 then Err(VersionTooLow)
      else if deleted then Ok(VersionAndType(version - 1, DelType))
      else if version == 1 then Ok(VersionAndType(0, CreateType))
      else Ok(VersionAndType(version - 1, EditType))
  }

  // `getVersionAndType` of the readonly services.
  function VersionOf(db: Db, id: Id): Result<VersionAndType> {
    if db.versionsFail then Err(VersionsFailed) else FormatVersionAndType(Lookup(db.rows, id))
  }

  // What `getOps` reports to its callback.
  function SingleResult(db: Db, docType: DocType, id: Id, from: int, to: Option<int>): Result<seq<Op>> {
    match VersionOf(db, id)
    case Err(error) => Err(error)
    case Ok(vt) =>
      InternalOps(docType, id, from, to, vt, if id in db.broken then None else Some(Lookup(db.snapshots, id)))
  }

  // Snapshots of the ids that have one, in any order; None when the query throws.
  method GetSnapshotData(db: Db, ids: seq<Id>) returns (r: Option<seq<(Id, Data)>>)
    ensures r.None? <==> exists id :: id in ids && id in db.broken
    ensures r.Some? ==> forall s :: s in r.value ==> s.0 in ids && Lookup(db.snapshots, s.0) == Some(s.1)
    ensures r.Some? ==> forall id :: id in ids && id in db.snapshots ==> (id, db.snapshots[id]) in r.value
  {
    var found: seq<(Id, Data)> := [];
    for k := 0 to |ids|
      invariant forall id :: id in ids[..k] ==> id !in db.broken
      invariant forall s :: s in found ==> s.0 in ids[..k] && Lookup(db.snapshots, s.0) == Some(s.1)
      invariant forall id :: id in ids[..k] && id in db.snapshots ==> (id, db.snapshots[id]) in found
    {
      if ids[k] in db.broken {
        return None;
      }
      if ids[k] in db.snapshots {
        found := found + [(ids[k], db.snapshots[ids[k]])];
      }
    }
    r := Some(found);
  }

  // The calls `getOps` makes to its callback.
  method GetOps(db: Db, docType: DocType, id: Id, from: int, to: Option<int>) returns (calls: seq<Result<seq<Op>>>)
    ensures calls == [SingleResult(db, docType, id, from, to)]
  {
    var found := VersionOf(db, id);
    if found.Err? {
      return [Err(found.error)];
    }
    var vt := found.value;
    if !HasGapVersion(vt.opType, vt.version, from) {
      return [Ok([])];
    }
    var fetched := GetSnapshotData(db, [id]);
    if fetched.None? {
      return [Err(FetchFailed)];
    }
    if fetched.value == [] {
      assert id in [id] && id !in db.snapshots;
      return [Err(NotFound(id))];
    }
    assert fetched.value[0] in fetched.value;
    var data := fetched.value[0].1;
    if vt.opType.CreateType? {
      return [Ok([Create(vt.version, data)])];
    }
    calls := [Ok(EditOps(vt.version, from, to, GetOpsFromSnapshot(docType, data)))];
  }

  /* Many documents at once. */

  type FromMap = seq<(Id, int)>

  function ToOf(toMap: map<Id, Option<int>>, id: Id): Option<int> {
    if id in toMap then toMap[id] else None
  }

  // The ids whose snapshots are needed, by the versions of those that have one.
  predicate Needs(versions: map<Id, VersionAndType>, id: Id, from: int) {
    id in versions && HasGapVersion(versions[id].opType, versions[id].version, from)
  }

  // What `getOps` reports for one entry of the request.
  function Single(db: Db, docType: DocType, toMap: map<Id, Option<int>>): (Id, int) -> Result<seq<Op>> {
    (id: Id, from: int) => SingleResult(db, docType, id, from, ToOf(toMap, id))
  }

  // The results of all entries, or the first error among them.
  function Collected<T>(fromMap: FromMap, single: (Id, int) -> Result<T>): Result<map<Id, T>> {
    if fromMap == [] then Ok(map[])
    else
      var (id, from) := fromMap[|fromMap| - 1];
      match Collected(fromMap[..|fromMap| - 1], single)
      case Err(error) => Err(error)
      case Ok(results) =>
        match single(id, from)
        case Err(error) => Err(error)
        case Ok(value) => Ok(results[id := value])
  }

  // `getVersionAndTypeMap`: the versions of the ids that have a row; None when it throws.
  method GetVersionAndTypeMap(db: Db, fromMap: FromMap) returns (r: Option<map<Id, VersionAndType>>)
    ensures r.None? <==> VersionsThrow(db, fromMap)
    ensures r.Some? ==> IsVersionMap(db, fromMap, r.value)
  {
    if db.versionsFail {
      return None;
    }
    var versions: map<Id, VersionAndType> := map[];
    for k := 0 to |fromMap|
      invariant forall j :: 0 <= j < k ==> VersionOf(db, fromMap[j].0).Ok?
      invariant IsVersionMap(db, fromMap[..k], versions)
    {
      var id := fromMap[k].0;
      if id in db.rows {
        var formatted := FormatVersionAndType(Some(db.rows[id]));
        if formatted.Err? {
          assert VersionOf(db, fromMap[k].0).Err?;
          return None;
        }
        versions := versions[id := formatted.value];
      }
    }
    assert fromMap[..|fromMap|] == fromMap;
    r := Some(versions);
  }

  // Whether getting the versions of a bulk request throws: the query does, or one of the rows has no valid version.
  ghost predicate VersionsThrow(db: Db, fromMap: FromMap) {
    db.versionsFail || exists k :: 0 <= k < |fromMap| && VersionOf(db, fromMap[k].0).Err?
  }

  ghost predicate IsVersionMap(db: Db, fromMap: FromMap, versions: map<Id, VersionAndType>) {
    && (forall id :: id in versions ==> id in db.rows && VersionOf(db, id) == Ok(versions[id]))
    && (forall k :: 0 <= k < |fromMap| && fromMap[k].0 in db.rows ==> fromMap[k].0 in versions)
  }

  method NeededIds(versions: map<Id, VersionAndType>, fromMap: FromMap) returns (ids: seq<Id>)
    ensures forall id :: id in ids <==>
              exists k :: 0 <= k < |fromMap| && fromMap[k].0 == id && Needs(versions, id, fromMap[k].1)
  {
    ids := [];
    for k := 0 to |fromMap|
      invariant forall id :: id in ids <==>
                  exists j :: 0 <= j < k && fromMap[j].0 == id && Needs(versions, id, fromMap[j].1)
    {
      var (id, from) := fromMap[k];
      if Needs(versions, id, from) {
        ids := ids + [id];
      }
    }
  }

  // The batched load; None when a query throws.
  method LoadSnapshots(db: Db, ids: seq<Id>, batchSize: nat) returns (loaded: Option<map<Id, Data>>)
    requires batchSize > 0
    ensures loaded.None? <==> exists id :: id in ids && id in db.broken
    ensures loaded.Some? ==> forall id :: id in ids ==> Lookup(loaded.value, id) == Lookup(db.snapshots, id)
  {
    var snapshots: map<Id, Data> := map[];
    var i := 0;
    while i < |ids|
      invariant i <= |ids|
      invariant forall id :: id in ids[..i] ==> id !in db.broken && Lookup(snapshots, id) == Lookup(db.snapshots, id)
      invariant forall id :: id in snapshots ==> Lookup(db.snapshots, id) == Some(snapshots[id])
    {
      var end := if i + batchSize <= |ids| then i + batchSize else |ids|;
      var batch := ids[i..end];
      var fetched := GetSnapshotData(db, batch);
      if fetched.None? {
        return None;
      }
      snapshots := Absorb(db, batch, fetched.value, snapshots);
      assert ids[..end] == ids[..i] + batch;
      i := end;
    }
    assert ids[..|ids|] == ids;
    loaded := Some(snapshots);
  }

  // `snapshotDataMap[snapshot.id] = snapshot` for one batch.
  method Absorb(db: Db, batch: seq<Id>, fetched: seq<(Id, Data)>, before: map<Id, Data>) returns (after: map<Id, Data>)
    requires forall s :: s in fetched ==> s.0 in batch && Lookup(db.snapshots, s.0) == Some(s.1)
    requires forall id :: id in batch && id in db.snapshots ==> (id, db.snapshots[id]) in fetched
    requires forall id :: id in before ==> Lookup(db.snapshots, id) == Some(before[id])
    ensures forall id :: id in after ==> Lookup(db.snapshots, id) == Some(after[id])
    ensures forall id :: id in before || id in batch ==> Lookup(after, id) == Lookup(db.snapshots, id)
  {
    after := before;
    for k := 0 to |fetched|
      invariant forall id :: id in after ==> Lookup(db.snapshots, id) == Some(after[id])
      invariant forall id :: id in before ==> id in after
      invariant forall j :: 0 <= j < k ==> fetched[j].0 in after
    {
      assert fetched[k] in fetched;
      after := after[fetched[k].0 := fetched[k].1];
    }
    forall id | id in batch && id in db.snapshots ensures id in after {
      assert (id, db.snapshots[id]) in fetched;
    }
  }

  // Whether `getOps` would have to fetch a snapshot whose query throws.
  predicate FetchThrows(db: Db, id: Id, from: int) {
    && id in db.broken
    && VersionOf(db, id).Ok?
    && HasGapVersion(VersionOf(db, id).value.opType, VersionOf(db, id).value.version, from)
  }

  // Whether loading what a bulk request needs throws, at the versions or at the snapshots.
  ghost predicate LoadThrows(db: Db, fromMap: FromMap) {
    VersionsThrow(db, fromMap) || exists k :: 0 <= k < |fromMap| && FetchThrows(db, fromMap[k].0, fromMap[k].1)
  }

  /** `getOpsBulk` with any batch size: unless loading the versions or the snapshots throws, its callback is called
    * exactly once, with what `getOps` gives for each id, or with the first id's error for which `getOps` gives one; and
    * if loading throws the callback is not called. */
  method GetOpsBulk(db: Db, docType: DocType, fromMap: FromMap, toMap: map<Id, Option<int>>, batchSize: nat)
    returns (calls: seq<Result<map<Id, seq<Op>>>>)
    requires batchSize > 0
    ensures calls == if LoadThrows(db, fromMap) then [] else [Collected(fromMap, Single(db, docType, toMap))]
  {
    var found := GetVersionAndTypeMap(db, fromMap);
    if found.None? {
      return [];
    }
    var versions := found.value;
    var ids := NeededIds(versions, fromMap);
    forall k | 0 <= k < |fromMap|
      ensures FetchThrows(db, fromMap[k].0, fromMap[k].1)
              <==> Needs(versions, fromMap[k].0, fromMap[k].1) && fromMap[k].0 in db.broken
    {
      NeedsMeans(db, fromMap, versions, k);
    }
    var loaded := LoadSnapshots(db, ids, batchSize);
    if loaded.None? {
      assert LoadThrows(db, fromMap);
      return [];
    }
    var results: map<Id, seq<Op>> := map[];
    ghost var single := Single(db, docType, toMap);
    for k := 0 to |fromMap|
      invariant Collected(fromMap[..k], single) == Ok(results)
    {
      var (id, from) := fromMap[k];
      assert fromMap[..k + 1][..k] == fromMap[..k];
      NeedsMeans(db, fromMap, versions, k);
      var vt := if id in versions then versions[id] else VersionAndType(0, DelType);
      var result := InternalOps(docType, id, from, ToOf(toMap, id), vt, Some(Lookup(loaded.value, id)));
      assert Needs(versions, id, from) ==> id in ids && id !in db.broken;
      assert result == single(id, from);
      if result.Err? {
        FirstErrorStays(fromMap, single, k + 1);
        return [Err(result.error)];
      }
      results := results[id := result.value];
    }
    assert fromMap[..|fromMap|] == fromMap;
    calls := [Ok(results)];
  }

  lemma NeedsMeans(db: Db, fromMap: FromMap, versions: map<Id, VersionAndType>, k: nat)
    requires !VersionsThrow(db, fromMap) && IsVersionMap(db, fromMap, versions) && k < |fromMap|
    ensures VersionOf(db, fromMap[k].0).Ok?
    ensures var (id, from) := fromMap[k];
            var vt := VersionOf(db, id).value;
            && (Needs(versions, id, from) <==> HasGapVersion(vt.opType, vt.version, from))
            && (id in versions ==> vt == versions[id])
            && (id !in versions ==> vt.opType.DelType?)
  {
  }

  lemma {:induction false} FirstErrorStays<T>(fromMap: FromMap, single: (Id, int) -> Result<T>, k: nat)
    requires k <= |fromMap| && Collected(fromMap[..k], single).Err?
    ensures Collected(fromMap, single) == Collected(fromMap[..k], single)
  {
    if k == |fromMap| {
      assert fromMap[..k] == fromMap;
    } else {
      assert fromMap[..|fromMap| - 1][..k] == fromMap[..k];
      FirstErrorStays(fromMap[..|fromMap| - 1], single, k);
    }
  }

  ghost predicate AllFine<T>(fromMap: FromMap, single: (Id, int) -> Result<T>, results: map<Id, T>) {
    && (forall id :: id in results <==> exists k :: 0 <= k < |fromMap| && fromMap[k].0 == id)
    && (forall k :: 0 <= k < |fromMap| ==>
          fromMap[k].0 in results && single(fromMap[k].0, fromMap[k].1) == Ok(results[fromMap[k].0]))
  }

  ghost predicate FailsAt<T>(fromMap: FromMap, single: (Id, int) -> Result<T>, k: nat, error: Error) {
    && k < |fromMap|
    && single(fromMap[k].0, fromMap[k].1) == Err(error)
    && forall j :: 0 <= j < k ==> single(fromMap[j].0, fromMap[j].1).Ok?
  }

  ghost predicate FailsFirst<T>(fromMap: FromMap, single: (Id, int) -> Result<T>, error: Error) {
    exists k :: FailsAt(fromMap, single, k, error)
  }

  // Every id's own result if all are fine, else the error of the first entry that has one.
  ghost predicate Tells<T>(fromMap: FromMap, single: (Id, int) -> Result<T>, outcome: Result<map<Id, T>>) {
    match outcome
    case Ok(results) => AllFine(fromMap, single, results)
    case Err(error) => FailsFirst(fromMap, single, error)
  }

  lemma {:induction false} CollectedMeans<T>(fromMap: FromMap, single: (Id, int) -> Result<T>)
    requires forall i, j :: 0 <= i < j < |fromMap| ==> fromMap[i].0 != fromMap[j].0
    ensures Tells(fromMap, single, Collected(fromMap, single))
  {
    if fromMap != [] {
      var n := |fromMap| - 1;
      var before := Collected(fromMap[..n], single);
      CollectedMeans(fromMap[..n], single);
      if before.Err? {
        FailureStays(fromMap, single, before.error);
      } else {
        OneMore(fromMap, single, before.value);
      }
    }
  }

  lemma FailureStays<T>(fromMap: FromMap, single: (Id, int) -> Result<T>, error: Error)
    requires fromMap != [] && FailsFirst(fromMap[..|fromMap| - 1], single, error)
    ensures FailsFirst(fromMap, single, error)
  {
    var k: nat :| FailsAt(fromMap[..|fromMap| - 1], single, k, error);
    assert forall j :: 0 <= j <= k ==> fromMap[..|fromMap| - 1][j] == fromMap[j];
    assert FailsAt(fromMap, single, k, error);
  }

  lemma OneMore<T>(fromMap: FromMap, single: (Id, int) -> Result<T>, results: map<Id, T>)
    requires fromMap != [] && AllFine(fromMap[..|fromMap| - 1], single, results)
    requires forall i :: 0 <= i < |fromMap| - 1 ==> fromMap[i].0 != fromMap[|fromMap| - 1].0
    ensures match single(fromMap[|fromMap| - 1].0, fromMap[|fromMap| - 1].1)
            case Err(error) => FailsFirst(fromMap, single, error)
            case Ok(value) => AllFine(fromMap, single, results[fromMap[|fromMap| - 1].0 := value])
  {
    var n := |fromMap| - 1;
    assert forall j :: 0 <= j < n ==> fromMap[..n][j] == fromMap[j];
    var outcome := single(fromMap[n].0, fromMap[n].1);
    if outcome.Err? {
      assert FailsAt(fromMap, single, n, outcome.error);
    }
  }

  /** What the bulk result is, without the loop: every id's own result if all are fine, else the error of the first id
    * that has one; an id without a row never fails, and gets the empty list; each id has its own bound, if any. */
  lemma BulkAgreesWithSingle(db: Db, docType: DocType, fromMap: FromMap, toMap: map<Id, Option<int>>)
    requires forall i, j :: 0 <= i < j < |fromMap| ==> fromMap[i].0 != fromMap[j].0
    ensures Tells(fromMap, Single(db, docType, toMap), Collected(fromMap, Single(db, docType, toMap)))
    ensures forall id, from :: id !in db.rows && !db.versionsFail ==> Single(db, docType, toMap)(id, from) == Ok([])
    ensures forall id, from ::
              Single(db, docType, toMap)(id, from)
              == SingleResult(db, docType, id, from, if id in toMap then toMap[id] else None)
  {
    CollectedMeans(fromMap, Single(db, docType, toMap));
  }

  /** The bulk call leaves its callback uncalled exactly when the version query throws or `getOps` reports for one of
    * the ids an error other than a missing document: there the two part company, for one bad id sinks the whole
    * request. */
  lemma BulkIsSilentIff(db: Db, docType: DocType, fromMap: FromMap, toMap: map<Id, Option<int>>)
    ensures LoadThrows(db, fromMap)
            <==> db.versionsFail
                 || exists k :: 0 <= k < |fromMap| && FailsHard(Single(db, docType, toMap)(fromMap[k].0, fromMap[k].1))
  {
    var single := Single(db, docType, toMap);
    forall k | 0 <= k < |fromMap|
      ensures FailsHard(single(fromMap[k].0, fromMap[k].1))
              <==> VersionOf(db, fromMap[k].0).Err? || FetchThrows(db, fromMap[k].0, fromMap[k].1)
    {
    }
  }

  predicate FailsHard<T>(result: Result<T>) {
    result.Err? && !result.error.NotFound?
  }
}
