/** What the made-up history does to a client, said in terms of the stored rows. */
module ShareDbRows {
  import opened Wrappers
  import opened RawOps
  import opened ShareDbOps
  import opened ShareDbReplay

  // A document that is there, edited since its creation, and can be fetched.
  predicate Edited(db: Db, id: Id) {
    && !db.versionsFail && id in db.rows && !db.rows[id].deleted && db.rows[id].version > 1
    && id in db.snapshots && id !in db.broken
  }

  // A document that is there and as it was created.
  predicate AsCreated(db: Db, id: Id) {
    && !db.versionsFail && id in db.rows && !db.rows[id].deleted && db.rows[id].version == 1
    && id in db.snapshots && id !in db.broken
  }

  /** A client behind an edited document's version is brought to exactly that version, with the snapshot's content; a
    * client at that version or beyond gets no ops. */
  lemma RowCatchesUp(db: Db, docType: DocType, id: Id, client: Client)
    requires Edited(db, id)
    ensures var n, data := db.rows[id].version, db.snapshots[id];
            var result := SingleResult(db, docType, id, client.version, None);
            && result.Ok?
            && (client.version >= n ==> result.value == [])
            && (client.version < n ==>
                  && Replay(client, result.value).version == n
                  && Replay(client, result.value).doc == ApplySets(client.doc, GetOpsFromSnapshot(docType, data))
                  && (DistinctKeys(data) ==>
                        forall k :: 0 <= k < |data| ==> Agrees(docType, data, Replay(client, result.value).doc, k)))
  {
    var data := db.snapshots[id];
    ClientCatchesUp(docType, id, client, db.rows[id].version - 1, data);
    if DistinctKeys(data) {
      ContentAgreesWithSnapshot(docType, data, client.doc);
    }
  }

  /** A document as it was created is sent whole to a client that has nothing of it, and not at all to one that has. */
  lemma RowIsSentWhole(db: Db, docType: DocType, id: Id, client: Client, to: Option<int>)
    requires AsCreated(db, id)
    ensures var result := SingleResult(db, docType, id, client.version, to);
            && result.Ok?
            && (client.version >= 1 ==> result.value == [])
            && (client.version < 1 ==> Replay(client, result.value) == Client(1, Entries(db.snapshots[id])))
  {
    if client.version < 1 {
      CreateReplays(docType, id, client, to, 0, db.snapshots[id]);
    }
  }

  /** With an upper bound, a client behind both the bound and the document's version ends at the nearer of the two; any
    * other client gets no ops. */
  lemma BoundIsKept(db: Db, docType: DocType, id: Id, client: Client, bound: int)
    requires Edited(db, id)
    ensures var n := db.rows[id].version;
            var result := SingleResult(db, docType, id, client.version, Some(bound));
            && result.Ok?
            && (client.version < bound && client.version < n ==>
                  var after := Replay(client, result.value);
                  && after.version <= bound && after.version <= n && (after.version == bound || after.version == n)
                  && after.doc == ApplySets(client.doc, GetOpsFromSnapshot(docType, db.snapshots[id])))
            && (client.version >= bound || client.version >= n ==> result.value == [])
  {
    CollapsedReplay(client, db.rows[id].version - 1, Some(bound), GetOpsFromSnapshot(docType, db.snapshots[id]));
  }

  /** When `getOps` fails, and how: the version query, a version below one, the snapshot query or a snapshot that is not
    * there, the last two only if there is something to send. Without a row, for a deleted one and for a client that is
    * not behind there are no ops. */
  lemma FailsIff(db: Db, docType: DocType, id: Id, from: int, to: Option<int>)
    ensures var result := SingleResult(db, docType, id, from, to);
            var behind := id in db.rows && !db.rows[id].deleted && from < db.rows[id].version;
            var valid := !db.versionsFail && (id in db.rows ==> db.rows[id].version >= 1);
            && (result == Err(VersionsFailed) <==> db.versionsFail)
            && (result == Err(VersionTooLow) <==> !db.versionsFail && id in db.rows && db.rows[id].version < 1)
            && (result == Err(FetchFailed) <==> valid && behind && id in db.broken)
            && (result == Err(NotFound(id)) <==> valid && behind && id !in db.broken && id !in db.snapshots)
            && (result.Ok? <==> valid && (behind ==> id !in db.broken && id in db.snapshots))
            && (valid && !behind ==> result == Ok([]))
  {
  }

  // An entry of a bulk request for a document that is there and can be fetched.
  predicate Present(db: Db, id: Id) {
    Edited(db, id) || AsCreated(db, id)
  }

  /** A bulk request that succeeds brings the client of every present document without an upper bound to its stored
    * version, and none beyond. */
  lemma BulkCatchesUp(db: Db, docType: DocType, fromMap: FromMap, toMap: map<Id, Option<int>>, k: nat,
                      doc: map<string, Json>)
    requires forall i, j :: 0 <= i < j < |fromMap| ==> fromMap[i].0 != fromMap[j].0
    requires Collected(fromMap, Single(db, docType, toMap)).Ok?
    requires k < |fromMap| && Present(db, fromMap[k].0)
    requires fromMap[k].0 in toMap ==> toMap[fromMap[k].0].None?
    ensures var (id, from) := fromMap[k];
            var results := Collected(fromMap, Single(db, docType, toMap)).value;
            && id in results
            && Replay(Client(from, doc), results[id]).version
               == if from < db.rows[id].version then db.rows[id].version else from
  {
    var (id, from) := fromMap[k];
    BulkAgreesWithSingle(db, docType, fromMap, toMap);
    if Edited(db, id) {
      RowCatchesUp(db, docType, id, Client(from, doc));
    } else {
      RowIsSentWhole(db, docType, id, Client(from, doc), None);
    }
  }
}
