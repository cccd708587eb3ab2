/** Replaying made-up ops: the collapsed list stands for the long history it replaces. */
module ShareDbReplay {
  import opened Wrappers
  import opened RawOps
  import opened ShareDbOps

  // A client's copy of a document.
  datatype Client = Client(version: int, doc: map<string, Json>)

  function ApplySets(doc: map<string, Json>, sets: seq<SetOp>): map<string, Json> {
    if sets == [] then doc
    else
      var before, last := ApplySets(doc, sets[..|sets| - 1]), sets[|sets| - 1];
      if last.inserted.Some? then before[last.key := last.inserted.value] else before
  }

  function Entries(data: Data): map<string, Json> {
    if data == [] then map[] else Entries(data[..|data| - 1])[data[|data| - 1].0 := data[|data| - 1].1]
  }

  // A client moves to the version after the op's, whatever version it was at.
  function ApplyOp(client: Client, op: Op): Client {
    match op
    case Placeholder(v) => Client(v + 1, client.doc)
    case Edit(v, sets) => Client(v + 1, ApplySets(client.doc, sets))
    case Create(v, data) => Client(v + 1, Entries(data))
  }

  function Replay(client: Client, ops: seq<Op>): Client {
    if ops == [] then client else ApplyOp(Replay(client, ops[..|ops| - 1]), ops[|ops| - 1])
  }

  function Placeholders(from: int, count: nat): seq<Op> {
    if count == 0 then [] else Placeholders(from, count - 1) + [Placeholder(from + count - 1)]
  }

  // The history one op per version: empty ops up to the last version, which carries the content.
  function NaiveOps(from: int, gap: nat, sets: seq<SetOp>): seq<Op> {
    if gap == 0 then [] else Placeholders(from, gap - 1) + [Edit(from + gap - 1, sets)]
  }

  predicate Consecutive(ops: seq<Op>, from: int) {
    forall k :: 0 <= k < |ops| ==> ops[k].v == from + k
  }

  lemma ReplaySnoc(client: Client, ops: seq<Op>, last: Op)
    ensures Replay(client, ops + [last]) == ApplyOp(Replay(client, ops), last)
  {
    assert (ops + [last])[..|ops|] == ops;
  }

  lemma ReplayOne(client: Client, op: Op)
    ensures Replay(client, [op]) == ApplyOp(client, op)
  {
    assert [] + [op] == [op];
    ReplaySnoc(client, [], op);
  }

  lemma ReplayTwo(client: Client, first: Op, second: Op)
    ensures Replay(client, [first, second]) == ApplyOp(ApplyOp(client, first), second)
  {
    assert [first] + [second] == [first, second];
    ReplaySnoc(client, [first], second);
    ReplayOne(client, first);
  }

  lemma ConsecutiveSnoc(ops: seq<Op>, last: Op, from: int)
    requires Consecutive(ops, from) && last.v == from + |ops|
    ensures Consecutive(ops + [last], from)
  {
  }

  lemma {:induction false} PlaceholdersReplay(client: Client, count: nat)
    ensures Replay(client, Placeholders(client.version, count)) == Client(client.version + count, client.doc)
    ensures |Placeholders(client.version, count)| == count
    ensures Consecutive(Placeholders(client.version, count), client.version)
  {
    if count > 0 {
      PlaceholdersReplay(client, count - 1);
      ReplaySnoc(client, Placeholders(client.version, count - 1), Placeholder(client.version + count - 1));
    }
  }

  // The client once it has seen everything up to `gap` versions later.
  function Advanced(client: Client, gap: nat, sets: seq<SetOp>): Client {
    if gap == 0 then client else Client(client.version + gap, ApplySets(client.doc, sets))
  }

  lemma NaiveReplay(client: Client, gap: nat, sets: seq<SetOp>)
    ensures Replay(client, NaiveOps(client.version, gap, sets)) == Advanced(client, gap, sets)
  {
    if gap > 0 {
      PlaceholdersReplay(client, gap - 1);
      ReplaySnoc(client, Placeholders(client.version, gap - 1), Edit(client.version + gap - 1, sets));
    }
  }

  lemma NaiveVersions(client: Client, gap: nat, sets: seq<SetOp>)
    ensures |NaiveOps(client.version, gap, sets)| == gap
    ensures Consecutive(NaiveOps(client.version, gap, sets), client.version)
  {
    if gap > 0 {
      PlaceholdersReplay(client, gap - 1);
      ConsecutiveSnoc(Placeholders(client.version, gap - 1), Edit(client.version + gap - 1, sets), client.version);
    }
  }

  lemma CollapsedReplay(client: Client, version: int, to: Option<int>, sets: seq<SetOp>)
    ensures Replay(client, EditOps(version, client.version, to, sets))
            == Advanced(client, GapVersion(version, client.version, to), sets)
  {
    var last := TargetVersion(version, to) - 1;
    ReplayOne(client, Edit(client.version, sets));
    ReplayTwo(client, Placeholder(client.version), Edit(last, sets));
  }

  /** At most two ops stand for a history of any length: replayed by a client that needs them they give the same
    * document and version as the naive history, which ends at the version asked for or just after the current one; and
    * their versions follow on one another exactly when the gap is at most two. */
  lemma CollapseRefinesNaive(client: Client, version: int, to: Option<int>, sets: seq<SetOp>)
    ensures |EditOps(version, client.version, to, sets)| <= 2
    ensures Replay(client, EditOps(version, client.version, to, sets))
            == Replay(client, NaiveOps(client.version, GapVersion(version, client.version, to), sets))
    ensures TargetVersion(version, to) > client.version ==>
              Replay(client, EditOps(version, client.version, to, sets)).version == TargetVersion(version, to)
    ensures TargetVersion(version, to) <= client.version ==>
              Replay(client, EditOps(version, client.version, to, sets)) == client
    ensures Consecutive(NaiveOps(client.version, GapVersion(version, client.version, to), sets), client.version)
    ensures Consecutive(EditOps(version, client.version, to, sets), client.version)
            <==> TargetVersion(version, to) - client.version <= 2
  {
    NaiveReplay(client, GapVersion(version, client.version, to), sets);
    NaiveVersions(client, GapVersion(version, client.version, to), sets);
    CollapsedReplay(client, version, to, sets);
    CollapsedVersions(version, client.version, to, sets);
  }

  lemma CollapsedVersions(version: int, from: int, to: Option<int>, sets: seq<SetOp>)
    ensures Consecutive(EditOps(version, from, to, sets), from) <==> TargetVersion(version, to) - from <= 2
  {
    var ops := EditOps(version, from, to, sets);
    if |ops| == 2 {
      assert ops[1].v == TargetVersion(version, to) - 1;
    }
  }

  /* What the content op does to a client's document. */

  predicate DistinctKeys(data: Data) {
    forall i, j :: 0 <= i < j < |data| ==> data[i].0 != data[j].0
  }

  // What a client holds under a snapshot's key afterwards, if the content op touches that key at all.
  function Landed(docType: DocType, key: string, value: Json): Option<Json> {
    match docType
    case Record => Some(if value.EmptyArray? then Null else value)
    case View => None
    case _ => if key == "id" || value.Null? then None else Some(value)
  }

  lemma SetsSnoc(doc: map<string, Json>, sets: seq<SetOp>, last: SetOp)
    ensures ApplySets(doc, sets + [last])
            == if last.inserted.Some? then ApplySets(doc, sets)[last.key := last.inserted.value]
               else ApplySets(doc, sets)
  {
    assert (sets + [last])[..|sets|] == sets;
  }

  // The entry `k` of a snapshot is what the client now holds, unless the op does not touch it.
  predicate Agrees(docType: DocType, data: Data, after: map<string, Json>, k: nat)
    requires k < |data|
  {
    var landed := Landed(docType, data[k].0, data[k].1);
    landed.Some? ==> data[k].0 in after && landed == Some(after[data[k].0])
  }

  predicate Untouched(docType: DocType, data: Data, key: string) {
    forall k :: 0 <= k < |data| && data[k].0 == key ==> Landed(docType, key, data[k].1).None?
  }

  predicate SameAt(before: map<string, Json>, after: map<string, Json>, key: string) {
    (key in after <==> key in before) && (key in before ==> after[key] == before[key])
  }

  // What one more entry of the snapshot does.
  function Step(docType: DocType, doc: map<string, Json>, entry: (string, Json)): map<string, Json> {
    var landed := Landed(docType, entry.0, entry.1);
    if landed.Some? then doc[entry.0 := landed.value] else doc
  }

  lemma ContentSnoc(docType: DocType, data: Data, doc: map<string, Json>)
    requires data != []
    ensures ApplySets(doc, GetOpsFromSnapshot(docType, data))
            == Step(docType, ApplySets(doc, GetOpsFromSnapshot(docType, data[..|data| - 1])), data[|data| - 1])
  {
    var n := |data| - 1;
    var (key, value) := data[n];
    var sets := GetOpsFromSnapshot(docType, data[..n]);
    match docType
    case Record =>
      SetsSnoc(doc, sets, SetOp(key, Some(if value.EmptyArray? then Null else value)));
    case View =>
    case _ =>
      if key == "id" {
        assert sets + [] == sets;
      } else {
        SetsSnoc(doc, sets, SetOp(key, if value.Null? then None else Some(value)));
      }
  }

  lemma StepAgrees(docType: DocType, data: Data, before: map<string, Json>, k: nat)
    requires DistinctKeys(data) && k < |data| && (k < |data| - 1 ==> Agrees(docType, data[..|data| - 1], before, k))
    ensures Agrees(docType, data, Step(docType, before, data[|data| - 1]), k)
  {
    assert k < |data| - 1 ==> data[..|data| - 1][k] == data[k];
  }

  lemma UntouchedBefore(docType: DocType, data: Data, before: map<string, Json>, key: string)
    requires data != [] && Untouched(docType, data, key)
    ensures Untouched(docType, data[..|data| - 1], key)
    ensures SameAt(before, Step(docType, before, data[|data| - 1]), key)
  {
  }

  /** After the content op a client agrees with the snapshot on every key it writes, and keeps everything else as it
    * was: all fields of a record; the properties of a table or field but for `id` and nulls; nothing of a view. */
  lemma {:induction false} ContentAgreesWithSnapshot(docType: DocType, data: Data, doc: map<string, Json>)
    requires DistinctKeys(data)
    ensures forall k :: 0 <= k < |data| ==> Agrees(docType, data, ApplySets(doc, GetOpsFromSnapshot(docType, data)), k)
    ensures forall key :: Untouched(docType, data, key) ==>
              SameAt(doc, ApplySets(doc, GetOpsFromSnapshot(docType, data)), key)
  {
    var after := ApplySets(doc, GetOpsFromSnapshot(docType, data));
    if data == [] {
      assert GetOpsFromSnapshot(docType, data) == [];
    } else {
      var n := |data| - 1;
      var before := ApplySets(doc, GetOpsFromSnapshot(docType, data[..n]));
      ContentAgreesWithSnapshot(docType, data[..n], doc);
      ContentSnoc(docType, data, doc);
      forall k | 0 <= k < |data| ensures Agrees(docType, data, after, k) {
        if k < n {
          assert Agrees(docType, data[..n], before, k);
        }
        StepAgrees(docType, data, before, k);
      }
      forall key | Untouched(docType, data, key) ensures SameAt(doc, after, key) {
        UntouchedBefore(docType, data, before, key);
        assert SameAt(doc, before, key);
      }
    }
  }

  /** The content op holds a component that sets nothing, which the replay above ignores, exactly when the snapshot of a
    * table or field has a null property other than `id`. */
  lemma {:induction false} EmptyComponentIff(docType: DocType, data: Data)
    ensures (exists setOp :: setOp in GetOpsFromSnapshot(docType, data) && setOp.inserted.None?)
            <==> (docType.Table? || docType.Field?)
                 && exists k :: 0 <= k < |data| && data[k].0 != "id" && data[k].1.Null?
  {
    if data != [] {
      var n := |data| - 1;
      EmptyComponentIff(docType, data[..n]);
      assert data == data[..n] + [data[n]];
      assert forall k :: 0 <= k < n ==> data[..n][k] == data[k];
    }
  }

  /** What `getOps` sends for an edited document brings a client that is not ahead to the version after the current one,
    * with the snapshot's content; a client that is ahead is left alone. */
  lemma ClientCatchesUp(docType: DocType, id: Id, client: Client, version: int, data: Data)
    ensures InternalOps(docType, id, client.version, None, VersionAndType(version, EditType), Some(Some(data))).Ok?
    ensures Replay(client, InternalOps(docType, id, client.version, None, VersionAndType(version, EditType),
                                       Some(Some(data))).value)
            == if client.version > version then client
               else Client(version + 1, ApplySets(client.doc, GetOpsFromSnapshot(docType, data)))
  {
    CollapsedReplay(client, version, None, GetOpsFromSnapshot(docType, data));
  }

  /** A document still at its creation is sent whole: whatever the client held, it then holds the snapshot. */
  lemma CreateReplays(docType: DocType, id: Id, client: Client, to: Option<int>, version: int, data: Data)
    requires client.version <= version
    ensures var vt := VersionAndType(version, CreateType);
            var result := InternalOps(docType, id, client.version, to, vt, Some(Some(data)));
            result.Ok? && Replay(client, result.value) == Client(version + 1, Entries(data))
  {
  }
}
