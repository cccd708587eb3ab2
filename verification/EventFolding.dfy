/** `EventEmitterService.generateEventsFromRawOps` and `mergeEventsForUpdate`: a batch of raw ops becomes one event per
  * document, and for records that event has the net effect of the ops it stands for.
  */
module EventFolding {
  import opened Wrappers
  import opened RawOps

  datatype Value = Undefined | Null | EmptyArray | Cell(text: string)

  // Ids carry their type as a prefix, so the type belongs to the id.
  datatype DocId = DocId(docType: DocType, key: string)

  // One operation on one record field: `oi` and `od` of the ot operation.
  datatype FieldOp = FieldOp(field: string, inserted: Value, deleted: Value)

  datatype RawOp =
    | Create(fields: map<string, Value>)
    | Edit(ops: seq<FieldOp>)
    | Del
    | Unknown                             // none of `create`, `op` and `del`

  datatype Change = Change(oldValue: Value, newValue: Value)

  datatype Body =
    | Created(fields: map<string, Value>)
    | Edited(changes: map<string, Change>)
    | Deleted
    | Other(op: RawOp)                    // a table, field or view document: carried along, never merged

  datatype OpEvent = OpEvent(id: DocId, rawOpType: RawOpType, tableId: string, body: Body)

  // One raw op on its way through the loops: the parent named by its collection, its document, the op.
  datatype Entry = Entry(parent: string, id: DocId, op: RawOp)

  // `IRawOpMap`, in iteration order: per collection the parent and the ops by document id.
  type RawOpMap = seq<(string, seq<(DocId, RawOp)>)>

  /* Building an event. */

  function GetOpType(op: RawOp): Option<RawOpType> {
    match op
    case Create(_) => Some(CreateType)
    case Edit(_) => Some(EditType)
    case Del => Some(DelType)
    case Unknown => None
  }

  predicate Nullish(v: Value) {
    v.Undefined? || v.Null?
  }

  // `SetRecordBuilder.build`, then `{ oldValue, newValue }` of what it built.
  function BuildChange(op: FieldOp): Change {
    var prior := if Nullish(op.deleted) then Null else op.deleted;
    if Nullish(op.inserted) || op.inserted.EmptyArray? then Change(prior, Null)
    else if prior.Null? then Change(Undefined, op.inserted)
    else Change(prior, op.inserted)
  }

  // `convertOpsToClassPlain` on the ops of an edit: later ops on a field overwrite earlier ones.
  function Changes(ops: seq<FieldOp>): map<string, Change> {
    if ops == [] then map[]
    else Changes(ops[..|ops| - 1])[ops[|ops| - 1].field := BuildChange(ops[|ops| - 1])]
  }

  // A created record is announced empty: `AddRecordBuilder.build` keeps no fields.
  function BodyOf(id: DocId, op: RawOp): Body {
    if !id.docType.Record? then Other(op)
    else match op
      case Create(_) => Created(map[])
      case Edit(ops) => Edited(Changes(ops))
      case _ => Deleted
  }

  function MakeEvent(entry: Entry): Option<OpEvent> {
    match GetOpType(entry.op)
    case None => None
    case Some(rawOpType) =>
      var tableId := if entry.id.docType.Table? then entry.id.key else entry.parent;
      Some(OpEvent(entry.id, rawOpType, tableId, BodyOf(entry.id, entry.op)))
  }

  /* Merging events of one document. */

  predicate IsRecordUpdate(event: OpEvent) {
    event.id.docType.Record? && event.rawOpType.EditType?
  }

  function NewValues(changes: map<string, Change>): map<string, Value> {
    map f | f in changes :: changes[f].newValue
  }

  // `getUpdateFieldsFromEvent` and `combineUpdateEvents`.
  function CombineBodies(existing: Body, update: Body): Body {
    match (existing, update)
    case (Created(fields), Edited(changes)) => Created(fields + NewValues(changes))
    case (Edited(before), Edited(changes)) => Edited(before + changes)
    case _ => update
  }

  function Combine(existing: OpEvent, event: OpEvent): OpEvent {
    if !existing.rawOpType.DelType? && IsRecordUpdate(event)
    then existing.(body := CombineBodies(existing.body, event.body))
    else event
  }

  // A JavaScript Map: its entries and the order in which keys first came in.
  datatype Manager = Manager(events: map<DocId, OpEvent>, order: seq<DocId>)

  function Merge(m: Manager, id: DocId, event: OpEvent): Manager {
    if id !in m.events then Manager(m.events[id := event], m.order + [id])
    else m.(events := m.events[id := Combine(m.events[id], event)])
  }

  function Feed(m: Manager, entry: Entry): Manager {
    match MakeEvent(entry)
    case None => m
    case Some(event) => Merge(m, entry.id, event)
  }

  function FeedAll(m: Manager, entries: seq<Entry>): Manager {
    if entries == [] then m else Feed(FeedAll(m, entries[..|entries| - 1]), entries[|entries| - 1])
  }

  lemma {:induction false} FeedConcat(m: Manager, a: seq<Entry>, b: seq<Entry>)
    ensures FeedAll(m, a + b) == FeedAll(FeedAll(m, a), b)
  {
    if b == [] {
      assert a + b == a;
    } else {
      assert (a + b)[..|a + b| - 1] == a + b[..|b| - 1];
      FeedConcat(m, a, b[..|b| - 1]);
    }
  }

  const EMPTY := Manager(map[], [])

  // The entries of a raw op map in the order the nested loops visit them.
  function Entries(rawOpMap: RawOpMap): seq<Entry> {
    if rawOpMap == [] then []
    else Entries(rawOpMap[..|rawOpMap| - 1]) + CollectionEntries(rawOpMap[|rawOpMap| - 1].0, rawOpMap[|rawOpMap| - 1].1)
  }

  function CollectionEntries(parent: string, data: seq<(DocId, RawOp)>): seq<Entry> {
    seq(|data|, k requires 0 <= k < |data| => Entry(parent, data[k].0, data[k].1))
  }

  class EventManager {
    var events: map<DocId, OpEvent>
    var order: seq<DocId>

    function View(): Manager
      reads this
    {
      Manager(events, order)
    }

    constructor ()
      ensures View() == EMPTY
    {
      events, order := map[], [];
    }

    method MergeEventsForUpdate(id: DocId, event: OpEvent)
      modifies this
      ensures View() == Merge(old(View()), id, event)
    {
      if id !in events {
        events := events[id := event];
        order := order + [id];
        return;
      }
      var existing := events[id];
      var merged := event;
      if !existing.rawOpType.DelType? && IsRecordUpdate(event) {
        merged := existing.(body := CombineBodies(existing.body, event.body));
      }
      events := events[id := merged];
    }

    // The inner loop, over the ops of one collection.
    method GenerateEventsOfCollection(parent: string, data: seq<(DocId, RawOp)>)
      modifies this
      ensures View() == FeedAll(old(View()), CollectionEntries(parent, data))
    {
      ghost var start, all := View(), CollectionEntries(parent, data);
      for k := 0 to |data|
        invariant View() == FeedAll(start, all[..k])
      {
        assert all[..k + 1][..k] == all[..k];
        var event := MakeEvent(Entry(parent, data[k].0, data[k].1));
        if event.Some? {
          MergeEventsForUpdate(data[k].0, event.value);
        }
      }
      assert all[..|data|] == all;
    }

    method GenerateEventsFromRawOps(rawOpMap: RawOpMap)
      modifies this
      ensures View() == FeedAll(old(View()), Entries(rawOpMap))
    {
      ghost var start := View();
      for c := 0 to |rawOpMap|
        invariant View() == FeedAll(start, Entries(rawOpMap[..c]))
      {
        var (parent, data) := rawOpMap[c];
        GenerateEventsOfCollection(parent, data);
        FeedConcat(start, Entries(rawOpMap[..c]), CollectionEntries(parent, data));
        assert rawOpMap[..c + 1][..c] == rawOpMap[..c];
      }
      assert rawOpMap[..|rawOpMap|] == rawOpMap;
    }
  }

  /* One event per document, whatever else is in the batch. */

  // The ops of one document, in order, those the service cannot type left out.
  function OpsOf(entries: seq<Entry>, id: DocId): seq<RawOp> {
    if entries == [] then []
    else
      var last := entries[|entries| - 1];
      OpsOf(entries[..|entries| - 1], id) + if last.id == id && !last.op.Unknown? then [last.op] else []
  }

  // What a document's ops come to, merged one after another.
  function FoldBody(id: DocId, ops: seq<RawOp>): Body
    requires ops != []
  {
    var last := ops[|ops| - 1];
    if |ops| == 1 then BodyOf(id, last)
    else
      var existing := FoldBody(id, ops[..|ops| - 1]);
      if id.docType.Record? && last.Edit? then CombineBodies(existing, BodyOf(id, last)) else BodyOf(id, last)
  }

  lemma FoldSnoc(id: DocId, ops: seq<RawOp>, op: RawOp)
    ensures FoldBody(id, ops + [op]) ==
            if ops != [] && id.docType.Record? && op.Edit? then CombineBodies(FoldBody(id, ops), BodyOf(id, op))
            else BodyOf(id, op)
  {
    assert (ops + [op])[..|ops|] == ops;
  }

  predicate TypeMatches(t: RawOpType, body: Body) {
    match body
    case Created(_) => t.CreateType?
    case Edited(_) => t.EditType?
    case Deleted => t.DelType?
    case Other(op) => GetOpType(op) == Some(t)
  }

  // The document's event is what its ops come to, and there is none if there are no ops.
  predicate Settled(m: Manager, id: DocId, ops: seq<RawOp>) {
    && (id in m.events <==> ops != [])
    && (id in m.events ==>
          && m.events[id].id == id
          && m.events[id].body == FoldBody(id, ops)
          && TypeMatches(m.events[id].rawOpType, m.events[id].body)
          && (id.docType.Table? ==> m.events[id].tableId == id.key))
  }

  // Every document with an event is listed once.
  ghost predicate Listed(m: Manager) {
    && (forall id :: id in m.order <==> id in m.events)
    && (forall i, j :: 0 <= i < j < |m.order| ==> m.order[i] != m.order[j])
  }

  lemma FeedKeepsListed(m: Manager, entry: Entry)
    requires Listed(m)
    ensures Listed(Feed(m, entry))
  {
  }

  lemma FeedSettles(m: Manager, ops: seq<RawOp>, entry: Entry)
    requires Settled(m, entry.id, ops) && !entry.op.Unknown?
    ensures Settled(Feed(m, entry), entry.id, ops + [entry.op])
  {
    FoldSnoc(entry.id, ops, entry.op);
  }

  lemma {:induction false} AllSettled(entries: seq<Entry>, id: DocId)
    ensures Settled(FeedAll(EMPTY, entries), id, OpsOf(entries, id))
  {
    if entries != [] {
      var shorter, last := entries[..|entries| - 1], entries[|entries| - 1];
      var m, ops := FeedAll(EMPTY, shorter), OpsOf(shorter, id);
      AllSettled(shorter, id);
      if last.id == id && !last.op.Unknown? {
        FeedSettles(m, ops, last);
      } else {
        assert ops + [] == ops;
      }
    }
  }

  lemma {:induction false} AllListed(entries: seq<Entry>)
    ensures Listed(FeedAll(EMPTY, entries))
  {
    if entries != [] {
      AllListed(entries[..|entries| - 1]);
      FeedKeepsListed(FeedAll(EMPTY, entries[..|entries| - 1]), entries[|entries| - 1]);
    }
  }

  /** Each document ends with exactly one event, made from its own ops alone; the events are distinct by id. */
  lemma OneEventPerDocument(entries: seq<Entry>, id: DocId)
    ensures Settled(FeedAll(EMPTY, entries), id, OpsOf(entries, id)) && Listed(FeedAll(EMPTY, entries))
  {
    AllSettled(entries, id);
    AllListed(entries);
  }
}
