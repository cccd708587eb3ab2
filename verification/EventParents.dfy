/** Which table an event is for, and which events of a batch go out together. */
module EventParents {
  import opened Wrappers
  import opened RawOps
  import opened EventFolding
  import opened GroupBy
  import opened EventGrouping

  // The `k`-th raw op is one of the document's that has a type.
  predicate TypedAt(entries: seq<Entry>, id: DocId, k: nat) {
    k < |entries| && entries[k].id == id && !entries[k].op.Unknown?
  }

  // An edit of a record adds to the event there is, unless that says the record is deleted.
  predicate AddsTo(id: DocId, op: RawOp) {
    id.docType.Record? && op.Edit?
  }

  // The op before, if any, deleted the record.
  ghost predicate AfterDelete(entries: seq<Entry>, id: DocId, k: nat) {
    forall i: nat :: i < k && TypedAt(entries, id, i) && (forall j: nat :: i < j < k ==> !TypedAt(entries, id, j)) ==>
      entries[i].op.Del?
  }

  // The op the document's event was last made from: it starts an event, and all ops after it add to that.
  ghost predicate LastMadeFrom(entries: seq<Entry>, id: DocId, k: nat) {
    && TypedAt(entries, id, k)
    && (AddsTo(id, entries[k].op) ==> AfterDelete(entries, id, k))
    && forall j: nat :: k < j && TypedAt(entries, id, j) ==> AddsTo(id, entries[j].op) && !entries[k].op.Del?
  }

  // The last of the document's ops before `k`.
  lemma Previous(entries: seq<Entry>, id: DocId, i: nat, k: nat) returns (p: nat)
    requires i < k && TypedAt(entries, id, i)
    ensures i <= p < k && TypedAt(entries, id, p) && forall j: nat :: p < j < k ==> !TypedAt(entries, id, j)
    decreases k - i
  {
    if j: nat :| i < j < k && TypedAt(entries, id, j) {
      p := Previous(entries, id, j, k);
    } else {
      p := i;
    }
  }

  /** No two ops can be that op. */
  lemma LastMadeFromOne(entries: seq<Entry>, id: DocId, k: nat, l: nat)
    requires LastMadeFrom(entries, id, k) && LastMadeFrom(entries, id, l)
    ensures k == l
  {
    if k < l {
      var p := Previous(entries, id, k, l);
    } else if l < k {
      var p := Previous(entries, id, l, k);
    }
  }

  function TableOf(id: DocId, parent: string): string {
    if id.docType.Table? then id.key else parent
  }

  // An event made from the `k`-th op names its table and its kind of change.
  predicate MadeFrom(entries: seq<Entry>, event: OpEvent, k: nat) {
    && k < |entries|
    && event.tableId == TableOf(event.id, entries[k].parent)
    && GetOpType(entries[k].op) == Some(event.rawOpType)
  }

  ghost predicate FromItsOps(entries: seq<Entry>, m: Manager, id: DocId) {
    if id in m.events
    then m.events[id].id == id && exists k :: LastMadeFrom(entries, id, k) && MadeFrom(entries, m.events[id], k)
    else forall k :: !TypedAt(entries, id, k)
  }

  lemma TypedSnoc(entries: seq<Entry>, last: Entry, id: DocId, k: nat)
    ensures k < |entries| ==> (TypedAt(entries + [last], id, k) <==> TypedAt(entries, id, k))
    ensures k == |entries| ==> (TypedAt(entries + [last], id, k) <==> last.id == id && !last.op.Unknown?)
  {
  }

  lemma AfterDeleteStays(entries: seq<Entry>, last: Entry, id: DocId, k: nat)
    requires k <= |entries| && AfterDelete(entries, id, k)
    ensures AfterDelete(entries + [last], id, k)
  {
    var longer := entries + [last];
    forall i: nat | i < k && TypedAt(longer, id, i) && (forall j: nat :: i < j < k ==> !TypedAt(longer, id, j))
      ensures longer[i].op.Del?
    {
      TypedSnoc(entries, last, id, i);
      forall j: nat | i < j < k ensures !TypedAt(entries, id, j) {
        TypedSnoc(entries, last, id, j);
      }
    }
  }

  // An op of the document that adds to its event, or of another document, leaves it made from where it was.
  lemma SourceStays(entries: seq<Entry>, last: Entry, id: DocId, k: nat)
    requires LastMadeFrom(entries, id, k)
    requires last.id == id && !last.op.Unknown? ==> AddsTo(id, last.op) && !entries[k].op.Del?
    ensures LastMadeFrom(entries + [last], id, k)
  {
    var longer := entries + [last];
    TypedSnoc(entries, last, id, k);
    if AddsTo(id, entries[k].op) {
      AfterDeleteStays(entries, last, id, k);
    }
    forall j: nat | k < j && TypedAt(longer, id, j) ensures AddsTo(id, longer[j].op) && !longer[k].op.Del? {
      TypedSnoc(entries, last, id, j);
    }
  }

  // Any other op starts an event.
  lemma SourceStarts(entries: seq<Entry>, last: Entry)
    requires !last.op.Unknown?
    requires AddsTo(last.id, last.op) ==> AfterDelete(entries, last.id, |entries|)
    ensures LastMadeFrom(entries + [last], last.id, |entries|)
  {
    TypedSnoc(entries, last, last.id, |entries|);
    if AddsTo(last.id, last.op) {
      AfterDeleteStays(entries, last, last.id, |entries|);
    }
  }

  // A document whose event says it is deleted had its last op delete it.
  lemma DeletedLast(entries: seq<Entry>, id: DocId, k: nat)
    requires LastMadeFrom(entries, id, k) && entries[k].op.Del?
    ensures AfterDelete(entries, id, |entries|)
  {
  }

  lemma FromItsOpsSnoc(entries: seq<Entry>, last: Entry, m: Manager, id: DocId)
    requires FromItsOps(entries, m, id)
    ensures FromItsOps(entries + [last], Feed(m, last), id)
  {
    if last.id == id && !last.op.Unknown? {
      if id !in m.events {
        SourceStarts(entries, last);
        assert MadeFrom(entries + [last], Feed(m, last).events[id], |entries|);
      } else {
        var k :| LastMadeFrom(entries, id, k) && MadeFrom(entries, m.events[id], k);
        OneMoreOp(entries, last, m, k);
      }
    } else {
      if id in m.events {
        var k :| LastMadeFrom(entries, id, k) && MadeFrom(entries, m.events[id], k);
        SourceStays(entries, last, id, k);
        assert MadeFrom(entries + [last], Feed(m, last).events[id], k);
      } else {
        forall k ensures !TypedAt(entries + [last], id, k) {
          TypedSnoc(entries, last, id, k);
        }
      }
    }
  }

  lemma OneMoreOp(entries: seq<Entry>, last: Entry, m: Manager, k: nat)
    requires !last.op.Unknown? && last.id in m.events && m.events[last.id].id == last.id
    requires LastMadeFrom(entries, last.id, k) && MadeFrom(entries, m.events[last.id], k)
    ensures FromItsOps(entries + [last], Feed(m, last), last.id)
  {
    var id := last.id;
    if AddsTo(id, last.op) && !entries[k].op.Del? {
      SourceStays(entries, last, id, k);
      assert MadeFrom(entries + [last], Feed(m, last).events[id], k);
    } else {
      if entries[k].op.Del? {
        DeletedLast(entries, id, k);
      }
      SourceStarts(entries, last);
      assert MadeFrom(entries + [last], Feed(m, last).events[id], |entries|);
    }
  }

  /** In every batch, a document has an event exactly if one of its ops has a type, and the event says the kind of
    * change of the op it was last made from and names the collection of that op as its table; a table's event names
    * itself. */
  lemma {:induction false} EventNamesParent(entries: seq<Entry>, id: DocId)
    ensures FromItsOps(entries, FeedAll(EMPTY, entries), id)
  {
    if entries != [] {
      var n := |entries| - 1;
      EventNamesParent(entries[..n], id);
      FromItsOpsSnoc(entries[..n], entries[n], FeedAll(EMPTY, entries[..n]), id);
      assert entries == entries[..n] + [entries[n]];
    }
  }

  /* Order. */

  // The first op of `a` with a type comes before any such op of `b`.
  ghost predicate ComesUpFirst(entries: seq<Entry>, a: DocId, b: DocId) {
    exists p: nat :: TypedAt(entries, a, p) && forall q: nat :: TypedAt(entries, b, q) ==> p < q
  }

  lemma ComesUpSnoc(entries: seq<Entry>, last: Entry, a: DocId, b: DocId)
    ensures ComesUpFirst(entries, a, b) ==> ComesUpFirst(entries + [last], a, b)
    ensures (exists p: nat :: TypedAt(entries, a, p)) && (forall q: nat :: !TypedAt(entries, b, q)) ==>
              ComesUpFirst(entries + [last], a, b)
  {
    var longer := entries + [last];
    if p: nat :| TypedAt(entries, a, p) && forall q: nat :: TypedAt(entries, b, q) ==> p < q {
      TypedSnoc(entries, last, a, p);
      forall q: nat | TypedAt(longer, b, q) ensures p < q {
        TypedSnoc(entries, last, b, q);
      }
    }
  }

  ghost predicate InOrder(entries: seq<Entry>, order: seq<DocId>) {
    forall i, j :: 0 <= i < j < |order| ==> ComesUpFirst(entries, order[i], order[j])
  }

  lemma OrderSnoc(entries: seq<Entry>, last: Entry, m: Manager, i: nat, j: nat)
    requires InOrder(entries, m.order) && i < j < |Feed(m, last).order|
    requires forall id :: FromItsOps(entries, m, id) && (id in m.order <==> id in m.events)
    ensures ComesUpFirst(entries + [last], Feed(m, last).order[i], Feed(m, last).order[j])
  {
    var a, b := Feed(m, last).order[i], Feed(m, last).order[j];
    assert a in m.order && FromItsOps(entries, m, a) && FromItsOps(entries, m, b);
    ComesUpSnoc(entries, last, a, b);
  }

  /** The events of a batch are in the order in which their documents come up. */
  lemma {:induction false} EventsComeInOrder(entries: seq<Entry>)
    ensures InOrder(entries, FeedAll(EMPTY, entries).order)
  {
    if entries != [] {
      var n := |entries| - 1;
      var m, longer := FeedAll(EMPTY, entries[..n]), FeedAll(EMPTY, entries);
      EventsComeInOrder(entries[..n]);
      forall id ensures FromItsOps(entries[..n], m, id) && (id in m.order <==> id in m.events) {
        EventNamesParent(entries[..n], id);
        OneEventPerDocument(entries[..n], id);
      }
      assert entries == entries[..n] + [entries[n]];
      forall i, j | 0 <= i < j < |longer.order| ensures ComesUpFirst(entries, longer.order[i], longer.order[j]) {
        OrderSnoc(entries[..n], entries[n], m, i, j);
      }
    }
  }

  /* What goes out together. */

  // Every document belongs to one collection.
  ghost predicate OneParent(entries: seq<Entry>, parentOf: DocId -> string) {
    forall k :: 0 <= k < |entries| ==> entries[k].parent == parentOf(entries[k].id)
  }

  lemma TablesOfBatch(entries: seq<Entry>, parentOf: DocId -> string, id: DocId)
    requires OneParent(entries, parentOf) && id in FeedAll(EMPTY, entries).events
    ensures var event := FeedAll(EMPTY, entries).events[id];
            event.id == id && event.tableId == TableOf(id, parentOf(id))
  {
    EventNamesParent(entries, id);
  }

  // An output tells of a document.
  ghost predicate Tells(output: Output, id: DocId) {
    exists item :: item in Payloads(output) && item.Some? && item.value.id == id
  }

  ghost predicate GoTogether(outputs: seq<Output>, a: DocId, b: DocId) {
    exists k :: 0 <= k < |outputs| && Tells(outputs[k], a) && Tells(outputs[k], b)
  }

  // One event per document, each under its own id.
  ghost predicate OwnEvents(m: Manager) {
    && (forall id :: id in m.order <==> id in m.events)
    && (forall id :: id in m.events ==> m.events[id].id == id)
  }

  lemma ValuesMembers(m: Manager, e: OpEvent)
    requires OwnEvents(m)
    ensures e in ValuesOf(m) <==> e.id in m.events && m.events[e.id] == e
  {
    if e in ValuesOf(m) {
      var k :| 0 <= k < |m.order| && ValuesOf(m)[k] == e;
      assert m.order[k] in m.order;
    }
    if e.id in m.events && m.events[e.id] == e {
      var k :| 0 <= k < |m.order| && m.order[k] == e.id;
      assert ValuesOf(m)[k] == e;
    }
  }

  // The output of a group tells of a document exactly if the document's event is in the group.
  lemma TellsIff(m: Manager, key: string, id: DocId)
    requires OwnEvents(m) && TablesApart(ValuesOf(m), GroupKey) && id in m.events
    requires GroupOf(ValuesOf(m), GroupKey, key) != []
    ensures Tells(CombinedOf(GroupOf(ValuesOf(m), GroupKey, key)), id) <==> GroupKey(m.events[id]) == key
  {
    var events := ValuesOf(m);
    var group := GroupOf(events, GroupKey, key);
    GroupPayloads(events, GroupKey, key);
    GroupMembers(events, GroupKey, key);
    var items := MapAll(group, EventGrouping.ItemOf);
    if Tells(CombinedOf(group), id) {
      var item :| item in items && item.Some? && item.value.id == id;
      var k :| 0 <= k < |items| && items[k] == item;
      assert group[k] in group;
      ValuesMembers(m, group[k]);
    }
    if GroupKey(m.events[id]) == key {
      ValuesMembers(m, m.events[id]);
      var k :| 0 <= k < |group| && group[k] == m.events[id];
      assert items[k] in items && items[k] == EventGrouping.ItemOf(m.events[id]);
    }
  }

  // Of each output: whether it tells of the document.
  lemma TellsOfOutput(m: Manager, id: DocId, k: nat)
    requires OwnEvents(m) && TablesApart(ValuesOf(m), GroupKey) && id in m.events
    requires k < |Keys(ValuesOf(m), GroupKey)|
    ensures forall key :: key in Keys(ValuesOf(m), GroupKey) ==> GroupOf(ValuesOf(m), GroupKey, key) != []
    ensures Tells(Outputs(ValuesOf(m), GroupKey, Keys(ValuesOf(m), GroupKey))[k], id)
            <==> GroupKey(m.events[id]) == Keys(ValuesOf(m), GroupKey)[k]
  {
    KeysAreTheGroups(ValuesOf(m), GroupKey);
    TellsIff(m, Keys(ValuesOf(m), GroupKey)[k], id);
  }

  lemma OwnKeyIsThere(m: Manager, id: DocId)
    requires OwnEvents(m) && id in m.events
    ensures GroupKey(m.events[id]) in Keys(ValuesOf(m), GroupKey)
  {
    var key := GroupKey(m.events[id]);
    ValuesMembers(m, m.events[id]);
    GroupMembers(ValuesOf(m), GroupKey, key);
    assert m.events[id] in GroupOf(ValuesOf(m), GroupKey, key);
    KeysAreTheGroups(ValuesOf(m), GroupKey);
  }

  lemma TogetherIff(m: Manager, a: DocId, b: DocId)
    requires OwnEvents(m) && TablesApart(ValuesOf(m), GroupKey) && a in m.events && b in m.events
    ensures forall key :: key in Keys(ValuesOf(m), GroupKey) ==> GroupOf(ValuesOf(m), GroupKey, key) != []
    ensures GoTogether(Outputs(ValuesOf(m), GroupKey, Keys(ValuesOf(m), GroupKey)), a, b)
            <==> GroupKey(m.events[a]) == GroupKey(m.events[b])
  {
    KeysAreTheGroups(ValuesOf(m), GroupKey);
    var keys := Keys(ValuesOf(m), GroupKey);
    var outputs := Outputs(ValuesOf(m), GroupKey, keys);
    if GoTogether(outputs, a, b) {
      var k :| 0 <= k < |outputs| && Tells(outputs[k], a) && Tells(outputs[k], b);
      TellsOfOutput(m, a, k);
      TellsOfOutput(m, b, k);
    }
    if GroupKey(m.events[a]) == GroupKey(m.events[b]) {
      OwnKeyIsThere(m, a);
      var k :| 0 <= k < |keys| && keys[k] == GroupKey(m.events[a]);
      TellsOfOutput(m, a, k);
      TellsOfOutput(m, b, k);
    }
  }

  /** In a batch whose documents each belong to one collection, two documents are told of by the same output exactly if
    * they are fields, views or records alike, of one collection, with one kind of change; a table always goes out
    * alone. */
  lemma WhatGoesTogether(entries: seq<Entry>, parentOf: DocId -> string, a: DocId, b: DocId)
    requires OneParent(entries, parentOf)
    requires a in FeedAll(EMPTY, entries).events && b in FeedAll(EMPTY, entries).events && a != b
    ensures var m := FeedAll(EMPTY, entries);
            && (forall id :: id in m.order ==> id in m.events)
            && (forall key :: key in Keys(ValuesOf(m), GroupKey) ==> GroupOf(ValuesOf(m), GroupKey, key) != [])
            && (GoTogether(Outputs(ValuesOf(m), GroupKey, Keys(ValuesOf(m), GroupKey)), a, b)
                <==> && !a.docType.Table? && a.docType == b.docType && parentOf(a) == parentOf(b)
                     && m.events[a].rawOpType == m.events[b].rawOpType)
  {
    var m := FeedAll(EMPTY, entries);
    forall id ensures id in m.order <==> id in m.events {
      OneEventPerDocument(entries, id);
    }
    forall id | id in m.events ensures m.events[id].id == id {
      EventNamesParent(entries, id);
    }
    BatchTablesApart(entries);
    TablesOfBatch(entries, parentOf, a);
    TablesOfBatch(entries, parentOf, b);
    GroupKeyIsExact(m.events[a], m.events[b]);
    TogetherIff(m, a, b);
  }
}
