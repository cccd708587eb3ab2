/** `EventEmitterService.ops2Event`: the folded events are grouped by table and event name, and each group goes out as
  * one event.
  */
module EventGrouping {
  import opened Wrappers
  import opened RawOps
  import opened EventFolding
  import opened GroupBy

  // The values of `Events` in `eventNameMapping`.
  function EventName(docType: DocType, rawOpType: RawOpType): string {
    var subject := match docType
      case Table => "table."
      case Field => "table.field."
      case View => "table.view."
      case Record => "table.record.";
    var verb := match rawOpType
      case CreateType => "create"
      case EditType => "update"
      case DelType => "delete";
    subject + verb
  }

  function NameOf(event: OpEvent): string {
    EventName(event.id.docType, event.rawOpType)
  }

  function GroupKey(event: OpEvent): string {
    if event.tableId != "" then event.tableId + "_" + NameOf(event) else NameOf(event)
  }

  // What a listener learns about one document: the merge property of its event.
  datatype Item = Item(id: DocId, body: Body)

  function ItemOf(event: OpEvent): Option<Item> {
    Some(Item(event.id, event.body))
  }

  // `get(event, ['payload', mergePropertyName])`: table events have no merge property, and give undefined.
  function Merged(event: OpEvent): Option<Item> {
    if event.id.docType.Table? then None else ItemOf(event)
  }

  // An event as it goes out: as it was, or with the first event's other fields and the list of all items.
  datatype Output = Alone(event: OpEvent) | Bulk(first: OpEvent, items: seq<Option<Item>>)

  function Payloads(output: Output): seq<Option<Item>> {
    match output
    case Alone(event) => [ItemOf(event)]
    case Bulk(_, items) => items
  }

  function CombinedOf(group: seq<OpEvent>): Output
    requires group != []
  {
    if |group| == 1 then Alone(group[0]) else Bulk(group[0], MapAll(group, Merged))
  }

  method CombineEvents(group: seq<OpEvent>) returns (output: Output)
    requires group != []
    ensures output == CombinedOf(group)
  {
    if |group| <= 1 {
      return Alone(group[0]);
    }
    var items: seq<Option<Item>> := [];
    for k := 0 to |group|
      invariant |items| == k && forall j :: 0 <= j < k ==> items[j] == Merged(group[j])
    {
      items := items + [Merged(group[k])];
    }
    assert items == MapAll(group, Merged);
    output := Bulk(group[0], items);
  }

  // The outputs of some keys, for any grouping.
  function Outputs<K(==)>(events: seq<OpEvent>, keyOf: OpEvent -> K, keys: seq<K>): (outputs: seq<Output>)
    requires forall key :: key in keys ==> GroupOf(events, keyOf, key) != []
    ensures |outputs| == |keys|
    ensures forall k :: 0 <= k < |keys| ==> outputs[k] == CombinedOf(GroupOf(events, keyOf, keys[k]))
  {
    if keys == [] then []
    else
      var n := |keys| - 1;
      assert forall key :: key in keys[..n] ==> key in keys;
      Outputs(events, keyOf, keys[..n]) + [CombinedOf(GroupOf(events, keyOf, keys[n]))]
  }

  // `groupBy` and `toArray`: the keys in the order they came up, and the group of each.
  method GroupEvents<K(==, !new)>(events: seq<OpEvent>, keyOf: OpEvent -> K)
    returns (keys: seq<K>, groups: map<K, seq<OpEvent>>)
    ensures keys == Keys(events, keyOf)
    ensures forall key :: key in keys ==>
              key in groups && groups[key] == GroupOf(events, keyOf, key) && groups[key] != []
  {
    groups, keys := map[], [];
    for k := 0 to |events|
      invariant keys == Keys(events[..k], keyOf)
      invariant forall key :: key in groups <==> key in keys
      invariant forall key :: key in groups ==> groups[key] == GroupOf(events[..k], keyOf, key)
      invariant forall key :: key !in keys ==> GroupOf(events[..k], keyOf, key) == []
    {
      assert events[..k + 1][..k] == events[..k];
      var key := keyOf(events[k]);
      if key !in groups {
        keys := keys + [key];
        groups := groups[key := [events[k]]];
      } else {
        groups := groups[key := groups[key] + [events[k]]];
      }
    }
    assert events[..|events|] == events;
    KeysAreTheGroups(events, keyOf);
  }

  // Each group goes out once, in the order the keys came up.
  method Ops2Event<K(==, !new)>(events: seq<OpEvent>, keyOf: OpEvent -> K) returns (outputs: seq<Output>)
    ensures forall key :: key in Keys(events, keyOf) ==> GroupOf(events, keyOf, key) != []
    ensures outputs == Outputs(events, keyOf, Keys(events, keyOf))
  {
    var keys, groups := GroupEvents(events, keyOf);
    outputs := [];
    for k := 0 to |keys|
      invariant |outputs| == k
      invariant forall j :: 0 <= j < k ==> outputs[j] == CombinedOf(GroupOf(events, keyOf, keys[j]))
    {
      assert keys[k] in keys;
      var output := CombineEvents(groups[keys[k]]);
      outputs := outputs + [output];
    }
    assert outputs == Outputs(events, keyOf, keys);
  }

  /* Distinct tables and names never share a key. */

  predicate NoUnderscore(s: string) {
    forall k :: 0 <= k < |s| ==> s[k] != '_'
  }

  lemma NamesHaveNoUnderscore(docType: DocType, rawOpType: RawOpType)
    ensures NoUnderscore(EventName(docType, rawOpType))
  {
  }

  lemma SplitAtLastUnderscore(a: string, n: string, b: string, m: string)
    requires a + "_" + n == b + "_" + m && NoUnderscore(n) && NoUnderscore(m)
    ensures a == b && n == m
  {
    var key := a + "_" + n;
    assert key[|a|] == '_' && key[|b|] == '_';
    assert forall i :: |a| < i < |key| ==> key[i] == n[i - |a| - 1];
    assert forall i :: |b| < i < |key| ==> key[i] == m[i - |b| - 1];
    assert |a| == |b|;
    assert a == key[..|a|] && b == key[..|b|] && n == key[|a| + 1..] && m == key[|b| + 1..];
  }

  lemma TableKeyHasUnderscore(event: OpEvent)
    requires event.tableId != ""
    ensures !NoUnderscore(GroupKey(event))
  {
    assert GroupKey(event)[|event.tableId|] == '_';
  }

  // Where an event name ends gives its verb away, and its seventh character the kind of document.
  lemma NamesDiffer(d1: DocType, t1: RawOpType, d2: DocType, t2: RawOpType)
    ensures EventName(d1, t1) == EventName(d2, t2) <==> d1 == d2 && t1 == t2
  {
    var a, b := EventName(d1, t1), EventName(d2, t2);
    if a == b {
      assert a[6] == b[6] && a[|a| - 4] == b[|b| - 4] && a[|a| - 5] == b[|b| - 5];
    }
  }

  /** Two events share a group key only if they agree on table and name, which is to say on table, kind of document and
    * kind of change, whatever characters table ids contain. */
  lemma GroupKeyIsExact(e: OpEvent, f: OpEvent)
    ensures GroupKey(e) == GroupKey(f) <==> e.tableId == f.tableId && NameOf(e) == NameOf(f)
    ensures NameOf(e) == NameOf(f) <==> e.id.docType == f.id.docType && e.rawOpType == f.rawOpType
  {
    NamesDiffer(e.id.docType, e.rawOpType, f.id.docType, f.rawOpType);
    NamesHaveNoUnderscore(e.id.docType, e.rawOpType);
    NamesHaveNoUnderscore(f.id.docType, f.rawOpType);
    if e.tableId != "" {
      TableKeyHasUnderscore(e);
    }
    if f.tableId != "" {
      TableKeyHasUnderscore(f);
    }
    if e.tableId != "" && f.tableId != "" && GroupKey(e) == GroupKey(f) {
      SplitAtLastUnderscore(e.tableId, NameOf(e), f.tableId, NameOf(f));
    }
  }

  /* Nothing is lost and nothing is invented. */

  function AllPayloads(outputs: seq<Output>): seq<Option<Item>> {
    if outputs == [] then [] else AllPayloads(outputs[..|outputs| - 1]) + Payloads(outputs[|outputs| - 1])
  }

  // Events that share a key are not table events.
  ghost predicate TablesApart<K>(events: seq<OpEvent>, keyOf: OpEvent -> K) {
    forall i, j :: 0 <= i < j < |events| && keyOf(events[i]) == keyOf(events[j]) ==>
      !events[i].id.docType.Table? && !events[j].id.docType.Table?
  }

  lemma {:induction false} TableGroup<K>(events: seq<OpEvent>, keyOf: OpEvent -> K, key: K)
    requires TablesApart(events, keyOf)
    ensures |GroupOf(events, keyOf, key)| > 1 ==> forall e :: e in GroupOf(events, keyOf, key) ==> !e.id.docType.Table?
  {
    if events != [] {
      var n := |events| - 1;
      TableGroup(events[..n], keyOf, key);
      GroupMembers(events[..n], keyOf, key);
      var before := GroupOf(events[..n], keyOf, key);
      if keyOf(events[n]) == key && before != [] {
        forall e | e in before ensures !e.id.docType.Table? && !events[n].id.docType.Table? {
          var i :| 0 <= i < n && events[..n][i] == e;
        }
        assert before[0] in before;
      }
    }
  }

  lemma GroupPayloads<K>(events: seq<OpEvent>, keyOf: OpEvent -> K, key: K)
    requires TablesApart(events, keyOf) && GroupOf(events, keyOf, key) != []
    ensures Payloads(CombinedOf(GroupOf(events, keyOf, key))) == MapAll(GroupOf(events, keyOf, key), ItemOf)
  {
    var group := GroupOf(events, keyOf, key);
    TableGroup(events, keyOf, key);
    assert Payloads(CombinedOf(group)) == MapAll(group, ItemOf);
  }

  lemma {:induction false} OutputsCarryItems<K(!new)>(events: seq<OpEvent>, keyOf: OpEvent -> K, keys: seq<K>)
    requires TablesApart(events, keyOf) && forall key :: key in keys ==> GroupOf(events, keyOf, key) != []
    ensures multiset(AllPayloads(Outputs(events, keyOf, keys))) == Together(events, keyOf, ItemOf, keys)
  {
    if keys != [] {
      var n := |keys| - 1;
      assert forall key :: key in keys[..n] ==> key in keys;
      OutputsCarryItems(events, keyOf, keys[..n]);
      GroupPayloads(events, keyOf, keys[n]);
      assert Outputs(events, keyOf, keys)[..n] == Outputs(events, keyOf, keys[..n]);
    }
  }

  /** Grouping conserves events: the payloads that go out are a permutation of those that came in; each group goes out
    * once, its members in order, and as a bulk event exactly when it has more than one. */
  lemma GroupingConserves<K(!new)>(events: seq<OpEvent>, keyOf: OpEvent -> K)
    requires TablesApart(events, keyOf)
    ensures forall key :: key in Keys(events, keyOf) ==> GroupOf(events, keyOf, key) != []
    ensures Distinct(Keys(events, keyOf))
    ensures var outputs := Outputs(events, keyOf, Keys(events, keyOf));
            && multiset(AllPayloads(outputs)) == multiset(MapAll(events, ItemOf))
            && forall k :: 0 <= k < |outputs| ==> GoesOutAs(GroupOf(events, keyOf, Keys(events, keyOf)[k]), outputs[k])
  {
    KeysAreTheGroups(events, keyOf);
    var keys := Keys(events, keyOf);
    OutputsCarryItems(events, keyOf, keys);
    GroupsPartition(events, keyOf, ItemOf);
    forall k | 0 <= k < |keys| ensures GoesOutAs(GroupOf(events, keyOf, keys[k]), Outputs(events, keyOf, keys)[k]) {
      GroupPayloads(events, keyOf, keys[k]);
    }
  }

  predicate GoesOutAs(group: seq<OpEvent>, output: Output) {
    && Payloads(output) == MapAll(group, ItemOf)
    && (output.Bulk? <==> |group| > 1)
    && group != [] && group[0] == (if output.Bulk? then output.first else output.event)
  }

  // `Array.from(generatedEvents.values())`.
  function ValuesOf(m: Manager): seq<OpEvent>
    requires forall id :: id in m.order ==> id in m.events
  {
    seq(|m.order|, k requires 0 <= k < |m.order| => m.events[m.order[k]])
  }

  /** Every batch's events can be grouped without loss: a table event carries its own id as its table, so no other
    * event shares its key. */
  lemma BatchTablesApart(entries: seq<Entry>)
    ensures var m := FeedAll(EMPTY, entries);
            (forall id :: id in m.order ==> id in m.events) && TablesApart(ValuesOf(m), GroupKey)
  {
    var m := FeedAll(EMPTY, entries);
    forall id ensures id in m.order ==> id in m.events {
      OneEventPerDocument(entries, id);
    }
    var events := ValuesOf(m);
    forall i, j | 0 <= i < j < |events| && GroupKey(events[i]) == GroupKey(events[j])
      ensures !events[i].id.docType.Table? && !events[j].id.docType.Table?
    {
      OneEventPerDocument(entries, m.order[i]);
      OneEventPerDocument(entries, m.order[j]);
      GroupKeyIsExact(events[i], events[j]);
    }
  }
}
