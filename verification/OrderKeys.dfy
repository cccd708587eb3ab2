/** Moving items of an ordered list next to an anchor, by giving them order keys between the keys of their
  * neighbours. */
module OrderKeys {
  import opened Wrappers

  type Id = string

  datatype Item = Item(id: Id, order: real)

  datatype Side = Before | After

  // `x` lies on the requested side of `a`.
  predicate Beyond(side: Side, a: real, x: real) {
    if side.Before? then x < a else a < x
  }

  // `x` lies on the requested side of `a`, not farther away than `o`.
  predicate UpTo(side: Side, a: real, x: real, o: real) {
    Beyond(side, a, x) && !Beyond(side, o, x)
  }

  function Distance(a: real, b: real): real { if a < b then b - a else a - b }

  // `getNextItem`: the order of the nearest item on the requested side.
  function Nearest(items: seq<Item>, side: Side, a: real): (nearest: Option<real>)
    ensures nearest.None? <==> forall i :: 0 <= i < |items| ==> !Beyond(side, a, items[i].order)
    ensures nearest.Some? ==> Beyond(side, a, nearest.value)
    ensures nearest.Some? ==> exists i :: 0 <= i < |items| && items[i].order == nearest.value
    ensures forall i :: 0 <= i < |items| && Beyond(side, a, items[i].order) ==>
              nearest.Some? && UpTo(side, a, nearest.value, items[i].order)
  {
    if items == [] then None
    else
      var rest, x := Nearest(items[..|items| - 1], side, a), items[|items| - 1].order;
      if Beyond(side, a, x) && (rest.None? || Beyond(side, x, rest.value)) then Some(x) else rest
  }

  function WithOrder(items: seq<Item>, id: Id, order: real): (after: seq<Item>)
    ensures |after| == |items|
    ensures forall i :: 0 <= i < |items| ==> after[i].id == items[i].id
    ensures forall i :: 0 <= i < |items| ==> after[i].order == if items[i].id == id then order else items[i].order
  {
    seq(|items|, (i: int) requires 0 <= i < |items| => if items[i].id == id then Item(id, order) else items[i])
  }

  function WithOrders(items: seq<Item>, ids: seq<Id>, orders: seq<real>): (after: seq<Item>)
    requires |ids| == |orders|
  {
    if ids == [] then items
    else WithOrder(WithOrders(items, ids[..|ids| - 1], orders[..|ids| - 1]), ids[|ids| - 1], orders[|ids| - 1])
  }

  /* The new keys. */

  function Step(side: Side): real { if side.Before? then -1.0 else 1.0 }

  function NewOrder(items: seq<Item>, side: Side, a: real): real {
    var nearest := Nearest(items, side, a);
    if nearest.Some? then (nearest.value + a) / 2.0 else a + Step(side)
  }

  function NextOrder(items: seq<Item>, side: Side, a: real): real {
    var nearest := Nearest(items, side, a);
    if nearest.Some? then nearest.value else a + Step(side)
  }

  function Gap(items: seq<Item>, side: Side, a: real, count: nat): real {
    Distance(a, NextOrder(items, side, a)) / (count + 1) as real
  }

  function NewOrders(items: seq<Item>, side: Side, a: real, count: nat): seq<real> {
    Keys(if side.Before? then NextOrder(items, side, a) else a, Gap(items, side, a, count), count)
  }

  function Key(base: real, gap: real, index: int): real {
    base + gap * (index + 1) as real
  }

  function Keys(base: real, gap: real, count: nat): seq<real> {
    seq(count, (i: int) => Key(base, gap, i))
  }

  /* Retrying: `shuffle` is called until the new keys are not too close, each call leaving one of the upcoming lists. */

  predicate NarrowForOne(eps: real, side: Side, a: real, items: seq<Item>) {
    Distance(NewOrder(items, side, a), a) < eps
  }

  predicate NarrowForMany(eps: real, side: Side, a: real, count: nat, items: seq<Item>) {
    Gap(items, side, a, count) < eps
  }

  lemma DividedLess(d: real, parts: real, eps: real)
    requires parts > 0.0
    ensures d / parts < eps <==> d < eps * parts
  {
    var part := d / parts;
    assert d == part * parts;
    if part < eps {
      assert (eps - part) * parts > 0.0;
    } else {
      assert (part - eps) * parts >= 0.0;
    }
  }

  /** A gap is wide enough exactly when it has room for the threshold around every moved item; where the anchor has no
    * neighbour, a space of one stands for the gap, all of it for a single item. */
  lemma NarrowMeans(eps: real, side: Side, a: real, count: nat, items: seq<Item>)
    ensures NarrowForOne(eps, side, a, items)
            <==> Distance(a, NextOrder(items, side, a)) < if Nearest(items, side, a).Some? then 2.0 * eps else eps
    ensures NarrowForMany(eps, side, a, count, items)
            <==> Distance(a, NextOrder(items, side, a)) < eps * (count + 1) as real
    ensures Nearest(items, side, a).None? ==> Distance(a, NextOrder(items, side, a)) == 1.0
  {
    DividedLess(Distance(a, NextOrder(items, side, a)), (count + 1) as real, eps);
  }

  // How often `shuffle` is called; None when every one of these lists is too narrow.
  function Shuffles(narrow: seq<Item> -> bool, items: seq<Item>, upcoming: seq<seq<Item>>): (shuffles: Option<nat>)
    ensures shuffles.Some? ==> shuffles.value <= |upcoming|
    decreases |upcoming|
  {
    if !narrow(items) then Some(0)
    else if upcoming == [] then None
    else
      var more := Shuffles(narrow, upcoming[0], upcoming[1..]);
      if more.Some? then Some(more.value + 1) else None
  }

  // The list after so many shuffles.
  function ListAfter(items: seq<Item>, upcoming: seq<seq<Item>>, shuffles: nat): seq<Item>
    requires shuffles <= |upcoming|
  {
    if shuffles == 0 then items else upcoming[shuffles - 1]
  }

  predicate FitsFirst(narrow: seq<Item> -> bool, items: seq<Item>, upcoming: seq<seq<Item>>, k: nat)
    requires k <= |upcoming|
  {
    && !narrow(ListAfter(items, upcoming, k))
    && forall j: nat :: j < k ==> narrow(ListAfter(items, upcoming, j))
  }

  /** There are `k` shuffles exactly when the list is too narrow before each of them and not after the last; so none or
    * one, if the first shuffle leaves a wide enough gap. */
  lemma {:induction false} ShufflesUntilWide(narrow: seq<Item> -> bool, items: seq<Item>, upcoming: seq<seq<Item>>,
                                             k: nat)
    requires k <= |upcoming|
    ensures Shuffles(narrow, items, upcoming) == Some(k) <==> FitsFirst(narrow, items, upcoming, k)
    decreases |upcoming|
  {
    assert ListAfter(items, upcoming, 0) == items;
    if k > 0 {
      var next, rest := upcoming[0], upcoming[1..];
      ShufflesUntilWide(narrow, next, rest, k - 1);
      forall j: nat | j < k ensures ListAfter(next, rest, j) == ListAfter(items, upcoming, j + 1) {
      }
      assert FitsFirst(narrow, items, upcoming, k) ==> narrow(items);
      if narrow(items) && FitsFirst(narrow, next, rest, k - 1) {
        forall j: nat | j < k ensures narrow(ListAfter(items, upcoming, j)) {
          if j > 0 {
            assert narrow(ListAfter(next, rest, j - 1));
          }
        }
      }
      if FitsFirst(narrow, items, upcoming, k) {
        forall j: nat | j < k - 1 ensures narrow(ListAfter(next, rest, j)) {
          assert narrow(ListAfter(items, upcoming, j + 1));
        }
      }
    }
  }

  lemma AtMostOneShuffle(narrow: seq<Item> -> bool, items: seq<Item>, upcoming: seq<seq<Item>>)
    requires upcoming != [] && !narrow(upcoming[0])
    ensures Shuffles(narrow, items, upcoming) == Some(if narrow(items) then 1 else 0)
  {
    ShufflesUntilWide(narrow, items, upcoming, 1);
  }

  /* Where the moved items land. */

  // No other item lies between `a` and a moved one, and the moved ones are on the requested side of `a`.
  predicate Lands(after: seq<Item>, side: Side, a: real, moved: set<Id>, skipped: set<Id>) {
    forall i :: 0 <= i < |after| && after[i].id in moved ==>
      Beyond(side, a, after[i].order) && Clear(after, side, a, after[i].order, moved + skipped)
  }

  // Only the items skipped may lie beyond `a` up to `o`.
  predicate Clear(items: seq<Item>, side: Side, a: real, o: real, skipped: set<Id>) {
    forall i :: 0 <= i < |items| && items[i].id !in skipped ==> !UpTo(side, a, items[i].order, o)
  }

  // The same items, with new orders for the moved ones only.
  predicate Moves(before: seq<Item>, after: seq<Item>, moved: set<Id>) {
    && |after| == |before|
    && forall i :: 0 <= i < |before| ==>
         after[i].id == before[i].id && (before[i].id !in moved ==> after[i] == before[i])
  }

  // The moved items are between `a` and the item that was nearest to it, if there was one.
  predicate MovesInto(before: seq<Item>, after: seq<Item>, side: Side, a: real, moved: set<Id>) {
    && Moves(before, after, moved)
    && forall i :: 0 <= i < |after| && after[i].id in moved ==>
         Beyond(side, a, after[i].order)
         && (Nearest(before, side, a).Some? ==> Beyond(side, after[i].order, Nearest(before, side, a).value))
  }

  /** Items moved between `a` and its nearest neighbour end up right beside an anchor exactly when `a` is its order,
    * or at least the anchor is not beyond `a` and nothing is between it and `a`: an anchor that a shuffle moved
    * elsewhere is not what they end up beside. */
  lemma BesideAnchorIff(before: seq<Item>, after: seq<Item>, side: Side, a: real, moved: set<Id>, anchor: nat)
    requires MovesInto(before, after, side, a, moved)
    requires anchor < |before| && before[anchor].id !in moved
    requires exists i :: 0 <= i < |after| && after[i].id in moved
    ensures Lands(after, side, before[anchor].order, moved, {before[anchor].id})
            <==> !Beyond(side, a, before[anchor].order)
                 && Clear(before, side, before[anchor].order, a, moved + {before[anchor].id})
  {
  }

  lemma CurrentAnchor(before: seq<Item>, after: seq<Item>, side: Side, moved: set<Id>, anchor: nat)
    requires anchor < |before| && before[anchor].id !in moved
    requires MovesInto(before, after, side, before[anchor].order, moved)
    ensures Lands(after, side, before[anchor].order, moved, {before[anchor].id})
  {
    if exists i :: 0 <= i < |after| && after[i].id in moved {
      BesideAnchorIff(before, after, side, before[anchor].order, moved, anchor);
    }
  }

  /* One item. */

  /** A single moved item lands halfway to the nearest neighbour, or one away from the anchor where there is none; all
    * other items stay. */
  lemma OneLands(items: seq<Item>, side: Side, a: real, id: Id)
    ensures var order := NewOrder(items, side, a);
            && Beyond(side, a, order)
            && (Nearest(items, side, a).Some? ==>
                  Beyond(side, order, NextOrder(items, side, a))
                  && Distance(a, order) == Distance(order, NextOrder(items, side, a)))
            && (Nearest(items, side, a).None? ==> Distance(a, order) == 1.0)
            && MovesInto(items, WithOrder(items, id, order), side, a, {id})
  {
  }

  /* Several items. */

  lemma KeyStep(base: real, gap: real, i: int)
    ensures Key(base, gap, i + 1) == Key(base, gap, i) + gap
    ensures Key(base, gap, -1) == base
  {
    assert (i + 2) as real == (i + 1) as real + 1.0;
  }

  lemma {:induction false} KeyAscends(base: real, gap: real, i: int, j: int)
    requires gap > 0.0 && i < j
    ensures Key(base, gap, i) < Key(base, gap, j)
    decreases j - i
  {
    KeyStep(base, gap, j - 1);
    if i < j - 1 {
      KeyAscends(base, gap, i, j - 1);
    }
  }

  lemma GapFills(items: seq<Item>, side: Side, a: real, count: nat)
    ensures Beyond(side, a, NextOrder(items, side, a))
    ensures Gap(items, side, a, count) > 0.0
    ensures Gap(items, side, a, count) * (count + 1) as real == Distance(a, NextOrder(items, side, a))
  {
    PartsFill(Distance(a, NextOrder(items, side, a)), (count + 1) as real);
  }

  lemma PartsFill(width: real, parts: real)
    requires width > 0.0 && parts > 0.0
    ensures width / parts > 0.0 && (width / parts) * parts == width
  {
  }

  // Keys that cut the space from `low` to `high` into equal parts.
  predicate Even(keys: seq<real>, gap: real, low: real, high: real) {
    && (forall i :: 0 <= i < |keys| ==> low < keys[i] < high)
    && (forall i, j :: 0 <= i < j < |keys| ==> keys[i] < keys[j])
    && (forall i :: 0 <= i < |keys| - 1 ==> keys[i + 1] - keys[i] == gap)
    && (keys != [] ==> keys[0] - low == gap && high - keys[|keys| - 1] == gap)
  }

  lemma KeysEven(base: real, gap: real, count: nat)
    requires gap > 0.0
    ensures Even(Keys(base, gap, count), gap, base, Key(base, gap, count))
  {
    var keys, high := Keys(base, gap, count), Key(base, gap, count);
    KeyStep(base, gap, count - 1);
    KeyStep(base, gap, -1);
    forall i | 0 <= i < |keys| ensures base < keys[i] < high {
      KeyStep(base, gap, -1);
      KeyAscends(base, gap, -1, i);
      KeyAscends(base, gap, i, count);
    }
    forall i, j | 0 <= i < j < |keys| ensures keys[i] < keys[j] {
      KeyAscends(base, gap, i, j);
    }
    forall i | 0 <= i < |keys| - 1 ensures keys[i + 1] - keys[i] == gap {
      KeyStep(base, gap, i);
    }
  }

  lemma EvenBetween(side: Side, a: real, next: real, gap: real, count: nat)
    requires Beyond(side, a, next) && gap > 0.0 && gap * (count + 1) as real == Distance(a, next)
    ensures Even(Keys(if side.Before? then next else a, gap, count), gap,
                 if side.Before? then next else a, if side.Before? then a else next)
  {
    var base := if side.Before? then next else a;
    KeysEven(base, gap, count);
    assert Key(base, gap, count) == if side.Before? then a else next;
  }

  /** The new keys of several items ascend strictly between the anchor's key and its neighbour's, or the one a whole
    * step away where there is none, and cut the space between the two into equal parts. */
  lemma KeysAreEven(items: seq<Item>, side: Side, a: real, count: nat)
    ensures |NewOrders(items, side, a, count)| == count
    ensures var next := NextOrder(items, side, a);
            && (Nearest(items, side, a).Some? ==> next == Nearest(items, side, a).value)
            && (Nearest(items, side, a).None? ==> Beyond(side, a, next) && Distance(a, next) == 1.0)
            && Even(NewOrders(items, side, a, count), Gap(items, side, a, count),
                    if side.Before? then next else a, if side.Before? then a else next)
  {
    GapFills(items, side, a, count);
    EvenBetween(side, a, NextOrder(items, side, a), Gap(items, side, a, count), count);
  }

  predicate DistinctIds(ids: seq<Id>) {
    forall i, j :: 0 <= i < j < |ids| ==> ids[i] != ids[j]
  }

  function OrderOf(ids: seq<Id>, orders: seq<real>, item: Item): real
    requires |ids| == |orders|
  {
    if ids == [] then item.order
    else if ids[|ids| - 1] == item.id then orders[|ids| - 1]
    else OrderOf(ids[..|ids| - 1], orders[..|ids| - 1], item)
  }

  lemma {:induction false} WithOrdersMeans(items: seq<Item>, ids: seq<Id>, orders: seq<real>)
    requires |ids| == |orders|
    ensures |WithOrders(items, ids, orders)| == |items|
    ensures forall i :: 0 <= i < |items| ==>
              WithOrders(items, ids, orders)[i] == Item(items[i].id, OrderOf(ids, orders, items[i]))
  {
    if ids != [] {
      WithOrdersMeans(items, ids[..|ids| - 1], orders[..|ids| - 1]);
    }
  }

  lemma {:induction false} OrderOfAt(ids: seq<Id>, orders: seq<real>, item: Item, k: nat)
    requires |ids| == |orders| && DistinctIds(ids) && k < |ids| && ids[k] == item.id
    ensures OrderOf(ids, orders, item) == orders[k]
  {
    var n := |ids| - 1;
    if k < n {
      OrderOfAt(ids[..n], orders[..n], item, k);
    }
  }

  lemma {:induction false} OrderOfOther(ids: seq<Id>, orders: seq<real>, item: Item)
    requires |ids| == |orders| && item.id !in ids
    ensures OrderOf(ids, orders, item) == item.order
  {
    if ids != [] {
      OrderOfOther(ids[..|ids| - 1], orders[..|ids| - 1], item);
    }
  }

  function IdSet(ids: seq<Id>): set<Id> { set id | id in ids }

  lemma PutOrders(items: seq<Item>, ids: seq<Id>, orders: seq<real>)
    requires |ids| == |orders| && DistinctIds(ids)
    ensures Moves(items, WithOrders(items, ids, orders), IdSet(ids))
    ensures forall i, k :: 0 <= i < |items| && 0 <= k < |ids| && items[i].id == ids[k] ==>
              WithOrders(items, ids, orders)[i].order == orders[k]
  {
    var after := WithOrders(items, ids, orders);
    WithOrdersMeans(items, ids, orders);
    forall i | 0 <= i < |items| && items[i].id !in ids ensures after[i] == items[i] {
      OrderOfOther(ids, orders, items[i]);
    }
    forall i, k | 0 <= i < |items| && 0 <= k < |ids| && items[i].id == ids[k] ensures after[i].order == orders[k] {
      OrderOfAt(ids, orders, items[i], k);
    }
  }

  predicate AllInto(orders: seq<real>, side: Side, a: real, next: real) {
    forall k :: 0 <= k < |orders| ==> Beyond(side, a, orders[k]) && Beyond(side, orders[k], next)
  }

  lemma KeysGoInto(items: seq<Item>, side: Side, a: real, count: nat)
    ensures AllInto(NewOrders(items, side, a, count), side, a, NextOrder(items, side, a))
  {
    KeysAreEven(items, side, a, count);
  }

  lemma PutInto(items: seq<Item>, side: Side, a: real, ids: seq<Id>, orders: seq<real>)
    requires |ids| == |orders| && DistinctIds(ids) && AllInto(orders, side, a, NextOrder(items, side, a))
    ensures MovesInto(items, WithOrders(items, ids, orders), side, a, IdSet(ids))
  {
    var after := WithOrders(items, ids, orders);
    PutOrders(items, ids, orders);
    forall i | 0 <= i < |items| && items[i].id in ids
      ensures Beyond(side, a, after[i].order) && Beyond(side, after[i].order, NextOrder(items, side, a))
    {
      var k :| 0 <= k < |ids| && ids[k] == items[i].id;
      assert after[i].order == orders[k];
    }
  }

  /** Several moved items get the new keys in their order, all others stay, and the moved ones are between the anchor's
    * key and its neighbour's. */
  lemma ManyLand(items: seq<Item>, side: Side, a: real, ids: seq<Id>)
    requires DistinctIds(ids)
    ensures MovesInto(items, WithOrders(items, ids, NewOrders(items, side, a, |ids|)), side, a, IdSet(ids))
    ensures forall i, k :: 0 <= i < |items| && 0 <= k < |ids| && items[i].id == ids[k] ==>
              WithOrders(items, ids, NewOrders(items, side, a, |ids|))[i].order == NewOrders(items, side, a, |ids|)[k]
  {
    var orders := NewOrders(items, side, a, |ids|);
    KeysGoInto(items, side, a, |ids|);
    PutOrders(items, ids, orders);
    PutInto(items, side, a, ids, orders);
  }

  /* A whole move. */

  // What a move leaves behind: the updated list and the shuffles not needed, or the last list when none was wide
  // enough.
  datatype Outcome = Updated(items: seq<Item>, rest: seq<seq<Item>>) | StillNarrow(items: seq<Item>)

  function MoveOne(eps: real, items: seq<Item>, upcoming: seq<seq<Item>>, side: Side, a: real, id: Id): Outcome {
    var shuffles := Shuffles(list => NarrowForOne(eps, side, a, list), items, upcoming);
    if shuffles.None? then StillNarrow(ListAfter(items, upcoming, |upcoming|))
    else
      var list := ListAfter(items, upcoming, shuffles.value);
      Updated(WithOrder(list, id, NewOrder(list, side, a)), upcoming[shuffles.value..])
  }

  function MoveMany(eps: real, items: seq<Item>, upcoming: seq<seq<Item>>, side: Side, a: real, ids: seq<Id>): Outcome {
    var shuffles := Shuffles(list => NarrowForMany(eps, side, a, |ids|, list), items, upcoming);
    if shuffles.None? then StillNarrow(ListAfter(items, upcoming, |upcoming|))
    else
      var list := ListAfter(items, upcoming, shuffles.value);
      Updated(WithOrders(list, ids, NewOrders(list, side, a, |ids|)), upcoming[shuffles.value..])
  }

  // The anchor is in the list, with this order.
  predicate AnchorAt(items: seq<Item>, anchor: Id, a: real) {
    exists i :: 0 <= i < |items| && items[i] == Item(anchor, a)
  }

  // Every shuffle keeps the anchor's order what the caller passed.
  predicate AnchorStays(items: seq<Item>, upcoming: seq<seq<Item>>, anchor: Id, a: real) {
    AnchorAt(items, anchor, a) && forall k :: 0 <= k < |upcoming| ==> AnchorAt(upcoming[k], anchor, a)
  }

  /** As long as shuffles leave the anchor's order alone, the moved item ends up right beside the anchor; and after at
    * most one shuffle, if the first one leaves a wide enough gap. */
  lemma MoveOneLands(eps: real, items: seq<Item>, upcoming: seq<seq<Item>>, side: Side, a: real, id: Id, anchor: Id)
    requires anchor != id && AnchorStays(items, upcoming, anchor, a)
    ensures var outcome := MoveOne(eps, items, upcoming, side, a, id);
            && (outcome.Updated? ==> Lands(outcome.items, side, a, {id}, {anchor}))
            && (upcoming != [] && !NarrowForOne(eps, side, a, upcoming[0]) ==>
                  outcome.Updated? && |outcome.rest| >= |upcoming| - 1)
  {
    var narrow := list => NarrowForOne(eps, side, a, list);
    var shuffles := Shuffles(narrow, items, upcoming);
    if upcoming != [] && !NarrowForOne(eps, side, a, upcoming[0]) {
      AtMostOneShuffle(narrow, items, upcoming);
    }
    if shuffles.Some? {
      var list := ListAfter(items, upcoming, shuffles.value);
      assert AnchorAt(list, anchor, a);
      var i :| 0 <= i < |list| && list[i] == Item(anchor, a);
      OneLands(list, side, a, id);
      CurrentAnchor(list, WithOrder(list, id, NewOrder(list, side, a)), side, {id}, i);
    }
  }

  lemma MoveManyLands(eps: real, items: seq<Item>, upcoming: seq<seq<Item>>, side: Side, a: real, ids: seq<Id>,
                      anchor: Id)
    requires DistinctIds(ids) && anchor !in ids && AnchorStays(items, upcoming, anchor, a)
    ensures var outcome := MoveMany(eps, items, upcoming, side, a, ids);
            && (outcome.Updated? ==> Lands(outcome.items, side, a, IdSet(ids), {anchor}))
            && (upcoming != [] && !NarrowForMany(eps, side, a, |ids|, upcoming[0]) ==>
                  outcome.Updated? && |outcome.rest| >= |upcoming| - 1)
  {
    var narrow := list => NarrowForMany(eps, side, a, |ids|, list);
    var shuffles := Shuffles(narrow, items, upcoming);
    if upcoming != [] && !NarrowForMany(eps, side, a, |ids|, upcoming[0]) {
      AtMostOneShuffle(narrow, items, upcoming);
    }
    if shuffles.Some? {
      var list := ListAfter(items, upcoming, shuffles.value);
      assert AnchorAt(list, anchor, a);
      var i :| 0 <= i < |list| && list[i] == Item(anchor, a);
      ManyLand(list, side, a, ids);
      CurrentAnchor(list, WithOrders(list, ids, NewOrders(list, side, a, |ids|)), side, IdSet(ids), i);
    }
  }

  // The list that was updated, as it was before.
  function ListUpdated(items: seq<Item>, upcoming: seq<seq<Item>>, outcome: Outcome): seq<Item> {
    if outcome.Updated? && |outcome.rest| <= |upcoming| then ListAfter(items, upcoming, |upcoming| - |outcome.rest|)
    else items
  }

  // What was moved is right beside the anchor's current order exactly when the order passed is still in place.
  ghost predicate BesideIffInPlace(list: seq<Item>, after: seq<Item>, side: Side, a: real, moved: set<Id>, anchor: nat)
    requires anchor < |list|
  {
    var b, skipped := list[anchor].order, {list[anchor].id};
    Lands(after, side, b, moved, skipped) <==> !Beyond(side, a, b) && Clear(list, side, b, a, moved + skipped)
  }

  // Some moved item is in the list.
  predicate HasMoved(list: seq<Item>, moved: set<Id>) {
    exists i :: 0 <= i < |list| && list[i].id in moved
  }

  /** For a whole move, whatever the shuffles do: once the list has been updated the moved item is right beside the
    * anchor if and only if, in the list updated, the anchor is not beyond the order the caller passed and nothing
    * lies between the two. The anchor itself is where the last shuffle left it. */
  lemma MoveOneBesideIff(eps: real, items: seq<Item>, upcoming: seq<seq<Item>>, side: Side, a: real, id: Id,
                         anchor: nat)
    requires MoveOne(eps, items, upcoming, side, a, id).Updated?
    requires var list := ListUpdated(items, upcoming, MoveOne(eps, items, upcoming, side, a, id));
             anchor < |list| && list[anchor].id != id && HasMoved(list, {id})
    ensures var outcome := MoveOne(eps, items, upcoming, side, a, id);
            var list := ListUpdated(items, upcoming, outcome);
            && |outcome.items| == |list| && outcome.items[anchor] == list[anchor]
            && BesideIffInPlace(list, outcome.items, side, a, {id}, anchor)
  {
    var outcome := MoveOne(eps, items, upcoming, side, a, id);
    var list := ListUpdated(items, upcoming, outcome);
    OneLands(list, side, a, id);
    HasMovedAfter(list, outcome.items, {id});
    BesideAnchorIff(list, outcome.items, side, a, {id}, anchor);
  }

  lemma MoveManyBesideIff(eps: real, items: seq<Item>, upcoming: seq<seq<Item>>, side: Side, a: real, ids: seq<Id>,
                          anchor: nat)
    requires DistinctIds(ids) && MoveMany(eps, items, upcoming, side, a, ids).Updated?
    requires var list := ListUpdated(items, upcoming, MoveMany(eps, items, upcoming, side, a, ids));
             anchor < |list| && list[anchor].id !in ids && HasMoved(list, IdSet(ids))
    ensures var outcome := MoveMany(eps, items, upcoming, side, a, ids);
            var list := ListUpdated(items, upcoming, outcome);
            && |outcome.items| == |list| && outcome.items[anchor] == list[anchor]
            && BesideIffInPlace(list, outcome.items, side, a, IdSet(ids), anchor)
  {
    var outcome := MoveMany(eps, items, upcoming, side, a, ids);
    var list := ListUpdated(items, upcoming, outcome);
    ManyLand(list, side, a, ids);
    HasMovedAfter(list, outcome.items, IdSet(ids));
    BesideAnchorIff(list, outcome.items, side, a, IdSet(ids), anchor);
  }

  lemma HasMovedAfter(before: seq<Item>, after: seq<Item>, moved: set<Id>)
    requires HasMoved(before, moved) && Moves(before, after, moved)
    ensures HasMoved(after, moved)
  {
    var i :| 0 <= i < |before| && before[i].id in moved;
    assert after[i].id in moved;
  }

  /** A shuffle that renumbers the anchor too defeats the move, at any threshold the code could use: the item goes
    * behind another one that follows the anchor. */
  lemma StaleAnchorMisses(eps: real)
    requires 0.0 < eps <= 1.0
    ensures var items := [Item("anchor", 3.0), Item("next", 3.0 + eps), Item("moved", 9.0)];
            var shuffled := [Item("anchor", 1.0), Item("next", 2.0), Item("moved", 3.0)];
            var outcome := MoveOne(eps, items, [shuffled], After, 3.0, "moved");
            && outcome.Updated?
            && outcome.items == [Item("anchor", 1.0), Item("next", 2.0), Item("moved", 4.0)]
            && !Lands(outcome.items, After, 1.0, {"moved"}, {"anchor"})
  {
    var items := [Item("anchor", 3.0), Item("next", 3.0 + eps), Item("moved", 9.0)];
    var shuffled := [Item("anchor", 1.0), Item("next", 2.0), Item("moved", 3.0)];
    assert items[1].order == 3.0 + eps && Beyond(After, 3.0, items[1].order);
    assert Nearest(items, After, 3.0) == Some(3.0 + eps);
    assert Nearest(shuffled, After, 3.0) == None;
    var narrow := list => NarrowForOne(eps, After, 3.0, list);
    assert narrow(items) && !narrow(shuffled);
    AtMostOneShuffle(narrow, items, [shuffled]);
    var after := WithOrder(shuffled, "moved", 4.0);
    assert after == [Item("anchor", 1.0), Item("next", 2.0), Item("moved", 4.0)];
    assert after[2].id == "moved" && after[1].id == "next" && UpTo(After, 1.0, after[1].order, after[2].order);
  }
}
