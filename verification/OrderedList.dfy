/** The functions of `update-order.ts`, over the list that their callbacks read and change. */
module OrderedLists {
  import opened Wrappers
  import opened OrderKeys

  class OrderedList {
    var items: seq<Item>

    // the lists that further calls of `shuffle` will leave; a move that needs more of them has not ended
    var upcoming: seq<seq<Item>>

    // `Number.EPSILON * 2`
    const eps: real

    constructor (items: seq<Item>, upcoming: seq<seq<Item>>, eps: real)
      requires eps > 0.0
      ensures this.items == items && this.upcoming == upcoming && this.eps == eps
    {
      this.items, this.upcoming, this.eps := items, upcoming, eps;
    }

    method Shuffle()
      requires upcoming != []
      modifies this
      ensures items == old(upcoming)[0] && upcoming == old(upcoming)[1..]
    {
      items := upcoming[0];
      upcoming := upcoming[1..];
    }

    // The state is what a move leaves behind.
    ghost predicate Left(outcome: Outcome, ended: bool)
      reads this
    {
      match outcome
      case Updated(after, rest) => ended && items == after && upcoming == rest
      case StillNarrow(last) => !ended && items == last && upcoming == []
    }

    // Moves one item beside the anchor whose order is `a`; `ended` is false if more shuffles would be needed.
    method UpdateOrder(side: Side, id: Id, a: real) returns (ended: bool)
      modifies this
      ensures Left(MoveOne(eps, old(items), old(upcoming), side, a, id), ended)
      decreases |upcoming|
    {
      var next := Nearest(items, side, a);
      var order := if next.Some? then (next.value + a) / 2.0 else a + if side.Before? then -1.0 else 1.0;
      if (if order < a then a - order else order - a) < eps {
        if upcoming == [] {
          return false;
        }
        RetryOne(eps, items, upcoming, side, a, id);
        Shuffle();
        ended := UpdateOrder(side, id, a);
        return;
      }
      items := WithOrder(items, id, order);
      ended := true;
    }

    // Moves several items beside the anchor; the callback gives them the new orders one by one.
    method UpdateMultipleOrders(side: Side, ids: seq<Id>, a: real) returns (ended: bool)
      modifies this
      ensures Left(MoveMany(eps, old(items), old(upcoming), side, a, ids), ended)
      decreases |upcoming|
    {
      var next := Nearest(items, side, a);
      var nextOrder := if next.Some? then next.value else a + if side.Before? then -1.0 else 1.0;
      var space := a - nextOrder;
      var gap := (if space < 0.0 then -space else space) / (|ids| + 1) as real;
      assert gap == Gap(items, side, a, |ids|);
      if gap < eps {
        if upcoming == [] {
          return false;
        }
        RetryMany(eps, items, upcoming, side, a, ids);
        Shuffle();
        ended := UpdateMultipleOrders(side, ids, a);
        return;
      }
      var orderBase := if side.Before? then nextOrder else a;
      var newItems := seq(|ids|, (index: int) => Key(orderBase, gap, index));
      assert newItems == NewOrders(items, side, a, |ids|);
      items := WithOrders(items, ids, newItems);
      ended := true;
    }
  }

  lemma RetryOne(eps: real, items: seq<Item>, upcoming: seq<seq<Item>>, side: Side, a: real, id: Id)
    requires upcoming != [] && NarrowForOne(eps, side, a, items)
    ensures MoveOne(eps, items, upcoming, side, a, id) == MoveOne(eps, upcoming[0], upcoming[1..], side, a, id)
  {
    var narrow := list => NarrowForOne(eps, side, a, list);
    var rest := upcoming[1..];
    var more := Shuffles(narrow, upcoming[0], rest);
    if more.Some? {
      assert rest[more.value..] == upcoming[more.value + 1..];
    }
  }

  lemma RetryMany(eps: real, items: seq<Item>, upcoming: seq<seq<Item>>, side: Side, a: real, ids: seq<Id>)
    requires upcoming != [] && NarrowForMany(eps, side, a, |ids|, items)
    ensures MoveMany(eps, items, upcoming, side, a, ids) == MoveMany(eps, upcoming[0], upcoming[1..], side, a, ids)
  {
    var narrow := list => NarrowForMany(eps, side, a, |ids|, list);
    var rest := upcoming[1..];
    var more := Shuffles(narrow, upcoming[0], rest);
    if more.Some? {
      assert rest[more.value..] == upcoming[more.value + 1..];
    }
  }
}
