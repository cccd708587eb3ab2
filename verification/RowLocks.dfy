/** The order in which `lockRecordsSql` locks rows, and transactions that lock rows in that order. */
module RowLocks {
  import opened Wrappers

  type Id = string

  /* The order of ids, by code units. */

  predicate Less(a: Id, b: Id) {
    if b == "" then false
    else if a == "" then true
    else a[0] < b[0] || (a[0] == b[0] && Less(a[1..], b[1..]))
  }

  lemma {:induction false} LessTotal(a: Id, b: Id)
    ensures (Less(a, b) || Less(b, a)) <==> a != b
    ensures !(Less(a, b) && Less(b, a))
  {
    if a != "" && b != "" && a[0] == b[0] {
      LessTotal(a[1..], b[1..]);
      assert a == [a[0]] + a[1..] && b == [b[0]] + b[1..];
    }
  }

  lemma {:induction false} LessTransitive(a: Id, b: Id, c: Id)
    requires Less(a, b) && Less(b, c)
    ensures Less(a, c)
  {
    if a != "" && a[0] == b[0] == c[0] {
      LessTransitive(a[1..], b[1..], c[1..]);
    }
  }

  /* Any order a server may keep its ids in. */

  type Order = (Id, Id) -> bool

  ghost predicate StrictTotal(less: Order) {
    && (forall a, b :: (less(a, b) || less(b, a)) <==> a != b)
    && (forall a, b :: less(a, b) ==> !less(b, a))
    && (forall a, b, c :: less(a, b) && less(b, c) ==> less(a, c))
  }

  lemma LessIsStrictTotal()
    ensures StrictTotal(Less)
  {
    forall a, b ensures ((Less(a, b) || Less(b, a)) <==> a != b) && !(Less(a, b) && Less(b, a)) {
      LessTotal(a, b);
    }
    forall a, b, c | Less(a, b) && Less(b, c) ensures Less(a, c) {
      LessTransitive(a, b, c);
    }
  }

  predicate AscendingBy(less: Order, ids: seq<Id>) {
    forall j, k :: 0 <= j < k < |ids| ==> less(ids[j], ids[k])
  }

  predicate Ascending(ids: seq<Id>) {
    AscendingBy(Less, ids)
  }

  /* The query. */

  function NonEmpty(ids: seq<Id>): (kept: seq<Id>)
    ensures forall id :: id in kept <==> id in ids && id != ""
  {
    if ids == [] then [] else (if ids[0] == "" then [] else [ids[0]]) + NonEmpty(ids[1..])
  }

  // `Array.from(new Set(ids))`: each id where it occurs first.
  function Distinct(ids: seq<Id>): (distinct: seq<Id>)
    ensures forall id :: id in distinct <==> id in ids
    ensures forall j, k :: 0 <= j < k < |distinct| ==> distinct[j] != distinct[k]
  {
    if ids == [] then []
    else
      var before, last := Distinct(ids[..|ids| - 1]), ids[|ids| - 1];
      assert ids == ids[..|ids| - 1] + [last];
      if last in before then before else before + [last]
  }

  function Insert(id: Id, ids: seq<Id>): seq<Id> {
    if ids == [] || Less(id, ids[0]) then [id] + ids else [ids[0]] + Insert(id, ids[1..])
  }

  function Sort(ids: seq<Id>): seq<Id> {
    if ids == [] then [] else Insert(ids[0], Sort(ids[1..]))
  }

  // The ids of the rows, in the order they are locked; None when there is nothing to lock.
  function LockOrder(recordIds: seq<Id>): Option<seq<Id>> {
    var normalized := Distinct(NonEmpty(recordIds));
    if normalized == [] then None else Some(Sort(normalized))
  }

  lemma {:induction false} InsertKeeps(id: Id, ids: seq<Id>)
    requires Ascending(ids) && id !in ids
    ensures Ascending(Insert(id, ids))
    ensures forall x :: x in Insert(id, ids) <==> x == id || x in ids
  {
    if ids != [] {
      assert ids == [ids[0]] + ids[1..];
      if Less(id, ids[0]) {
        forall k | 0 <= k < |ids| ensures Less(id, ids[k]) {
          if k > 0 {
            LessTransitive(id, ids[0], ids[k]);
          }
        }
      } else {
        LessTotal(id, ids[0]);
        InsertKeeps(id, ids[1..]);
        var rest := Insert(id, ids[1..]);
        forall k | 0 <= k < |rest| ensures Less(ids[0], rest[k]) {
          assert rest[k] in rest;
        }
      }
    }
  }

  lemma {:induction false} SortKeeps(ids: seq<Id>)
    requires forall j, k :: 0 <= j < k < |ids| ==> ids[j] != ids[k]
    ensures Ascending(Sort(ids))
    ensures forall id :: id in Sort(ids) <==> id in ids
  {
    if ids != [] {
      SortKeeps(ids[1..]);
      assert ids == [ids[0]] + ids[1..];
      InsertKeeps(ids[0], Sort(ids[1..]));
    }
  }

  lemma {:induction false} AscendingUnique(a: seq<Id>, b: seq<Id>)
    requires Ascending(a) && Ascending(b) && forall id :: id in a <==> id in b
    ensures a == b
  {
    assert b != [] ==> b[0] in b;
    if a != [] {
      assert a[0] in a && a[0] in b;
      assert b[0] in b && b[0] in a;
      LeastFirst(a, b[0]);
      LeastFirst(b, a[0]);
      LessTotal(a[0], b[0]);
      TailMembers(a);
      TailMembers(b);
      AscendingUnique(a[1..], b[1..]);
    }
  }

  lemma LeastFirst(ids: seq<Id>, id: Id)
    requires Ascending(ids) && id in ids
    ensures id == ids[0] || Less(ids[0], id)
  {
    var k :| 0 <= k < |ids| && ids[k] == id;
  }

  lemma TailMembers(ids: seq<Id>)
    requires Ascending(ids) && ids != []
    ensures forall id :: id in ids[1..] <==> id in ids && id != ids[0]
  {
    assert ids == [ids[0]] + ids[1..];
    forall k | 1 <= k < |ids| ensures ids[k] != ids[0] {
      LessTotal(ids[0], ids[k]);
    }
  }

  /** The lock order lists every non-empty id once, ascending; it depends on which ids were asked for and on nothing
    * else, and there is none exactly when no id is non-empty. */
  lemma LockOrderIsCanonical(recordIds: seq<Id>, ids: seq<Id>)
    ensures LockOrder(recordIds) == Some(ids)
            <==> ids != [] && Ascending(ids) && forall id :: id in ids <==> id in recordIds && id != ""
    ensures LockOrder(recordIds).None? <==> forall id :: id in recordIds ==> id == ""
  {
    var normalized := Distinct(NonEmpty(recordIds));
    SortKeeps(normalized);
    if normalized != [] {
      assert normalized[0] in normalized;
      assert normalized[0] in Sort(normalized);
    }
    if Ascending(ids) && forall id :: id in ids <==> id in recordIds && id != "" {
      AscendingUnique(ids, Sort(normalized));
    }
  }

  /* Transactions that lock rows one at a time and release all of them at their end. */

  datatype Tx = Tx(wants: seq<Id>, got: nat, done: bool)

  type State = seq<Tx>

  predicate Valid(s: State) {
    forall i :: 0 <= i < |s| ==> s[i].got <= |s[i].wants|
  }

  function Started(plans: seq<seq<Id>>): (s: State)
    ensures Valid(s) && |s| == |plans|
  {
    seq(|plans|, (i: int) requires 0 <= i < |plans| => Tx(plans[i], 0, false))
  }

  predicate Holds(s: State, i: nat, id: Id)
    requires Valid(s)
  {
    i < |s| && !s[i].done && id in s[i].wants[..s[i].got]
  }

  predicate Wanting(s: State, i: nat) {
    i < |s| && !s[i].done && s[i].got < |s[i].wants|
  }

  function Next(s: State, i: nat): Id
    requires Wanting(s, i)
  {
    s[i].wants[s[i].got]
  }

  // Transaction `i` waits for a row that `j` has locked.
  predicate WaitsFor(s: State, i: nat, j: nat)
    requires Valid(s)
  {
    Wanting(s, i) && i != j && Holds(s, j, Next(s, i))
  }

  ghost predicate CanStep(s: State, i: nat)
    requires Valid(s)
  {
    i < |s| && !s[i].done && forall j: nat :: !WaitsFor(s, i, j)
  }

  // Locks the next row, or ends and releases.
  function Step(s: State, i: nat): (t: State)
    requires Valid(s) && i < |s|
    ensures Valid(t) && |t| == |s|
  {
    if Wanting(s, i) then s[i := s[i].(got := s[i].got + 1)] else s[i := s[i].(done := true)]
  }

  // The transactions step in this order, each when it can.
  ghost predicate Run(s: State, schedule: seq<nat>, t: State)
    requires Valid(s)
    decreases schedule
  {
    if schedule == [] then s == t
    else CanStep(s, schedule[0]) && Run(Step(s, schedule[0]), schedule[1..], t)
  }

  ghost predicate Exclusive(s: State)
    requires Valid(s)
  {
    forall i: nat, j: nat, id :: Holds(s, i, id) && Holds(s, j, id) ==> i == j
  }

  predicate AllAscending(less: Order, s: State) {
    forall i :: 0 <= i < |s| ==> AscendingBy(less, s[i].wants)
  }

  lemma StepKeepsExclusive(s: State, i: nat)
    requires Valid(s) && Exclusive(s) && CanStep(s, i)
    ensures Exclusive(Step(s, i))
  {
    var t := Step(s, i);
    forall j: nat, k: nat, id | Holds(t, j, id) && Holds(t, k, id) ensures j == k {
      HeldBefore(s, i, j, id);
      HeldBefore(s, i, k, id);
      assert !WaitsFor(s, i, j) && !WaitsFor(s, i, k);
    }
  }

  lemma HeldBefore(s: State, i: nat, j: nat, id: Id)
    requires Valid(s) && i < |s| && Holds(Step(s, i), j, id)
    ensures Holds(s, j, id) || (i == j && Wanting(s, i) && id == Next(s, i))
  {
    if i == j && Wanting(s, i) {
      assert s[i].wants[..s[i].got + 1] == s[i].wants[..s[i].got] + [Next(s, i)];
    }
  }

  lemma {:induction false} RunKeeps(less: Order, s: State, schedule: seq<nat>, t: State)
    requires Valid(s) && Exclusive(s) && AllAscending(less, s) && Run(s, schedule, t)
    ensures Valid(t) && Exclusive(t) && AllAscending(less, t)
    decreases schedule
  {
    if schedule != [] {
      StepKeepsExclusive(s, schedule[0]);
      RunKeeps(less, Step(s, schedule[0]), schedule[1..], t);
    }
  }

  /* Waiting follows the order of ids. */

  lemma WaitingAscends(less: Order, s: State, i: nat, j: nat)
    requires Valid(s) && AllAscending(less, s) && WaitsFor(s, i, j) && Wanting(s, j)
    ensures less(Next(s, i), Next(s, j))
  {
    var k :| 0 <= k < s[j].got && s[j].wants[k] == Next(s, i);
  }

  // Each transaction of the list waits for the one after it, the last for the first.
  predicate WaitCycle(s: State, cycle: seq<nat>)
    requires Valid(s)
  {
    cycle != [] && forall k :: 0 <= k < |cycle| ==> WaitsFor(s, cycle[k], cycle[if k + 1 < |cycle| then k + 1 else 0])
  }

  lemma {:induction false} CycleAscends(less: Order, s: State, cycle: seq<nat>, k: nat)
    requires StrictTotal(less) && Valid(s) && AllAscending(less, s) && WaitCycle(s, cycle) && 0 < k < |cycle|
    ensures Wanting(s, cycle[0]) && Wanting(s, cycle[k]) && less(Next(s, cycle[0]), Next(s, cycle[k]))
  {
    assert WaitsFor(s, cycle[k], cycle[if k + 1 < |cycle| then k + 1 else 0]);
    assert WaitsFor(s, cycle[k - 1], cycle[if k - 1 + 1 < |cycle| then k - 1 + 1 else 0]);
    WaitingAscends(less, s, cycle[k - 1], cycle[k]);
    if k > 1 {
      CycleAscends(less, s, cycle, k - 1);
    }
  }

  lemma NoCycle(less: Order, s: State, cycle: seq<nat>)
    requires StrictTotal(less) && Valid(s) && AllAscending(less, s)
    ensures !WaitCycle(s, cycle)
  {
    if WaitCycle(s, cycle) {
      var last := |cycle| - 1;
      assert WaitsFor(s, cycle[last], cycle[if last + 1 < |cycle| then last + 1 else 0]);
      if last > 0 {
        CycleAscends(less, s, cycle, last);
        WaitingAscends(less, s, cycle[last], cycle[0]);
      }
      assert false;
    }
  }

  // Among the first `n` transactions, one that wants the greatest id.
  lemma {:induction false} Greatest(less: Order, s: State, n: nat) returns (top: nat)
    requires StrictTotal(less) && n <= |s| && exists i: nat :: i < n && Wanting(s, i)
    ensures top < n && Wanting(s, top)
    ensures forall i: nat :: i < n && Wanting(s, i) ==> !less(Next(s, top), Next(s, i))
  {
    var i: nat :| i < n && Wanting(s, i);
    if forall j: nat :: j < n - 1 ==> !Wanting(s, j) {
      top := n - 1;
    } else {
      top := Greatest(less, s, n - 1);
      if Wanting(s, n - 1) && less(Next(s, top), Next(s, n - 1)) {
        top := n - 1;
      }
    }
  }

  lemma SomeoneCanStep(less: Order, s: State) returns (i: nat)
    requires StrictTotal(less) && Valid(s) && AllAscending(less, s)
    requires exists j: nat :: j < |s| && !s[j].done
    ensures CanStep(s, i)
  {
    if j: nat :| j < |s| && !s[j].done && !Wanting(s, j) {
      i := j;
    } else {
      i := Greatest(less, s, |s|);
      forall j: nat ensures !WaitsFor(s, i, j) {
        if WaitsFor(s, i, j) {
          WaitingAscends(less, s, i, j);
        }
      }
    }
  }

  /* How much is left to do. */

  function Remaining(s: State): nat
    requires Valid(s)
  {
    if s == [] then 0
    else
      var last := s[|s| - 1];
      Remaining(s[..|s| - 1]) + if last.done then 0 else |last.wants| - last.got + 1
  }

  lemma {:induction false} StepRemaining(s: State, i: nat)
    requires Valid(s) && i < |s| && !s[i].done
    ensures Remaining(Step(s, i)) == Remaining(s) - 1
  {
    var n, t := |s| - 1, Step(s, i);
    if i == n {
      assert t[..n] == s[..n];
    } else {
      assert t[..n] == Step(s[..n], i);
      StepRemaining(s[..n], i);
    }
  }

  lemma {:induction false} NothingRemains(s: State)
    requires Valid(s)
    ensures Remaining(s) == 0 <==> forall i :: 0 <= i < |s| ==> s[i].done
  {
    if s != [] {
      var n := |s| - 1;
      NothingRemains(s[..n]);
      assert forall i :: 0 <= i < n ==> s[..n][i] == s[i];
    }
  }

  lemma {:induction false} RunRemaining(s: State, schedule: seq<nat>, t: State)
    requires Valid(s) && Valid(t) && Run(s, schedule, t)
    ensures Remaining(s) == Remaining(t) + |schedule|
    decreases schedule
  {
    if schedule != [] {
      StepRemaining(s, schedule[0]);
      RunRemaining(Step(s, schedule[0]), schedule[1..], t);
    }
  }

  predicate Finished(s: State) {
    forall i :: 0 <= i < |s| ==> s[i].done
  }

  ghost predicate Stuck(s: State)
    requires Valid(s)
  {
    !Finished(s) && forall i: nat :: !CanStep(s, i)
  }

  // Every plan is what the server locks for one query: the rows there are of those asked for, in its own order of ids.
  predicate Planned(less: Order, queries: seq<seq<Id>>, plans: seq<seq<Id>>) {
    |plans| == |queries| && forall i :: 0 <= i < |plans| ==> Locks(less, queries[i], plans[i])
  }

  predicate Locks(less: Order, recordIds: seq<Id>, plan: seq<Id>) {
    var ids := LockOrder(recordIds);
    ids.Some? && AscendingBy(less, plan) && forall k :: 0 <= k < |plan| ==> plan[k] in ids.value
  }

  /** Whatever the server's collation, however many transactions lock the rows of one query each, in every state they
    * reach no row is locked twice, nobody waits in a circle, and somebody can step until all have ended; and they end
    * after so many steps, whoever steps. */
  lemma OrderedLockingCannotDeadlock(less: Order, queries: seq<seq<Id>>, plans: seq<seq<Id>>, schedule: seq<nat>,
                                     t: State)
    requires StrictTotal(less) && Planned(less, queries, plans) && Run(Started(plans), schedule, t)
    ensures Valid(t) && Exclusive(t) && !Stuck(t)
    ensures forall cycle :: !WaitCycle(t, cycle)
    ensures |schedule| <= Remaining(Started(plans))
    ensures |schedule| == Remaining(Started(plans)) <==> Finished(t)
  {
    var s := Started(plans);
    RunKeeps(less, s, schedule, t);
    RunRemaining(s, schedule, t);
    NothingRemains(t);
    forall cycle ensures !WaitCycle(t, cycle) {
      NoCycle(less, t, cycle);
    }
    if !Finished(t) {
      var i := SomeoneCanStep(less, t);
    }
  }

  /** The order in which the query lists its ids is one such order. */
  lemma LockOrderLocks(recordIds: seq<Id>)
    requires LockOrder(recordIds).Some?
    ensures StrictTotal(Less) && Locks(Less, recordIds, LockOrder(recordIds).value)
  {
    LessIsStrictTotal();
    LockOrderIsCanonical(recordIds, LockOrder(recordIds).value);
  }

  /** Without a common order two transactions can lock each other out. */
  lemma OppositeOrdersDeadlock(a: Id, b: Id)
    requires a != b
    ensures exists t :: Run(Started([[a, b], [b, a]]), [0, 1], t) && Valid(t) && WaitCycle(t, [0, 1]) && Stuck(t)
  {
    var s := Started([[a, b], [b, a]]);
    var s1 := Step(s, 0);
    var s2 := Step(s1, 1);
    assert s == [Tx([a, b], 0, false), Tx([b, a], 0, false)];
    assert s1 == [Tx([a, b], 1, false), Tx([b, a], 0, false)];
    assert s2 == [Tx([a, b], 1, false), Tx([b, a], 1, false)];
    assert [b, a][..0] == [] && [a, b][..1] == [a] && [b, a][..1] == [b];
    assert CanStep(s, 0) && CanStep(s1, 1);
    assert [0, 1][1..] == [1] && [1][1..] == [];
    assert Run(s2, [], s2) && Run(s1, [1], s2);
    assert Run(s, [0, 1], s2);
    assert WaitsFor(s2, 0, 1) && WaitsFor(s2, 1, 0);
  }
}
