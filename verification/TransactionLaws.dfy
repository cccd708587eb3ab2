/** What order means for a whole run: who is called back, what is closed, and when two transactions are open at once. */
module TransactionLaws {
  import opened Wrappers
  import opened Transactions

  function Start(bound: set<Service>): Monitor {
    Monitor([], 0, bound, None, false)
  }

  // The events of a request that starts outside of any transaction.
  function Trace(shared: bool, p: Prog, bound: set<Service>): seq<Event> {
    Meaning(shared, p, OUTSIDE, 0, bound).events
  }

  lemma TraceInOrder(shared: bool, p: Prog, bound: set<Service>)
    ensures InOrder(shared, Start(bound), Trace(shared, p, bound))
    ensures WatchAll(Start(bound), Trace(shared, p, bound)).open == []
    ensures WatchAll(Start(bound), Trace(shared, p, bound)).due == None
    ensures WatchAll(Start(bound), Trace(shared, p, bound)).raised <==> !Meaning(shared, p, OUTSIDE, 0, bound).finishes
  {
    assert Enclosing([]) == OUTSIDE;
    ProgramsKeepOrder(shared, p, Start(bound));
  }

  function At(m: Monitor, t: seq<Event>, i: nat): Monitor
    requires i <= |t|
  {
    WatchAll(m, t[..i])
  }

  lemma {:induction false} StepAt(shared: bool, m: Monitor, t: seq<Event>, i: nat)
    requires InOrder(shared, m, t) && i < |t|
    ensures Allowed(shared, At(m, t, i), t[i])
    ensures At(m, t, i + 1) == Watch(At(m, t, i), t[i])
    decreases |t|
  {
    assert t[..i + 1][..i] == t[..i];
    var n := |t| - 1;
    if i < n {
      assert t[..n][..i] == t[..i];
      StepAt(shared, m, t[..n], i);
    }
  }

  /* Callbacks. */

  predicate BoundBefore(bound: set<Service>, t: seq<Event>, i: nat, service: Service)
    requires i <= |t|
  {
    service in bound || Bound(service) in t[..i]
  }

  lemma {:induction false} BoundAt(shared: bool, bound: set<Service>, t: seq<Event>, i: nat, service: Service)
    requires InOrder(shared, Start(bound), t) && i <= |t|
    ensures service in At(Start(bound), t, i).bound <==> BoundBefore(bound, t, i, service)
  {
    if i > 0 {
      BoundAt(shared, bound, t, i - 1, service);
      StepAt(shared, Start(bound), t, i - 1);
      assert t[..i] == t[..i - 1] + [t[i - 1]];
    }
  }

  // The callback of this transaction is to run as event `i`.
  predicate DueAt(bound: set<Service>, t: seq<Event>, i: nat, service: Service, id: nat)
    requires i <= |t|
  {
    i > 0 && t[i - 1] == Committed(service, id) && BoundBefore(bound, t, i - 1, service)
  }

  lemma DueMeans(shared: bool, bound: set<Service>, t: seq<Event>, i: nat, service: Service, id: nat)
    requires InOrder(shared, Start(bound), t) && i <= |t|
    ensures At(Start(bound), t, i).due == Some((service, id)) <==> DueAt(bound, t, i, service, id)
  {
    if i > 0 {
      StepAt(shared, Start(bound), t, i - 1);
      BoundAt(shared, bound, t, i - 1, service);
    }
  }

  predicate CallbackAt(t: seq<Event>, i: nat, service: Service, id: nat) {
    i < |t| && t[i].IsCallbackOf(service, id)
  }

  /** A callback runs right after the commit of a transaction of its service, if one was bound by then, and only
    * there. */
  lemma CallbackAfterCommit(shared: bool, p: Prog, bound: set<Service>, i: nat, service: Service, id: nat)
    requires i <= |Trace(shared, p, bound)|
    ensures CallbackAt(Trace(shared, p, bound), i, service, id)
            <==> DueAt(bound, Trace(shared, p, bound), i, service, id)
  {
    var t := Trace(shared, p, bound);
    TraceInOrder(shared, p, bound);
    DueMeans(shared, bound, t, i, service, id);
    if i < |t| {
      StepAt(shared, Start(bound), t, i);
    } else {
      assert t[..i] == t;
    }
  }

  /* Every transaction ends once. */

  predicate Ends(e: Event, id: nat) {
    (e.Committed? || e.RolledBack? || e.CommitFailed?) && e.id == id
  }

  predicate IsOpen(m: Monitor, id: nat) {
    exists k :: 0 <= k < |m.open| && m.open[k].1 == id
  }

  // Transactions are numbered in the order they open.
  predicate Numbered(m: Monitor) {
    && (forall j, k :: 0 <= j < k < |m.open| ==> m.open[j].1 < m.open[k].1)
    && (forall k :: 0 <= k < |m.open| ==> m.open[k].1 < m.next)
  }

  lemma {:induction false} NumberedAt(shared: bool, m: Monitor, t: seq<Event>, i: nat)
    requires Numbered(m) && InOrder(shared, m, t) && i <= |t|
    ensures Numbered(At(m, t, i))
  {
    if i > 0 {
      NumberedAt(shared, m, t, i - 1);
      StepAt(shared, m, t, i - 1);
    }
  }

  predicate Gone(m: Monitor, id: nat) {
    id < m.next && !IsOpen(m, id)
  }

  lemma GoneStays(shared: bool, m: Monitor, e: Event, id: nat)
    requires Gone(m, id) && Allowed(shared, m, e)
    ensures Gone(Watch(m, e), id)
  {
    var after := Watch(m, e);
    forall k | 0 <= k < |after.open| ensures after.open[k].1 != id {
      assert k < |m.open| ==> after.open[k] == m.open[k];
    }
  }

  lemma {:induction false} GoneFrom(shared: bool, m: Monitor, t: seq<Event>, i: nat, j: nat, id: nat)
    requires Numbered(m) && InOrder(shared, m, t) && i < j <= |t| && Ends(t[i], id)
    ensures Gone(At(m, t, j), id)
  {
    StepAt(shared, m, t, j - 1);
    NumberedAt(shared, m, t, j - 1);
    var before, after := At(m, t, j - 1), At(m, t, j);
    if i == j - 1 {
      assert after.open == Outer(before.open);
    } else {
      GoneFrom(shared, m, t, i, j - 1, id);
      GoneStays(shared, before, t[j - 1], id);
    }
  }

  predicate OpensAt(t: seq<Event>, i: nat, service: Service, id: nat) {
    i < |t| && t[i] == Opened(service, id)
  }

  /** A transaction that has ended neither ends again nor opens again. */
  lemma EndsOnce(shared: bool, p: Prog, bound: set<Service>, i: nat, j: nat, id: nat)
    requires i < j < |Trace(shared, p, bound)| && Ends(Trace(shared, p, bound)[i], id)
    ensures !Ends(Trace(shared, p, bound)[j], id)
    ensures forall service :: Trace(shared, p, bound)[j] != Opened(service, id)
  {
    var t := Trace(shared, p, bound);
    TraceInOrder(shared, p, bound);
    GoneFrom(shared, Start(bound), t, i, j, id);
    StepAt(shared, Start(bound), t, j);
    var m := At(Start(bound), t, j);
    assert m.open != [] && m.open[|m.open| - 1].1 == id ==> IsOpen(m, id);
  }

  lemma {:induction false} OpenUntilEnded(shared: bool, bound: set<Service>, t: seq<Event>, i: nat, j: nat, id: nat)
    requires InOrder(shared, Start(bound), t) && i < j <= |t| && t[i].Opened? && t[i].id == id
    requires forall k :: i < k < j ==> !Ends(t[k], id)
    ensures IsOpen(At(Start(bound), t, j), id)
  {
    StepAt(shared, Start(bound), t, j - 1);
    var before, after := At(Start(bound), t, j - 1), At(Start(bound), t, j);
    if i == j - 1 {
      assert after.open[|after.open| - 1].1 == id;
    } else {
      OpenUntilEnded(shared, bound, t, i, j - 1, id);
      var k :| 0 <= k < |before.open| && before.open[k].1 == id;
      assert k < |after.open| && after.open[k].1 == id;
    }
  }

  /** And every transaction that opens does end. */
  lemma EveryOpenedEnds(shared: bool, p: Prog, bound: set<Service>, i: nat, service: Service, id: nat)
    requires OpensAt(Trace(shared, p, bound), i, service, id)
    ensures exists j :: i < j < |Trace(shared, p, bound)| && Ends(Trace(shared, p, bound)[j], id)
  {
    var t := Trace(shared, p, bound);
    TraceInOrder(shared, p, bound);
    assert t[..|t|] == t;
    if forall j :: i < j < |t| ==> !Ends(t[j], id) {
      OpenUntilEnded(shared, bound, t, i, |t|, id);
      assert false;
    }
  }

  /* What a caller of `$tx` learns. */

  // The outcome of the body, in the transaction opened for it.
  ghost function BodyOutcome(shared: bool, service: Service, fn: Prog, m: Monitor): Outcome {
    Meaning(shared, fn, Inside(Enclosing(m.open), service, m.next), m.next + 1, m.bound)
  }

  // What is open in the end has not ended on the way.
  lemma OpenHasNotEnded(shared: bool, m: Monitor, t: seq<Event>, id: nat)
    requires Numbered(m) && InOrder(shared, m, t) && IsOpen(WatchAll(m, t), id)
    ensures forall e :: e in t ==> !Ends(e, id)
  {
    assert t[..|t|] == t;
    forall i: nat | i < |t| ensures !Ends(t[i], id) {
      if Ends(t[i], id) {
        GoneFrom(shared, m, t, i, |t|, id);
        assert false;
      }
    }
  }

  // While the body runs its transaction stays open.
  lemma BodyDoesNotEndIt(shared: bool, service: Service, fn: Prog, m: Monitor)
    requires Ready(m) && Numbered(m)
    ensures forall e :: e in BodyOutcome(shared, service, fn, m).events ==> !Ends(e, m.next)
  {
    var inside := Watch(m, Opened(service, m.next));
    EnclosingInside(m.open, service, m.next);
    ProgramsKeepOrder(shared, fn, inside);
    assert inside.open[|m.open|].1 == m.next;
    OpenHasNotEnded(shared, inside, BodyOutcome(shared, service, fn, m).events, m.next);
  }

  /** A transaction opened for a call commits exactly when it opens, its body returns and the database commits; and the
    * call returns exactly when it commits and no bound callback throws. */
  lemma CommittedIff(shared: bool, service: Service, fn: Prog, fate: Fate, m: Monitor)
    requires Ready(m) && Numbered(m) && !Joins(shared, m.open, service)
    ensures var outcome, body := Run(shared, Tx(service, fn, fate), m), BodyOutcome(shared, service, fn, m);
            && (Committed(service, m.next) in outcome.events <==> fate.opens && body.finishes && fate.commits)
            && (outcome.finishes <==> Committed(service, m.next) in outcome.events
                                      && (service in body.bound ==> fate.callbackReturns))
            && (!outcome.finishes && Committed(service, m.next) in outcome.events ==>
                  CallbackThrew(service, m.next) in outcome.events)
  {
    AmbientIsRight(shared, m.open, service);
    if fate.opens {
      var start := [Opened(service, m.next), Entered(service, InTx(service, m.next))];
      var inner := BodyOutcome(shared, service, fn, m);
      var all := AfterEvents(start, inner);
      BodyDoesNotEndIt(shared, service, fn, m);
      assert Committed(service, m.next) !in inner.events by {
        assert Ends(Committed(service, m.next), m.next);
      }
      assert Committed(service, m.next) !in all.events;
      assert Run(shared, Tx(service, fn, fate), m) == Finished(service, m.next, fate, all);
    }
  }

  /* Two transactions at once. */

  // No service has two transactions open; on a shared database only a meta transaction opens inside another one.
  predicate Nested(shared: bool, open: seq<(Service, nat)>) {
    |open| <= 1
    || (|open| == 2 && open[0].0 != open[1].0 && (shared ==> open[0].0 == Data && open[1].0 == Meta))
  }

  lemma {:induction false} NestedAt(shared: bool, p: Prog, bound: set<Service>, i: nat)
    requires i <= |Trace(shared, p, bound)|
    ensures Nested(shared, At(Start(bound), Trace(shared, p, bound), i).open)
  {
    if i > 0 {
      var t := Trace(shared, p, bound);
      NestedAt(shared, p, bound, i - 1);
      TraceInOrder(shared, p, bound);
      StepAt(shared, Start(bound), t, i - 1);
      AllowedKeepsNested(shared, At(Start(bound), t, i - 1), t[i - 1]);
    }
  }

  lemma AllowedKeepsNested(shared: bool, m: Monitor, e: Event)
    requires Nested(shared, m.open) && Allowed(shared, m, e)
    ensures Nested(shared, Watch(m, e).open)
  {
    if e.Opened? && m.open != [] {
      assert m.open[0].0 == e.service ==> Busy(m.open, e.service);
      assert m.open[0].0 == Meta ==> Busy(m.open, Meta);
      assert m.open[|m.open| - 1].0 == e.service ==> Busy(m.open, e.service);
    }
  }

  /** A data transaction started inside a meta one joins it when the databases are one; the other way round a second
    * transaction opens on that same database. */
  lemma MetaInsideDataOpensSecond(fn: Prog, fate: Fate, bound: set<Service>)
    requires fate.opens
    ensures Trace(true, Tx(Data, Tx(Meta, fn, fate), fate), bound)[..3]
            == [Opened(Data, 0), Entered(Data, InTx(Data, 0)), Opened(Meta, 1)]
    ensures Trace(true, Tx(Meta, Tx(Data, fn, fate), fate), bound)[..3]
            == [Opened(Meta, 0), Entered(Meta, InTx(Meta, 0)), Entered(Data, InTx(Meta, 0))]
  {
    DataThenMeta(fn, fate, bound);
    MetaThenData(fn, fate, bound);
  }

  lemma DataThenMeta(fn: Prog, fate: Fate, bound: set<Service>)
    requires fate.opens
    ensures |Trace(true, Tx(Data, Tx(Meta, fn, fate), fate), bound)| >= 3
    ensures Trace(true, Tx(Data, Tx(Meta, fn, fate), fate), bound)[..3]
            == [Opened(Data, 0), Entered(Data, InTx(Data, 0)), Opened(Meta, 1)]
  {
    var inside := Inside(OUTSIDE, Data, 0);
    var inner := Meaning(true, Tx(Meta, fn, fate), inside, 1, bound);
    assert inner.events[0] == Opened(Meta, 1);
  }

  lemma MetaThenData(fn: Prog, fate: Fate, bound: set<Service>)
    requires fate.opens
    ensures |Trace(true, Tx(Meta, Tx(Data, fn, fate), fate), bound)| >= 3
    ensures Trace(true, Tx(Meta, Tx(Data, fn, fate), fate), bound)[..3]
            == [Opened(Meta, 0), Entered(Meta, InTx(Meta, 0)), Entered(Data, InTx(Meta, 0))]
  {
    var inside := Inside(OUTSIDE, Meta, 0);
    var inner := Meaning(true, Tx(Data, fn, fate), inside, 1, bound);
    assert inner.events[0] == Entered(Data, InTx(Meta, 0));
  }
}
