/** When a transaction opens while another one is open: for every program, and for a shared database by the program's
  * text. */
module TransactionOverlap {
  import opened Wrappers
  import opened Transactions
  import opened TransactionLaws

  /* In the events. */

  predicate OpensWithin(m: Monitor, e: Event) {
    e.Opened? && m.open != []
  }

  // Some transaction opens while another one is open.
  predicate Overlaps(m: Monitor, events: seq<Event>) {
    if events == [] then false
    else
      var before := events[..|events| - 1];
      Overlaps(m, before) || OpensWithin(WatchAll(m, before), events[|events| - 1])
  }

  lemma OverlapsOne(m: Monitor, e: Event)
    ensures Overlaps(m, [e]) <==> OpensWithin(m, e)
  {
    assert [e][..0] == [];
  }

  lemma {:induction false} OverlapsConcat(shared: bool, m: Monitor, a: seq<Event>, b: seq<Event>)
    ensures Overlaps(m, a + b) <==> Overlaps(m, a) || Overlaps(WatchAll(m, a), b)
  {
    if b == [] {
      assert a + b == a;
    } else {
      assert (a + b)[..|a + b| - 1] == a + b[..|b| - 1];
      WatchConcat(shared, m, a, b[..|b| - 1]);
      OverlapsConcat(shared, m, a, b[..|b| - 1]);
    }
  }

  lemma {:induction false} OverlapsAt(m: Monitor, t: seq<Event>)
    ensures Overlaps(m, t) <==> exists i: nat :: i < |t| && OpensWithin(At(m, t, i), t[i])
  {
    if t != [] {
      var n := |t| - 1;
      OverlapsAt(m, t[..n]);
      assert forall i: nat :: i <= n ==> t[..n][..i] == t[..i];
      assert forall i: nat :: i < n ==> At(m, t[..n], i) == At(m, t, i) && t[..n][i] == t[i];
      if Overlaps(m, t[..n]) {
        var i: nat :| i < n && OpensWithin(At(m, t[..n], i), t[..n][i]);
        assert OpensWithin(At(m, t, i), t[i]);
      }
      if i: nat :| i < |t| && OpensWithin(At(m, t, i), t[i]) {
        if i < n {
          assert OpensWithin(At(m, t[..n], i), t[..n][i]);
        }
      }
    }
  }

  /* In the program. */

  // A call is reached that opens its own transaction inside another one.
  predicate Reaches(shared: bool, p: Prog, env: Env, next: nat, bound: set<Service>) {
    match p
    case Use(_) => false
    case Bind(_) => false
    case Throw => false
    case Then(first, second) =>
      var one := Meaning(shared, first, env, next, bound);
      Reaches(shared, first, env, next, bound)
      || (one.finishes && Reaches(shared, second, env, one.next, one.bound))
    case Try(body, handler) =>
      var one := Meaning(shared, body, env, next, bound);
      Reaches(shared, body, env, next, bound)
      || (!one.finishes && Reaches(shared, handler, env, one.next, one.bound))
    case Tx(service, fn, fate) =>
      if Ambient(shared, env, service).Some? then Reaches(shared, fn, env, next, bound)
      else fate.opens && (env != OUTSIDE || Reaches(shared, fn, Inside(env, service, next), next + 1, bound))
  }

  lemma OutsideIff(open: seq<(Service, nat)>)
    ensures Enclosing(open) == OUTSIDE <==> open == []
  {
    if open != [] {
      assert Busy(open, open[0].0);
    }
  }

  /** Exactly the programs that reach such a call open a transaction while another one is open. */
  lemma {:induction false} OverlapIffReached(shared: bool, p: Prog, m: Monitor)
    requires Ready(m)
    ensures Overlaps(m, Run(shared, p, m).events) <==> Reaches(shared, p, Enclosing(m.open), m.next, m.bound)
    decreases p, 0
  {
    match p
    case Use(service) => OverlapsOne(m, Used(service, ClientFor(shared, Enclosing(m.open), service)));
    case Bind(service) => OverlapsOne(m, Bound(service));
    case Throw =>
    case Then(first, second) =>
      var one := Run(shared, first, m);
      OverlapIffReached(shared, first, m);
      ProgramsKeepOrder(shared, first, m);
      if one.finishes {
        ReachedNext(shared, m, one, second);
      }
    case Try(body, handler) =>
      var one := Run(shared, body, m);
      OverlapIffReached(shared, body, m);
      ProgramsKeepOrder(shared, body, m);
      if !one.finishes {
        var caught := one.(finishes := true, events := one.events + [Caught]);
        EndsWith(shared, m, one.events, Left(m, one), Caught, Left(m, caught));
        OneMoreOverlaps(shared, m, one.events, Caught);
        ReachedNext(shared, m, caught, handler);
      }
    case Tx(service, fn, fate) =>
      var ambient := Ambient(shared, Enclosing(m.open), service);
      if ambient.Some? {
        var entered := Entered(service, ambient.value);
        WatchOne(shared, m, entered);
        OverlapsOne(m, entered);
        OverlapsConcat(shared, m, [entered], Run(shared, fn, m).events);
        OverlapIffReached(shared, fn, m);
      } else if !fate.opens {
        OverlapsOne(m, OpenFailed(service));
      } else {
        OpenedReaches(shared, service, fn, fate, m);
      }
  }

  lemma {:induction false} ReachedNext(shared: bool, m: Monitor, one: Outcome, second: Prog)
    requires Ready(m) && one.finishes && Passes(shared, m, one.events, Left(m, one))
    ensures var two := Meaning(shared, second, Enclosing(m.open), one.next, one.bound);
            Overlaps(m, one.events + two.events)
            <==> Overlaps(m, one.events) || Reaches(shared, second, Enclosing(m.open), one.next, one.bound)
    decreases second, 1
  {
    var mid := Left(m, one);
    OverlapIffReached(shared, second, mid);
    OverlapsConcat(shared, m, one.events, Run(shared, second, mid).events);
  }

  lemma OneMoreOverlaps(shared: bool, m: Monitor, events: seq<Event>, e: Event)
    requires !e.Opened?
    ensures Overlaps(m, events + [e]) <==> Overlaps(m, events)
  {
    OverlapsOne(WatchAll(m, events), e);
    OverlapsConcat(shared, m, events, [e]);
  }

  lemma {:induction false} OpenedReaches(shared: bool, service: Service, fn: Prog, fate: Fate, m: Monitor)
    requires Ready(m) && Ambient(shared, Enclosing(m.open), service).None? && fate.opens
    ensures Overlaps(m, Run(shared, Tx(service, fn, fate), m).events)
            <==> Reaches(shared, Tx(service, fn, fate), Enclosing(m.open), m.next, m.bound)
    decreases fn, 1
  {
    var inside := Watch(m, Opened(service, m.next));
    OverlapIffReached(shared, fn, inside);
    CallOverlaps(shared, service, fate, m, Run(shared, fn, inside));
    RunOpens(shared, service, fn, fate, m);
    ReachesOpened(shared, service, fn, fate, m);
  }

  lemma ReachesOpened(shared: bool, service: Service, fn: Prog, fate: Fate, m: Monitor)
    requires Ambient(shared, Enclosing(m.open), service).None? && fate.opens
    ensures var inside := Watch(m, Opened(service, m.next));
            Reaches(shared, Tx(service, fn, fate), Enclosing(m.open), m.next, m.bound)
            <==> m.open != [] || Reaches(shared, fn, Enclosing(inside.open), inside.next, inside.bound)
  {
    OutsideIff(m.open);
    EnclosingInside(m.open, service, m.next);
  }

  // The events of a call that opens a transaction, around those of its body.
  lemma CallOverlaps(shared: bool, service: Service, fate: Fate, m: Monitor, inner: Outcome)
    ensures Overlaps(m, CallOutcome(service, fate, m, inner).events)
            <==> m.open != [] || Overlaps(Watch(m, Opened(service, m.next)), inner.events)
  {
    var start := Opening(service, m.next);
    OpeningOverlaps(shared, service, m);
    OverlapsConcat(shared, m, start, inner.events);
    EndingDoesNotOverlap(shared, service, m.next, fate, m, AfterEvents(start, inner));
  }

  lemma OpeningOverlaps(shared: bool, service: Service, m: Monitor)
    ensures var start := Opening(service, m.next);
            && WatchAll(m, start) == Watch(m, Opened(service, m.next))
            && (Overlaps(m, start) <==> m.open != [])
  {
    var opening, entered := Opened(service, m.next), Entered(service, InTx(service, m.next));
    var inside := Watch(m, opening);
    WatchOne(shared, m, opening);
    WatchOne(shared, inside, entered);
    OverlapsOne(m, opening);
    OverlapsOne(inside, entered);
    WatchConcat(shared, m, [opening], [entered]);
    OverlapsConcat(shared, m, [opening], [entered]);
    assert [opening] + [entered] == [opening, entered];
  }

  lemma EndingDoesNotOverlap(shared: bool, service: Service, id: nat, fate: Fate, m: Monitor, inner: Outcome)
    ensures Overlaps(m, Finished(service, id, fate, inner).events) <==> Overlaps(m, inner.events)
  {
    var committed := inner.events + [Committed(service, id)];
    OneMoreOverlaps(shared, m, inner.events, RolledBack(service, id));
    OneMoreOverlaps(shared, m, inner.events, CommitFailed(service, id));
    OneMoreOverlaps(shared, m, inner.events, Committed(service, id));
    OneMoreOverlaps(shared, m, committed, CallbackRan(service, id));
    OneMoreOverlaps(shared, m, committed, CallbackThrew(service, id));
    assert committed + [CallbackRan(service, id)] == inner.events + [Committed(service, id), CallbackRan(service, id)];
    assert committed + [CallbackThrew(service, id)]
        == inner.events + [Committed(service, id), CallbackThrew(service, id)];
  }

  /* On a shared database, by the text of the program. */

  // Somewhere a meta `$tx` stands inside a data one with no meta one around it.
  predicate MetaUnderData(p: Prog, inMeta: bool, inData: bool) {
    match p
    case Use(_) => false
    case Bind(_) => false
    case Throw => false
    case Then(first, second) => MetaUnderData(first, inMeta, inData) || MetaUnderData(second, inMeta, inData)
    case Try(body, handler) => MetaUnderData(body, inMeta, inData) || MetaUnderData(handler, inMeta, inData)
    case Tx(service, fn, _) =>
      (service.Meta? && inData && !inMeta) || MetaUnderData(fn, inMeta || service.Meta?, inData || service.Data?)
  }

  // More transactions around a program in the text than are open never make it safer.
  lemma {:induction false} MetaUnderDataReached(p: Prog, env: Env, inMeta: bool, inData: bool, next: nat,
                                                bound: set<Service>)
    requires env.meta.Some? <==> inMeta
    requires env.data.Some? ==> inData
    requires Reaches(true, p, env, next, bound)
    ensures MetaUnderData(p, inMeta, inData)
    decreases p
  {
    match p
    case Then(first, second) =>
      var one := Meaning(true, first, env, next, bound);
      if Reaches(true, first, env, next, bound) {
        MetaUnderDataReached(first, env, inMeta, inData, next, bound);
      } else {
        MetaUnderDataReached(second, env, inMeta, inData, one.next, one.bound);
      }
    case Try(body, handler) =>
      var one := Meaning(true, body, env, next, bound);
      if Reaches(true, body, env, next, bound) {
        MetaUnderDataReached(body, env, inMeta, inData, next, bound);
      } else {
        MetaUnderDataReached(handler, env, inMeta, inData, one.next, one.bound);
      }
    case Tx(service, fn, fate) =>
      if Ambient(true, env, service).Some? {
        MetaUnderDataReached(fn, env, inMeta || service.Meta?, inData || service.Data?, next, bound);
      } else if env == OUTSIDE {
        var inside := Inside(env, service, next);
        MetaUnderDataReached(fn, inside, inMeta || service.Meta?, inData || service.Data?, next + 1, bound);
      }
  }

  /** On a shared database a request without a meta `$tx` under a data one never opens a transaction while another
    * one is open. */
  lemma OneTransactionAtATime(p: Prog, bound: set<Service>, i: nat)
    requires !MetaUnderData(p, false, false) && i < |Trace(true, p, bound)|
    ensures Trace(true, p, bound)[i].Opened? ==> At(Start(bound), Trace(true, p, bound), i).open == []
  {
    var m, t := Start(bound), Trace(true, p, bound);
    assert Enclosing([]) == OUTSIDE;
    OverlapIffReached(true, p, m);
    OverlapsAt(m, t);
    if OpensWithin(At(m, t, i), t[i]) {
      MetaUnderDataReached(p, OUTSIDE, false, false, 0, bound);
      assert false;
    }
  }

  /** And wherever a meta `$tx` is called with a data transaction around it and no meta one, at any depth, a second
    * transaction opens as soon as the database lets it; a call of any other kind opens none. */
  lemma SecondOpensIff(service: Service, fn: Prog, fate: Fate, m: Monitor)
    requires Ready(m) && m.open != []
    ensures Run(true, Tx(service, fn, fate), m).events != []
    ensures OpensWithin(m, Run(true, Tx(service, fn, fate), m).events[0])
            <==> service.Meta? && Enclosing(m.open).data.Some? && Enclosing(m.open).meta.None? && fate.opens
  {
    OutsideIff(m.open);
    if Ambient(true, Enclosing(m.open), service).None? && fate.opens {
      var inner := Run(true, fn, Watch(m, Opened(service, m.next)));
      EnclosingInside(m.open, service, m.next);
    }
  }
}
