/** Disciplined runs get somewhere: some event is always enabled, a run without errors is short, and when it is
  * over one caller computed the value, every other caller was served from the cache, and the counters say so.
  */
module SingleFlightCompletion {
  import opened Wrappers
  import opened SingleFlight
  import opened SingleFlightExact

  predicate Finished(pc: Pc) {
    pc.Returned? || pc.Threw?
  }

  // Disciplined, and nothing throws, fails or aborts.
  predicate Quiet(e: Event) {
    Broken(e) == None && !e.FnThrows? && !e.AcquireFails? && !e.Abort?
  }

  // A quiet event for a caller at `pc`.
  function NextEvent(c: nat, pc: Pc): Event {
    match pc
    case Start => Begin(c, true)
    case Queued => Acquire(c)
    case Admitted => Enter(c)
    case Rereading => Event.Reread(c, true)
    case Running(_) => FnReturns(c, Null)
    case Storing(_, _) => Store(c, true)
    case _ => Release(c)
  }

  /** No deadlock: while some call is unfinished, some quiet event can happen. */
  lemma SomeoneCanStep(s: State, i: nat)
    requires Clean(s) && i < |s.callers| && !Finished(s.callers[i].pc)
    requires s.lock.Some? ==> s.lock.value < |s.callers|
    ensures exists e :: Quiet(e) && Step(s, e).Some?
  {
    assert CleanCaller(s, i, s.callers[i]);
    var c := if s.lock.Some? then s.lock.value else i;
    assert CleanCaller(s, c, s.callers[c]);
    assert Quiet(NextEvent(c, s.callers[c].pc)) && Step(s, NextEvent(c, s.callers[c].pc)).Some?;
  }

  lemma {:induction false} LockHolderExists(s0: State, trace: seq<Event>)
    requires Init(s0) && Run(s0, trace).Some?
    ensures var s := Run(s0, trace).value;
            |s.callers| == |s0.callers| && (s.lock.Some? ==> s.lock.value < |s.callers|)
  {
    if trace != [] {
      LockHolderExists(s0, trace[..|trace| - 1]);
    }
  }

  /* Every quiet event uses up a step. */

  function Remaining(pc: Pc): nat {
    match pc
    case Start => 7
    case Queued => 6
    case Admitted => 5
    case Rereading => 4
    case Running(_) => 3
    case Storing(_, _) => 2
    case Leaving(_) => 1
    case Backoff => 0
    case Returned(_) => 0
    case Threw => 0
  }

  function TotalRemaining(callers: seq<Caller>): nat {
    if callers == [] then 0
    else TotalRemaining(callers[..|callers| - 1]) + Remaining(callers[|callers| - 1].pc)
  }

  lemma {:induction false} TotalUpdate(callers: seq<Caller>, c: nat, caller: Caller)
    requires c < |callers|
    ensures TotalRemaining(callers[c := caller]) + Remaining(callers[c].pc)
            == TotalRemaining(callers) + Remaining(caller.pc)
  {
    var n := |callers| - 1;
    if c == n {
      assert callers[c := caller][..n] == callers[..n];
    } else {
      assert callers[c := caller][..n] == callers[..n][c := caller];
      TotalUpdate(callers[..n], c, caller);
    }
  }

  lemma {:induction false} TotalAtStart(callers: seq<Caller>)
    requires forall i :: 0 <= i < |callers| ==> Fresh(callers[i])
    ensures TotalRemaining(callers) == 7 * |callers|
  {
    if callers != [] {
      TotalAtStart(callers[..|callers| - 1]);
    }
  }

  // Who was served from the cache.
  predicate Served(caller: Caller) {
    caller.runs == 0 && (caller.pc.Leaving? || caller.pc.Returned?)
  }

  function ServedCount(callers: seq<Caller>): nat {
    if callers == [] then 0
    else ServedCount(callers[..|callers| - 1]) + if Served(callers[|callers| - 1]) then 1 else 0
  }

  lemma {:induction false} ServedUpdate(callers: seq<Caller>, c: nat, caller: Caller)
    requires c < |callers|
    ensures ServedCount(callers[c := caller]) + (if Served(callers[c]) then 1 else 0)
            == ServedCount(callers) + (if Served(caller) then 1 else 0)
  {
    var n := |callers| - 1;
    if c == n {
      assert callers[c := caller][..n] == callers[..n];
    } else {
      assert callers[c := caller][..n] == callers[..n][c := caller];
      ServedUpdate(callers[..n], c, caller);
    }
  }

  lemma {:induction false} ServedAll(callers: seq<Caller>, k: int)
    requires forall i :: 0 <= i < |callers| ==> (Served(callers[i]) <==> i != k)
    ensures ServedCount(callers) == |callers| - (if 0 <= k < |callers| then 1 else 0)
  {
    if callers != [] {
      ServedAll(callers[..|callers| - 1], k);
    }
  }

  /* The invariant of a quiet run. */

  ghost predicate QuietCaller(s: State, i: nat, caller: Caller) {
    && caller.aborted == None
    && match caller.pc
       case Running(_) => caller.runs == 1
       case Storing(_, _) => caller.runs == 1 && |s.log| == 1 && s.log[0].caller == i && s.store == None
       case Leaving(outcome) =>
         outcome.Value? && |s.log| == 1 && caller.runs == if s.log[0].caller == i then 1 else 0
       case Returned(_) => |s.log| == 1 && caller.runs == if s.log[0].caller == i then 1 else 0
       case Backoff => false
       case Threw => false
       case _ => caller.runs == 0
  }

  ghost predicate Author(s: State) {
    s.log != [] ==>
      && s.log[0].caller < |s.callers|
      && var pc := s.callers[s.log[0].caller].pc; pc.Storing? || pc.Leaving? || pc.Returned?
  }

  ghost predicate QuietState(s: State) {
    && Clean(s)
    && (forall i :: 0 <= i < |s.callers| ==> QuietCaller(s, i, s.callers[i]))
    && Author(s)
    && s.stats.hits == ServedCount(s.callers)
    && s.stats.sets == (if s.store.Some? then 1 else 0)
  }

  lemma QuietActor(s: State, e: Event)
    requires QuietState(s) && Quiet(e) && Step(s, e).Some?
    ensures ByCaller(e)
    ensures var t := Step(s, e).value;
            && QuietCaller(t, e.c, t.callers[e.c]) && Author(t)
            && Remaining(t.callers[e.c].pc) < Remaining(s.callers[e.c].pc)
            && t.stats.sets == (if t.store.Some? then 1 else 0)
            && t.stats.hits + (if Served(s.callers[e.c]) then 1 else 0)
               == s.stats.hits + (if Served(t.callers[e.c]) then 1 else 0)
  {
    assert CleanCaller(s, e.c, s.callers[e.c]);
    assert QuietCaller(s, e.c, s.callers[e.c]);
    var eff := CallerStep(s, e.c, s.callers[e.c], e).value;
    assert Step(s, e).value.callers[e.c] == eff.caller;
  }

  lemma QuietOther(s: State, e: Event, i: nat)
    requires QuietState(s) && Quiet(e) && Step(s, e).Some? && ByCaller(e) && i < |s.callers| && i != e.c
    requires Clean(Step(s, e).value)
    ensures QuietCaller(Step(s, e).value, i, s.callers[i])
  {
    var t := Step(s, e).value;
    assert CleanCaller(s, e.c, s.callers[e.c]);
    assert QuietCaller(s, i, s.callers[i]) && CleanCaller(s, i, s.callers[i]) && CleanCaller(t, i, t.callers[i]);
  }

  lemma QuietStep(s: State, e: Event)
    requires QuietState(s) && Quiet(e) && Step(s, e).Some?
    ensures QuietState(Step(s, e).value)
    ensures TotalRemaining(Step(s, e).value.callers) < TotalRemaining(s.callers)
  {
    var t := Step(s, e).value;
    CleanStep(s, e);
    QuietActor(s, e);
    TotalUpdate(s.callers, e.c, t.callers[e.c]);
    ServedUpdate(s.callers, e.c, t.callers[e.c]);
    forall i | 0 <= i < |t.callers| && i != e.c ensures QuietCaller(t, i, t.callers[i]) {
      QuietOther(s, e, i);
    }
  }

  ghost predicate QuietStart(s0: State) {
    CleanStart(s0) && s0.stats.hits == 0 && s0.stats.sets == 0
  }

  lemma {:induction false} QuietRun(s0: State, trace: seq<Event>)
    requires QuietStart(s0) && Run(s0, trace).Some?
    requires forall i :: 0 <= i < |trace| ==> Quiet(trace[i])
    ensures QuietState(Run(s0, trace).value)
    ensures |trace| + TotalRemaining(Run(s0, trace).value.callers) <= 7 * |s0.callers|
  {
    if trace == [] {
      CleanFromStart(s0);
      TotalAtStart(s0.callers);
      ServedNone(s0.callers);
    } else {
      QuietRun(s0, trace[..|trace| - 1]);
      QuietStep(Run(s0, trace[..|trace| - 1]).value, trace[|trace| - 1]);
    }
  }

  lemma {:induction false} ServedNone(callers: seq<Caller>)
    requires forall i :: 0 <= i < |callers| ==> Fresh(callers[i])
    ensures ServedCount(callers) == 0
  {
    if callers != [] {
      ServedNone(callers[..|callers| - 1]);
    }
  }

  /** A quiet run has at most seven events per call; one that can go no further has finished every call with the
    * same value, computed once: one write, and one cache hit for each of the other calls. */
  lemma QuietRunsComplete(s0: State, trace: seq<Event>)
    requires QuietStart(s0) && |s0.callers| > 0 && Run(s0, trace).Some?
    requires forall i :: 0 <= i < |trace| ==> Quiet(trace[i])
    ensures |trace| <= 7 * |s0.callers|
    ensures var s := Run(s0, trace).value;
            (forall e :: Quiet(e) ==> Step(s, e).None?) ==>
              && |s.log| == 1 && s.store == Some(s.log[0].v)
              && (forall i :: 0 <= i < |s.callers| ==> s.callers[i].pc == Returned(s.log[0].v))
              && s.stats.sets == 1 && s.stats.hits == |s0.callers| - 1
  {
    QuietRun(s0, trace);
    LockHolderExists(s0, trace);
    var s := Run(s0, trace).value;
    if forall e :: Quiet(e) ==> Step(s, e).None? {
      forall i | 0 <= i < |s.callers|
        ensures |s.log| == 1 && s.store == Some(s.log[0].v) && s.callers[i].pc == Returned(s.log[0].v)
        ensures Served(s.callers[i]) <==> i != s.log[0].caller
      {
        if !Finished(s.callers[i].pc) {
          SomeoneCanStep(s, i);
        }
        assert CleanCaller(s, i, s.callers[i]) && QuietCaller(s, i, s.callers[i]);
      }
      assert s.callers[0].pc.Returned?;
      ServedAll(s.callers, s.log[0].caller);
    }
  }
}
