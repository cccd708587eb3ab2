/** What the reads, the results and the faults of a call decide, in every run and whatever fails; and what the counters
  * say in the end.
  */
module SingleFlightReads {
  import opened Wrappers
  import opened SingleFlight

  predicate IsRead(e: Event) {
    e.Begin? || e.Reread? || e.Retry?
  }

  predicate Answered(e: Event)
    requires IsRead(e)
  {
    e.ok
  }

  // The read brings nothing: the cache is off, the read is skipped or fails, or the store is empty.
  predicate Missed(s: State, o: Options, ok: bool) {
    !s.available || o.skipGet || !ok || s.store.None?
  }

  // The call is over with this value, but for the lock it may hold.
  predicate EndsWith(caller: Caller, v: Json) {
    caller.pc == Returned(v) || caller.pc == Leaving(Value(v))
  }

  predicate Enabled(s: State, e: Event) {
    ByCaller(e) && e.c < |s.callers| && Step(s, e).Some?
  }

  function Before(s: State, e: Event): Caller
    requires Enabled(s, e)
  {
    s.callers[e.c]
  }

  function After(s: State, e: Event): Caller
    requires Enabled(s, e)
  {
    Step(s, e).value.callers[e.c]
  }

  /** A read that brings a value ends the call with that value and starts nothing. */
  lemma HitEndsTheCall(s: State, e: Event)
    requires Enabled(s, e) && IsRead(e) && !Missed(s, Before(s, e).options, Answered(e))
    ensures EndsWith(After(s, e), s.store.value) && After(s, e).runs == Before(s, e).runs
    ensures After(s, e).pc.Leaving? <==> e.Reread?
  {
  }

  /** A read that brings nothing starts `fn`, unless the first read queues for the lock or the lock has been lost before
    * the second. */
  lemma MissStartsFn(s: State, e: Event)
    requires Enabled(s, e) && IsRead(e) && Missed(s, Before(s, e).options, Answered(e))
    ensures var before, after := Before(s, e), After(s, e);
            var waits := e.Begin? && s.available && before.options.preventConcurrent && s.redlock;
            var lost := e.Reread? && before.aborted.Some?;
            && (waits ==> after.pc == Queued && after.runs == before.runs)
            && (lost ==> after.pc == Leaving(Raised(before.aborted.value)) && after.runs == before.runs)
            && (!waits && !lost ==> after.pc.Running? && after.runs == before.runs + 1)
            && (after.pc.Running? && after.pc.mode == UnderLock <==> e.Reread? && !lost)
            && (after.pc.Running? && after.pc.mode == Uncached <==> !s.available && e.Begin?)
  {
  }

  // The counters that a read of the store moves: exactly one of them.
  lemma ReadMovesOneCounter(s: State, e: Event)
    requires Enabled(s, e) && IsRead(e)
    ensures var o, was, now := Before(s, e).options, s.stats, Step(s, e).value.stats;
            && now.sets == was.sets
            && (!s.available || o.skipGet ==> now == was)
            && (s.available && !o.skipGet ==>
                  && now.hits - was.hits == (if e.ok && s.store.Some? then 1 else 0)
                  && now.misses - was.misses == (if e.ok && s.store.None? then 1 else 0)
                  && now.errors - was.errors == (if e.ok then 0 else 1))
  {
  }

  /** A result is handed on as it is when the cache is off or the write is skipped, turned into an error for want of a
    * ttl, and else written, whether it was computed with the lock or without. */
  lemma ResultIsWritten(s: State, e: Event)
    requires Enabled(s, e) && e.FnReturns?
    ensures var before, after := Before(s, e), After(s, e);
            var skips := before.pc.mode == Uncached || before.options.skipSet;
            && (skips ==> EndsWith(after, e.v))
            && (!skips && !before.options.hasTtl ==> after.pc == Threw || after.pc == Leaving(Raised(OtherFault)))
            && (!skips && before.options.hasTtl ==> after.pc == Storing(before.pc.mode, e.v))
            && (after.pc.Leaving? ==> before.pc.mode == UnderLock)
            && Step(s, e).value.log == s.log + [Completion(e.c, e.v)]
  {
  }

  /** A write that works leaves the value in the store; one that fails leaves the store alone; the call ends with the
    * value either way. */
  lemma WriteKeepsTheValue(s: State, e: Event)
    requires Enabled(s, e) && e.Store?
    ensures var v, t := Before(s, e).pc.v, Step(s, e).value;
            && EndsWith(After(s, e), v)
            && t.store == (if e.ok then Some(v) else s.store)
            && t.stats == (if e.ok then s.stats.(sets := s.stats.sets + 1) else s.stats.(errors := s.stats.errors + 1))
  {
  }

  /** Lock errors lead to the fallback, other errors of the locked section are counted and rethrown, and an error of
    * `fn` without the lock is rethrown as it is. */
  lemma FaultsAreRouted(s: State, e: Event)
    requires Enabled(s, e)
    ensures var before, after, t := Before(s, e), After(s, e), Step(s, e).value;
            && (e.AcquireFails? ==> Routed(s, t, e.c, e.fault))
            && (e.Release? && before.pc.outcome.Raised? ==> Routed(s, t, e.c, before.pc.outcome.fault))
            && (e.Release? && before.pc.outcome.Value? ==> after.pc == Returned(before.pc.outcome.v))
            && (e.ReleaseFails? ==> Routed(s, t, e.c, LockFault))
            && (e.FnThrows? && before.pc.mode == UnderLock ==> after.pc == Leaving(Raised(e.fault)))
            && (e.FnThrows? && before.pc.mode != UnderLock ==> after.pc == Threw && t.stats == s.stats)
            && (e.Enter? && before.aborted.Some? ==> after.pc == Leaving(Raised(before.aborted.value)))
            && (e.Enter? && before.aborted.None? ==> after.pc == Rereading)
  {
  }

  predicate Routed(s: State, t: State, c: nat, fault: Fault)
    requires c < |s.callers| && c < |t.callers|
  {
    if fault == LockFault then t.callers[c].pc == Backoff && t.callers[c].lockFaulted && t.stats == s.stats
    else t.callers[c].pc == Threw && t.stats == s.stats.(errors := s.stats.errors + 1)
  }

  /* Over whole runs. */

  function At(s0: State, trace: seq<Event>, i: nat): Option<State>
    requires i <= |trace|
  {
    Run(s0, trace[..i])
  }

  lemma {:induction false} RunsUpTo(s0: State, trace: seq<Event>, i: nat)
    requires Run(s0, trace).Some? && i <= |trace|
    ensures At(s0, trace, i).Some?
    ensures i < |trace| ==> Step(At(s0, trace, i).value, trace[i]) == At(s0, trace, i + 1) && At(s0, trace, i + 1).Some?
    decreases |trace|
  {
    assert trace[..|trace|] == trace;
    if i < |trace| {
      assert trace[..i + 1][..i] == trace[..i];
      var n := |trace| - 1;
      if i < n {
        RunsUpTo(s0, trace[..n], i);
        assert trace[..n][..i] == trace[..i] && trace[..n][..i + 1] == trace[..i + 1];
      }
    }
  }

  ghost predicate SameSetUp(s: State, t: State) {
    && t.available == s.available && |t.callers| == |s.callers|
    && forall c :: 0 <= c < |s.callers| ==> t.callers[c].options == s.callers[c].options
  }

  lemma StepKeepsSetUp(s: State, e: Event)
    requires Step(s, e).Some?
    ensures SameSetUp(s, Step(s, e).value)
  {
  }

  lemma {:induction false} SetUpStays(s0: State, trace: seq<Event>)
    requires Run(s0, trace).Some?
    ensures SameSetUp(s0, Run(s0, trace).value)
  {
    if trace != [] {
      var n := |trace| - 1;
      SetUpStays(s0, trace[..n]);
      StepKeepsSetUp(Run(s0, trace[..n]).value, trace[n]);
    }
  }

  // Nobody runs `fn` for the outside world's events or another caller's.
  lemma OnlyOwnReadsRun(s: State, e: Event, c: nat)
    requires Step(s, e).Some? && c < |s.callers|
    requires !(ByCaller(e) && e.c == c && IsRead(e))
    ensures Step(s, e).value.callers[c].runs == s.callers[c].runs
  {
  }

  /** In every run `fn` is started only by a read of the same call, and only if at that moment the cache is off, the
    * read is skipped or fails, or the store is empty; and under the lock only if the lock has not been lost. */
  lemma FnRunsOnlyOnMiss(s0: State, trace: seq<Event>, i: nat, c: nat)
    requires Run(s0, trace).Some? && i < |trace| && c < |s0.callers|
    ensures At(s0, trace, i).Some? && At(s0, trace, i + 1).Some?
    ensures var s, t, e := At(s0, trace, i).value, At(s0, trace, i + 1).value, trace[i];
            && c < |s.callers| && c < |t.callers|
            && (t.callers[c].runs != s.callers[c].runs ==>
                  && ByCaller(e) && e.c == c && IsRead(e)
                  && Missed(s, s0.callers[c].options, Answered(e))
                  && (e.Reread? ==> s.callers[c].aborted.None?)
                  && t.callers[c].runs == s.callers[c].runs + 1)
  {
    RunsUpTo(s0, trace, i);
    SetUpStays(s0, trace[..i]);
    var s, e := At(s0, trace, i).value, trace[i];
    if ByCaller(e) && e.c == c && IsRead(e) {
      if Missed(s, s.callers[c].options, Answered(e)) {
        MissStartsFn(s, e);
      } else {
        HitEndsTheCall(s, e);
      }
    } else {
      OnlyOwnReadsRun(s, e, c);
    }
  }

  /* Hits. */

  // The event is a read that ends its call with a value.
  predicate Serves(s: State, e: Event) {
    Enabled(s, e) && IsRead(e) && (After(s, e).pc.Returned? || After(s, e).pc.Leaving?)
    && (After(s, e).pc.Leaving? ==> After(s, e).pc.outcome.Value?)
  }

  lemma HitsMove(s: State, e: Event)
    requires Step(s, e).Some?
    ensures Step(s, e).value.stats.hits == s.stats.hits + if Serves(s, e) then 1 else 0
  {
  }

  // Which call the `i`-th event ended with a value it read.
  function ServedBy(s0: State, trace: seq<Event>): nat -> Option<nat> {
    (i: nat) =>
      if i < |trace| && At(s0, trace, i).Some? && Serves(At(s0, trace, i).value, trace[i]) then Some(trace[i].c)
      else None
  }

  // How many of the first `n` events did so.
  function TimesServed(served: nat -> Option<nat>, n: nat): nat {
    if n == 0 then 0 else TimesServed(served, n - 1) + if served(n - 1).Some? then 1 else 0
  }

  // The calls that one of them did so to.
  function ServedCalls(served: nat -> Option<nat>, n: nat): set<nat> {
    if n == 0 then {}
    else ServedCalls(served, n - 1) + if served(n - 1).Some? then {served(n - 1).value} else {}
  }

  lemma {:induction false} HitsUpTo(s0: State, trace: seq<Event>, i: nat)
    requires Run(s0, trace).Some? && i <= |trace|
    ensures At(s0, trace, i).Some?
    ensures At(s0, trace, i).value.stats.hits == s0.stats.hits + TimesServed(ServedBy(s0, trace), i)
  {
    RunsUpTo(s0, trace, i);
    if i > 0 {
      RunsUpTo(s0, trace, i - 1);
      HitsUpTo(s0, trace, i - 1);
      HitsMove(At(s0, trace, i - 1).value, trace[i - 1]);
    }
  }

  /** In every run the hits counted are the reads that ended their call with a value. */
  lemma HitsAreServed(s0: State, trace: seq<Event>)
    requires Run(s0, trace).Some?
    ensures Run(s0, trace).value.stats.hits == s0.stats.hits + TimesServed(ServedBy(s0, trace), |trace|)
  {
    HitsUpTo(s0, trace, |trace|);
    assert trace[..|trace|] == trace;
  }

  ghost predicate ServedTwice(served: nat -> Option<nat>, n: nat) {
    exists i: nat, j: nat :: i < j < n && served(i).Some? && served(i) == served(j)
  }

  lemma {:induction false} ServedCallsAre(served: nat -> Option<nat>, n: nat, c: nat)
    ensures c in ServedCalls(served, n) <==> exists i: nat :: i < n && served(i) == Some(c)
  {
    if n > 0 {
      ServedCallsAre(served, n - 1, c);
    }
  }

  lemma TwiceNext(served: nat -> Option<nat>, n: nat)
    ensures ServedTwice(served, n + 1)
            <==> ServedTwice(served, n) || (served(n).Some? && served(n).value in ServedCalls(served, n))
  {
    if served(n).Some? {
      ServedCallsAre(served, n, served(n).value);
    }
    if i: nat :| i < n && served(n).Some? && served(i) == served(n) {
      assert i < n < n + 1 && served(i).Some?;
    }
  }

  lemma {:induction false} ServedOften(served: nat -> Option<nat>, n: nat)
    ensures |ServedCalls(served, n)| <= TimesServed(served, n)
    ensures |ServedCalls(served, n)| == TimesServed(served, n) <==> !ServedTwice(served, n)
  {
    if n > 0 {
      ServedOften(served, n - 1);
      TwiceNext(served, n - 1);
    }
  }

  /** The hits counted are the calls ended by a value from the store exactly if no call is so ended twice. */
  lemma HitsAreCallsIff(s0: State, trace: seq<Event>)
    requires Run(s0, trace).Some?
    ensures var served := ServedBy(s0, trace);
            Run(s0, trace).value.stats.hits == s0.stats.hits + |ServedCalls(served, |trace|)|
            <==> !ServedTwice(served, |trace|)
  {
    HitsAreServed(s0, trace);
    ServedOften(ServedBy(s0, trace), |trace|);
  }

  predicate HasEnded(caller: Caller) {
    caller.pc.Returned? || (caller.pc.Leaving? && caller.pc.outcome.Value?)
  }

  // A call that has ended stays so until a release of its own fails.
  lemma OneEndedStays(s: State, e: Event, c: nat)
    requires Step(s, e).Some? && c < |s.callers| && HasEnded(s.callers[c])
    requires !(e.ReleaseFails? && e.c == c)
    ensures HasEnded(Step(s, e).value.callers[c]) && !(Serves(s, e) && e.c == c)
  {
  }

  predicate EndedAt(s0: State, trace: seq<Event>, i: nat, c: nat)
    requires i <= |trace|
  {
    At(s0, trace, i).Some? && c < |At(s0, trace, i).value.callers| && HasEnded(At(s0, trace, i).value.callers[c])
  }

  // As a function of the place in the run.
  ghost function Ended(s0: State, trace: seq<Event>, c: nat): nat -> bool {
    (i: nat) => i <= |trace| && EndedAt(s0, trace, i, c)
  }

  ghost predicate FailsAt(trace: seq<Event>, c: nat, k: nat) {
    k < |trace| && trace[k].ReleaseFails? && trace[k].c == c
  }

  lemma ServedEnds(s0: State, trace: seq<Event>, i: nat, c: nat)
    requires Run(s0, trace).Some? && i < |trace| && ServedBy(s0, trace)(i) == Some(c)
    ensures Ended(s0, trace, c)(i + 1)
  {
    RunsUpTo(s0, trace, i);
  }

  // It goes on from one place to the next.
  predicate GoesOn(p: nat -> bool, i: nat, j: nat, k: nat) {
    i <= k < j && p(k) ==> p(k + 1)
  }

  lemma EndedNext(s0: State, trace: seq<Event>, i: nat, j: nat, c: nat, k: nat)
    requires Run(s0, trace).Some? && j <= |trace| && (i <= k < j ==> !FailsAt(trace, c, k))
    ensures GoesOn(Ended(s0, trace, c), i, j, k)
  {
    if i <= k < j && Ended(s0, trace, c)(k) {
      RunsUpTo(s0, trace, k);
      OneEndedStays(At(s0, trace, k).value, trace[k], c);
    }
  }

  lemma {:induction false} CarriesOn(p: nat -> bool, i: nat, j: nat)
    requires p(i) && i <= j && forall k: nat :: GoesOn(p, i, j, k)
    ensures p(j)
    decreases j
  {
    if i < j {
      var last := j - 1;
      forall k: nat ensures GoesOn(p, i, last, k) {
        assert GoesOn(p, i, j, k);
      }
      CarriesOn(p, i, last);
      assert GoesOn(p, i, j, last);
    }
  }

  lemma EndedUntilFailed(s0: State, trace: seq<Event>, i: nat, j: nat, c: nat)
    requires Run(s0, trace).Some? && i < j <= |trace| && ServedBy(s0, trace)(i) == Some(c)
    requires forall k: nat :: i < k < j ==> !FailsAt(trace, c, k)
    ensures Ended(s0, trace, c)(j)
  {
    var next := i + 1;
    ServedEnds(s0, trace, i, c);
    forall k: nat ensures GoesOn(Ended(s0, trace, c), next, j, k) {
      EndedNext(s0, trace, next, j, c, k);
    }
    CarriesOn(Ended(s0, trace, c), next, j);
  }

  /** That takes a release of its lock that fails in between: it masks the value the call was about to return, and the
    * call reads again. */
  lemma TwiceNeedsAFailedRelease(s0: State, trace: seq<Event>, i: nat, j: nat, c: nat)
    requires Run(s0, trace).Some? && i < j < |trace|
    requires ServedBy(s0, trace)(i) == Some(c) && ServedBy(s0, trace)(j) == Some(c)
    ensures exists k: nat :: i < k < j && FailsAt(trace, c, k)
  {
    if forall k: nat :: i < k < j ==> !FailsAt(trace, c, k) {
      EndedUntilFailed(s0, trace, i, j, c);
      RunsUpTo(s0, trace, j);
      OneEndedStays(At(s0, trace, j).value, trace[j], c);
    }
  }

  /** So as long as no release of the lock fails every hit is a call of its own, ended by the value read. */
  lemma HitsAreCalls(s0: State, trace: seq<Event>)
    requires Run(s0, trace).Some? && forall k: nat :: k < |trace| ==> !trace[k].ReleaseFails?
    ensures var calls := ServedCalls(ServedBy(s0, trace), |trace|);
            && Run(s0, trace).value.stats.hits == s0.stats.hits + |calls|
            && forall c :: c in calls ==> EndedAt(s0, trace, |trace|, c)
  {
    var served := ServedBy(s0, trace);
    if i: nat, j: nat :| i < j < |trace| && served(i).Some? && served(i) == served(j) {
      TwiceNeedsAFailedRelease(s0, trace, i, j, served(i).value);
    }
    HitsAreCallsIff(s0, trace);
    forall c | c in ServedCalls(served, |trace|) ensures EndedAt(s0, trace, |trace|, c) {
      ServedCallsAre(served, |trace|, c);
      var i: nat :| i < |trace| && served(i) == Some(c);
      EndedUntilFailed(s0, trace, i, |trace|, c);
    }
  }

  // One call on its own, with a value in the store.
  function Alone(v: Json, pc: Pc, locked: bool, faulted: bool, hits: nat): State {
    var options := Options(false, false, true, true);
    State(true, true, Some(v), if locked then Some(0) else None, [Caller(options, pc, None, 0, faulted)],
          [Completion(0, v)], Stats(hits, 0, 0, if pc.Start? then 0 else 1))
  }

  lemma OneCaller(a: Caller, b: Caller)
    ensures [a][0 := b] == [b]
  {
  }

  // What a step of that call does, if it does this to the shared state.
  lemma AloneStep(v: Json, pc: Pc, locked: bool, faulted: bool, hits: nat, e: Event, next: Pc, locks: bool,
                  faults: bool, more: nat)
    requires ByCaller(e) && e.c == 0 && !next.Start?
    requires var s, t := Alone(v, pc, locked, faulted, hits), Alone(v, next, locks, faults, more);
             CallerStep(s, 0, s.callers[0], e) == Some(Effect(t.callers[0], t.store, t.lock, t.log, t.stats))
    ensures Step(Alone(v, pc, locked, faulted, hits), e) == Some(Alone(v, next, locks, faults, more))
  {
    OneCaller(Alone(v, pc, locked, faulted, hits).callers[0], Alone(v, next, locks, faults, more).callers[0]);
  }

  lemma AloneQueues(v: Json)
    ensures Step(Alone(v, Start, false, false, 0), Begin(0, false)) == Some(Alone(v, Queued, false, false, 0))
    ensures Step(Alone(v, Queued, false, false, 0), Acquire(0)) == Some(Alone(v, Admitted, true, false, 0))
    ensures Step(Alone(v, Admitted, true, false, 0), Enter(0)) == Some(Alone(v, Rereading, true, false, 0))
  {
    AloneStep(v, Start, false, false, 0, Begin(0, false), Queued, false, false, 0);
    AloneStep(v, Queued, false, false, 0, Acquire(0), Admitted, true, false, 0);
    AloneStep(v, Admitted, true, false, 0, Enter(0), Rereading, true, false, 0);
  }

  lemma AloneIsServed(v: Json)
    ensures Step(Alone(v, Rereading, true, false, 0), Event.Reread(0, true))
            == Some(Alone(v, Leaving(Value(v)), true, false, 1))
    ensures Step(Alone(v, Leaving(Value(v)), true, false, 1), ReleaseFails(0, true))
            == Some(Alone(v, Backoff, false, true, 1))
    ensures Step(Alone(v, Backoff, false, true, 1), Retry(0, true)) == Some(Alone(v, Returned(v), false, true, 2))
  {
    AloneStep(v, Rereading, true, false, 0, Event.Reread(0, true), Leaving(Value(v)), true, false, 1);
    AloneStep(v, Leaving(Value(v)), true, false, 1, ReleaseFails(0, true), Backoff, false, true, 1);
    AloneStep(v, Backoff, false, true, 1, Retry(0, true), Returned(v), false, true, 2);
  }

  lemma AloneStarts(v: Json)
    ensures Init(Alone(v, Start, false, false, 0))
  {
    assert Produced([Completion(0, v)], v) by {
      assert [Completion(0, v)][0].v == v;
    }
  }

  // A run of the events, one after another.
  lemma SixEvents(s0: State, s1: State, s2: State, s3: State, s4: State, s5: State, s6: State, e: seq<Event>)
    requires |e| == 6
    requires Step(s0, e[0]) == Some(s1) && Step(s1, e[1]) == Some(s2) && Step(s2, e[2]) == Some(s3)
    requires Step(s3, e[3]) == Some(s4) && Step(s4, e[4]) == Some(s5) && Step(s5, e[5]) == Some(s6)
    ensures Run(s0, e) == Some(s6)
  {
    assert e[..6] == e && e[..6][..5] == e[..5] && e[..5][..4] == e[..4] && e[..4][..3] == e[..3];
    assert e[..3][..2] == e[..2] && e[..2][..1] == e[..1] && e[..1][..0] == [];
    assert Run(s0, e[..1]) == Some(s1);
    assert Run(s0, e[..2]) == Some(s2);
    assert Run(s0, e[..3]) == Some(s3);
    assert Run(s0, e[..4]) == Some(s4);
    assert Run(s0, e[..5]) == Some(s5);
  }

  const TWICE: seq<Event> := [
    Begin(0, false), Acquire(0), Enter(0), Event.Reread(0, true), ReleaseFails(0, true), Retry(0, true)]

  lemma AloneRuns(v: Json, e: seq<Event>)
    requires |e| == 6 && e[0] == Begin(0, false) && e[1] == Acquire(0) && e[2] == Enter(0)
    requires e[3] == Event.Reread(0, true) && e[4] == ReleaseFails(0, true) && e[5] == Retry(0, true)
    ensures Run(Alone(v, Start, false, false, 0), e) == Some(Alone(v, Returned(v), false, true, 2))
  {
    AloneQueues(v);
    AloneIsServed(v);
    SixEvents(Alone(v, Start, false, false, 0), Alone(v, Queued, false, false, 0), Alone(v, Admitted, true, false, 0),
              Alone(v, Rereading, true, false, 0), Alone(v, Leaving(Value(v)), true, false, 1),
              Alone(v, Backoff, false, true, 1), Alone(v, Returned(v), false, true, 2), e);
  }

  /** A run in which a release fails, and one call makes two hits. */
  lemma FailedReleaseCountsTwice(v: Json)
    ensures exists s0, trace, t :: && Init(s0) && |s0.callers| == 1 && Run(s0, trace) == Some(t)
                                   && t.stats.hits == s0.stats.hits + 2
  {
    AloneStarts(v);
    AloneRuns(v, TWICE);
    assert Alone(v, Returned(v), false, true, 2).stats.hits == Alone(v, Start, false, false, 0).stats.hits + 2;
  }

  /* Writes. */

  function Results(trace: seq<Event>, c: nat): nat {
    if trace == [] then 0
    else
      var e := trace[|trace| - 1];
      Results(trace[..|trace| - 1], c) + if e.FnReturns? && e.c == c then 1 else 0
  }

  function Writes(trace: seq<Event>, c: nat): nat {
    if trace == [] then 0
    else
      var e := trace[|trace| - 1];
      Writes(trace[..|trace| - 1], c) + if e.Store? && e.c == c then 1 else 0
  }

  predicate MayWrite(s0: State, c: nat)
    requires c < |s0.callers|
  {
    s0.available && !s0.callers[c].options.skipSet && s0.callers[c].options.hasTtl
  }

  // Only a call of a service that is off runs uncached.
  predicate ModeFits(s: State, c: nat)
    requires c < |s.callers|
  {
    s.callers[c].pc.Running? ==> (s.callers[c].pc.mode == Uncached <==> !s.available)
  }

  // A call that locks, backs off or reads again belongs to a service that is on.
  predicate Locking(s: State, c: nat)
    requires c < |s.callers|
  {
    var pc := s.callers[c].pc;
    s.available
    || !(pc.Queued? || pc.Admitted? || pc.Rereading? || pc.Leaving? || pc.Backoff?
         || (pc.Running? && pc.mode != Uncached) || (pc.Storing? && pc.mode != Uncached))
  }

  lemma LockingStays(s: State, e: Event, c: nat)
    requires Step(s, e).Some? && c < |s.callers| && Locking(s, c)
    ensures Locking(Step(s, e).value, c)
  {
  }

  // What one event does to the balance of results and writes.
  lemma BalanceMoves(s: State, e: Event, c: nat)
    requires Step(s, e).Some? && c < |s.callers| && ModeFits(s, c)
    requires s.callers[c].pc.Storing? ==> MayWrite(s, c)
    requires Locking(s, c)
    ensures var t := Step(s, e).value;
            var own := ByCaller(e) && e.c == c;
            && ModeFits(t, c)
            && (t.callers[c].pc.Storing? ==> MayWrite(t, c))
            && (own && e.FnReturns? && MayWrite(s, c) ==> !s.callers[c].pc.Storing? && t.callers[c].pc.Storing?)
            && (own && e.Store? ==> s.callers[c].pc.Storing? && !t.callers[c].pc.Storing?)
            && (!(own && (e.FnReturns? || e.Store?)) ==> (t.callers[c].pc.Storing? <==> s.callers[c].pc.Storing?))
  {
  }

  /** In every run each result of a call that may write has been written, or is about to be; a call that may not write
    * never does. */
  lemma {:induction false} EveryResultIsWritten(s0: State, trace: seq<Event>, c: nat)
    requires Init(s0) && Run(s0, trace).Some? && c < |s0.callers|
    ensures c < |Run(s0, trace).value.callers|
    ensures Locking(Run(s0, trace).value, c) && ModeFits(Run(s0, trace).value, c)
    ensures Run(s0, trace).value.callers[c].pc.Storing? ==> MayWrite(s0, c)
    ensures MayWrite(s0, c) ==>
              Results(trace, c) == Writes(trace, c) + if Run(s0, trace).value.callers[c].pc.Storing? then 1 else 0
    ensures !MayWrite(s0, c) ==> Writes(trace, c) == 0
  {
    if trace == [] {
      assert Fresh(s0.callers[c]);
    } else {
      var n := |trace| - 1;
      var s, e := Run(s0, trace[..n]).value, trace[n];
      EveryResultIsWritten(s0, trace[..n], c);
      SetUpStays(s0, trace[..n]);
      LockingStays(s, e, c);
      BalanceMoves(s, e, c);
    }
  }
}
