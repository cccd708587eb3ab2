/** `PerformanceCacheService` as the source writes it: methods that read and update the store, the lock and the
  * counters, with everybody else's steps let in at every await.  The contracts say that whatever a call does is a
  * run of the single-flight protocol, so the laws proved about runs are laws of this code.
  */
module PerformanceCache {
  import opened Wrappers
  import opened SingleFlight

  class PerformanceCacheService {
    const available: bool
    const redlock: bool
    var store: Option<Json>
    var lock: Option<nat>
    var stats: Stats
    var callers: seq<Caller>          // the calls in flight, with their abort signals
    ghost var log: seq<Completion>
    ghost var trace: seq<Event>
    ghost const start: State

    ghost function View(): State
      reads this
    {
      State(available, redlock, store, lock, callers, log, stats)
    }

    ghost predicate Valid()
      reads this
    {
      Init(start) && Run(start, trace) == Some(View())
    }

    constructor (available: bool, redlock: bool, options: seq<Options>)
      ensures Valid() && trace == [] && log == [] && |callers| == |options|
      ensures forall i :: 0 <= i < |options| ==> Fresh(callers[i]) && callers[i].options == options[i]
    {
      this.available, this.redlock := available, redlock;
      store, lock := None, None;
      stats := Stats(0, 0, 0, 0);
      var calls := seq(|options|, i requires 0 <= i < |options| => Caller(options[i], Start, None, 0, false));
      callers := calls;
      log, trace := [], [];
      start := State(available, redlock, None, None, calls, [], Stats(0, 0, 0, 0));
    }

    // The other calls, the lock service and the store move on while call `c` awaits; its abort signal may fire.
    method Await(c: nat)
      requires Valid() && c < |callers|
      modifies this
      ensures Valid() && old(trace) <= trace && old(log) <= log && |callers| == |old(callers)|
      ensures callers[c] == old(callers[c]).(aborted := callers[c].aborted)
    {
    }

    // Records the event whose effects the code has just carried out.
    ghost method Record(before: State, e: Event)
      requires Init(start) && Run(start, trace) == Some(before) && Step(before, e) == Some(View())
      modifies this`trace
      ensures Valid() && trace == old(trace) + [e]
    {
      trace := trace + [e];
      assert trace[..|trace| - 1] == old(trace);
    }

    method Get(options: Options, ok: bool) returns (value: Option<Json>)
      modifies this`stats
      ensures value == Hit(old(View()), options, ok)
      ensures stats == Counted(old(View()), options, ok)
    {
      if !available || options.skipGet {
        return None;
      }
      if !ok {
        stats := stats.(errors := stats.errors + 1);
        return None;
      }
      value := store;
      if value.None? {
        stats := stats.(misses := stats.misses + 1);
      } else {
        stats := stats.(hits := stats.hits + 1);
      }
    }

    method SetPc(c: nat, pc: Pc)
      requires c < |callers|
      modifies this`callers
      ensures callers == old(callers)[c := old(callers[c]).(pc := pc)]
    {
      callers := callers[c := callers[c].(pc := pc)];
    }

    method StartRun(c: nat, mode: Mode)
      requires c < |callers|
      modifies this`callers
      ensures callers == old(callers)[c := StartFn(old(callers[c]), mode)]
    {
      callers := callers[c := StartFn(callers[c], mode)];
    }

    // `executeAndCache`: run `fn`, write what it gave, hand it back.  With the cache switched off, only the first part.
    method ExecuteAndCache(c: nat) returns (outcome: Outcome)
      requires Valid() && c < |callers| && callers[c].pc.Running?
      modifies this
      ensures Valid() && old(trace) <= trace && old(log) <= log && |callers| == |old(callers)|
      ensures callers[c] == Conclude(old(callers[c]), old(callers[c].pc.mode), outcome).(aborted := callers[c].aborted)
    {
      var mode, options := callers[c].pc.mode, callers[c].options;
      Await(c);
      ghost var before := View();
      outcome := *;                                     // what `fn` does
      match outcome {
        case Raised(fault) =>
          ThrowStep(before, c, fault);
          callers := callers[c := Conclude(callers[c], mode, outcome)];
          Record(before, FnThrows(c, fault));
        case Value(v) =>
          outcome := Cache(c, mode, options, v);
      }
    }

    // `fn` gave `v`: write it unless told not to.
    method Cache(c: nat, mode: Mode, options: Options, v: Json) returns (outcome: Outcome)
      requires Valid() && c < |callers| && callers[c].pc == Running(mode) && options == callers[c].options
      modifies this
      ensures Valid() && old(trace) <= trace && old(log) <= log && |callers| == |old(callers)|
      ensures callers[c] == Conclude(old(callers[c]), mode, outcome).(aborted := callers[c].aborted)
    {
      ghost var before := View();
      outcome := Value(v);
      log := log + [Completion(c, v)];
      if mode == Uncached || options.skipSet {
        callers := callers[c := Conclude(callers[c], mode, outcome)];
        Record(before, FnReturns(c, v));
        return;
      }
      if !options.hasTtl {
        outcome := Raised(OtherFault);                  // 'ttl is required'
        callers := callers[c := Conclude(callers[c], mode, outcome)];
        Record(before, FnReturns(c, v));
        return;
      }
      SetPc(c, Storing(mode, v));
      Record(before, FnReturns(c, v));
      Write(c, mode, v);
    }

    method Write(c: nat, mode: Mode, v: Json)
      requires Valid() && c < |callers| && callers[c].pc == Storing(mode, v)
      modifies this
      ensures Valid() && old(trace) <= trace && old(log) <= log && |callers| == |old(callers)|
      ensures callers[c] == Conclude(old(callers[c]), mode, Value(v)).(aborted := callers[c].aborted)
    {
      Await(c);
      var ok: bool := *;                                // whether the store takes the write
      Answered(c, mode, v, ok);
    }

    // The store has answered: count the write or the error, and go on with the value either way.
    method Answered(c: nat, mode: Mode, v: Json, ok: bool)
      requires Valid() && c < |callers| && callers[c].pc == Storing(mode, v)
      modifies this
      ensures Valid() && trace == old(trace) + [Store(c, ok)] && log == old(log)
      ensures callers == old(callers)[c := Conclude(old(callers[c]), mode, Value(v))]
    {
      ghost var before := View();
      StoreStep(before, c, ok);
      if ok {
        store := Some(v);
        stats := stats.(sets := stats.sets + 1);
      } else {
        stats := stats.(errors := stats.errors + 1);
      }
      callers := callers[c := Conclude(callers[c], mode, Value(v))];
      Record(before, Store(c, ok));
    }

    // The routine given to `redlock.using`.
    method Routine(c: nat) returns (outcome: Outcome)
      requires Valid() && c < |callers| && callers[c].pc == Admitted
      modifies this
      ensures Valid() && old(trace) <= trace && old(log) <= log && |callers| == |old(callers)|
      ensures callers[c].pc == Leaving(outcome)
    {
      ghost var before := View();
      if callers[c].aborted.Some? {
        outcome := Raised(callers[c].aborted.value);
        SetPc(c, Leaving(outcome));
        Record(before, Enter(c));
        return;
      }
      SetPc(c, Rereading);
      Record(before, Enter(c));
      var early := ReadAgain(c);
      if early.Some? {
        outcome := early.value;
      } else {
        outcome := ExecuteAndCache(c);
      }
    }

    // The second read and the second abort check; None means that `fn` has been started.
    method ReadAgain(c: nat) returns (early: Option<Outcome>)
      requires Valid() && c < |callers| && callers[c].pc == Rereading
      modifies this
      ensures Valid() && old(trace) <= trace && old(log) <= log && |callers| == |old(callers)|
      ensures callers[c].pc == match early case Some(outcome) => Leaving(outcome) case None => Running(UnderLock)
    {
      Await(c);
      ghost var before := View();
      var ok: bool := *;
      var cached := Get(callers[c].options, ok);
      if cached.Some? {
        early := Some(Value(cached.value));
        SetPc(c, Leaving(Value(cached.value)));
      } else if callers[c].aborted.Some? {
        early := Some(Raised(callers[c].aborted.value));
        SetPc(c, Leaving(Raised(callers[c].aborted.value)));
      } else {
        early := None;
        StartRun(c, UnderLock);
      }
      Record(before, Event.Reread(c, ok));
    }

    // `redlock.using`: take the lock, run the routine, give the lock back.
    method Using(c: nat) returns (outcome: Outcome)
      requires Valid() && c < |callers| && callers[c].pc == Queued
      modifies this
      ensures Valid() && old(trace) <= trace && old(log) <= log && |callers| == |old(callers)|
      ensures callers[c].pc == Settled(outcome)
    {
      var refused := TakeLock(c);
      if refused.Some? {
        outcome := Raised(refused.value);
      } else {
        outcome := Routine(c);
        outcome := GiveBack(c, outcome);
      }
    }

    // Where a call stands once `redlock.using` has settled and a lock error has been caught.
    static function Settled(outcome: Outcome): Pc {
      match outcome
      case Value(v) => Returned(v)
      case Raised(fault) => if fault == LockFault then Backoff else Threw
    }

    method TakeLock(c: nat) returns (refused: Option<Fault>)
      requires Valid() && c < |callers| && callers[c].pc == Queued
      modifies this
      ensures Valid() && old(trace) <= trace && old(log) <= log && |callers| == |old(callers)|
      ensures callers[c].pc == match refused case None => Admitted case Some(fault) => Settled(Raised(fault))
    {
      Await(c);
      ghost var before := View();
      var granted: bool := *;
      if granted && lock.None? {
        refused := None;
        lock := Some(c);
        SetPc(c, Admitted);
        Record(before, Acquire(c));
      } else {
        var fault: Fault := *;
        refused := Some(fault);
        Rethrow(c, fault);
        Record(before, AcquireFails(c, fault));
      }
    }

    // A failed release masks whatever the routine gave.
    method GiveBack(c: nat, outcome: Outcome) returns (settled: Outcome)
      requires Valid() && c < |callers| && callers[c].pc == Leaving(outcome)
      modifies this
      ensures Valid() && old(trace) <= trace && old(log) <= log && |callers| == |old(callers)|
      ensures callers[c].pc == Settled(settled)
    {
      Await(c);
      var ok: bool, freed: bool := *, *;
      if ok {
        settled := outcome;
        Given(c, outcome);
      } else {
        settled := Raised(LockFault);
        NotGiven(c, freed);
      }
    }

    // The release throws; the lock may be free all the same.
    method NotGiven(c: nat, freed: bool)
      requires Valid() && c < |callers| && callers[c].pc.Leaving?
      modifies this
      ensures Valid() && old(trace) <= trace && log == old(log) && |callers| == |old(callers)|
      ensures callers[c].pc == Backoff
    {
      ghost var before := View();
      if freed && lock == Some(c) {
        lock := None;
      }
      Rethrow(c, LockFault);
      Record(before, ReleaseFails(c, freed));
    }

    method Given(c: nat, outcome: Outcome)
      requires Valid() && c < |callers| && callers[c].pc == Leaving(outcome)
      modifies this
      ensures Valid() && old(trace) <= trace && log == old(log) && |callers| == |old(callers)|
      ensures callers[c].pc == Settled(outcome)
    {
      ghost var before := View();
      if lock == Some(c) {
        lock := None;
      }
      if outcome.Value? {
        SetPc(c, Returned(outcome.v));
      } else {
        Rethrow(c, outcome.fault);
      }
      Record(before, Release(c));
    }

    // The catch block of `wrap`, up to its first await.
    method Rethrow(c: nat, fault: Fault)
      requires c < |callers|
      modifies this`callers, this`stats
      ensures var eff := Catch(Keep(old(View()), old(callers[c])), fault);
              callers == old(callers)[c := eff.caller] && stats == eff.stats
    {
      if fault == LockFault {
        callers := callers[c := callers[c].(pc := Backoff, lockFaulted := true)];
      } else {
        stats := stats.(errors := stats.errors + 1);
        SetPc(c, Threw);
      }
    }

    /** A call to `wrap` is a run of the protocol, ends, and by the safety law returns only what some completed
      * execution of `fn` produced, having started `fn` at most twice. */
    method Wrap(c: nat) returns (result: Outcome)
      requires Valid() && c < |callers| && callers[c].pc == Start
      modifies this
      ensures Valid() && old(trace) <= trace && old(log) <= log && |callers| == |old(callers)|
      ensures match result
              case Value(v) => callers[c].pc == Returned(v) && Produced(log, v)
              case Raised(_) => callers[c].pc == Threw
      ensures callers[c].runs <= if callers[c].lockFaulted then 2 else 1
    {
      result := WrapBody(c);
      SafetyOverEveryRun(start, trace);
    }

    method WrapBody(c: nat) returns (result: Outcome)
      requires Valid() && c < |callers| && callers[c].pc == Start
      modifies this
      ensures Valid() && old(trace) <= trace && old(log) <= log && |callers| == |old(callers)|
      ensures match result
              case Value(v) => callers[c].pc == Returned(v)
              case Raised(_) => callers[c].pc == Threw
    {
      var cached := FirstRead(c);
      if cached.Some? {
        result := Value(cached.value);
      } else if callers[c].pc.Running? {
        result := ExecuteAndCache(c);
      } else {
        result := Using(c);
        if result == Raised(LockFault) {
          result := FallBack(c);
        }
      }
    }

    // Everything up to the first branch: served, executing without a lock, or queued for the lock.
    method FirstRead(c: nat) returns (cached: Option<Json>)
      requires Valid() && c < |callers| && callers[c].pc == Start
      modifies this
      ensures Valid() && old(trace) <= trace && old(log) <= log && |callers| == |old(callers)|
      ensures match cached
              case Some(v) => callers[c].pc == Returned(v)
              case None => callers[c].pc in {Running(Uncached), Running(Direct), Queued}
    {
      Await(c);
      ghost var before := View();
      var ok: bool := *;
      if !available {
        cached := None;
        StartRun(c, Uncached);
      } else {
        var options := callers[c].options;
        cached := Get(options, ok);
        if cached.Some? {
          SetPc(c, Returned(cached.value));
        } else if !options.preventConcurrent || !redlock {
          StartRun(c, Direct);
        } else {
          SetPc(c, Queued);
        }
      }
      Record(before, Begin(c, ok));
    }

    // After a lock error: sleep, read once more, else execute without a lock.
    method FallBack(c: nat) returns (result: Outcome)
      requires Valid() && c < |callers| && callers[c].pc == Backoff
      modifies this
      ensures Valid() && old(trace) <= trace && old(log) <= log && |callers| == |old(callers)|
      ensures match result
              case Value(v) => callers[c].pc == Returned(v)
              case Raised(_) => callers[c].pc == Threw
    {
      Await(c);
      ghost var before := View();
      var ok: bool := *;
      var cached := Get(callers[c].options, ok);
      if cached.Some? {
        result := Value(cached.value);
        SetPc(c, Returned(cached.value));
        Record(before, Retry(c, ok));
        return;
      }
      StartRun(c, Fallback);
      Record(before, Retry(c, ok));
      result := ExecuteAndCache(c);
    }
  }
}
