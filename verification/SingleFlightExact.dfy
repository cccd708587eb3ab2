/** When `wrap` really is single-flight: under fourteen assumptions at most one caller runs `fn`, at most one
  * execution completes, and everybody gets its value; and no assumption can be dropped.
  */
module SingleFlightExact {
  import opened Wrappers
  import opened SingleFlight

  datatype Assumption =
    // how the service and the callers are set up
    | ServiceUp | LockServiceUp | PreventsConcurrent | ReadsCache | WritesCache | TtlGiven
    // what never happens on the way
    | GrantNeverFails | ExtensionNeverFails | FnRaisesNoLockError | LockNeverExpires
    | ReleaseNeverFails | NeverEvicted | RereadNeverFails | WriteNeverFails

  predicate Configured(a: Assumption, s: State) {
    match a
    case ServiceUp => s.available
    case LockServiceUp => s.redlock
    case PreventsConcurrent => forall i :: 0 <= i < |s.callers| ==> s.callers[i].options.preventConcurrent
    case ReadsCache => forall i :: 0 <= i < |s.callers| ==> !s.callers[i].options.skipGet
    case WritesCache => forall i :: 0 <= i < |s.callers| ==> !s.callers[i].options.skipSet
    case TtlGiven => forall i :: 0 <= i < |s.callers| ==> s.callers[i].options.hasTtl
    case _ => true
  }

  // The assumption an event breaks, if any.
  function Broken(e: Event): Option<Assumption> {
    match e
    case AcquireFails(_, LockFault) => Some(GrantNeverFails)
    case Abort(_, LockFault) => Some(ExtensionNeverFails)
    case FnThrows(_, LockFault) => Some(FnRaisesNoLockError)
    case LockExpires => Some(LockNeverExpires)
    case ReleaseFails(_, _) => Some(ReleaseNeverFails)
    case Evict => Some(NeverEvicted)
    case Reread(_, false) => Some(RereadNeverFails)
    case Store(_, false) => Some(WriteNeverFails)
    case _ => None
  }

  predicate Holds(a: Assumption, s0: State, trace: seq<Event>) {
    Configured(a, s0) && forall i :: 0 <= i < |trace| ==> Broken(trace[i]) != Some(a)
  }

  ghost predicate Disciplined(s0: State, trace: seq<Event>) {
    forall a: Assumption :: Holds(a, s0, trace)
  }

  ghost predicate CleanStart(s0: State) {
    Init(s0) && s0.log == [] && forall a: Assumption :: Configured(a, s0)
  }

  /* The invariant of a disciplined run. */

  ghost predicate CleanCaller(s: State, i: nat, caller: Caller) {
    && caller.options == Options(false, false, true, true)
    && !caller.lockFaulted
    && caller.aborted != Some(LockFault)
    && (Holding(caller.pc) <==> s.lock == Some(i))
    && match caller.pc
       case Running(mode) => mode == UnderLock && s.log == [] && s.store == None
       case Storing(mode, v) => mode == UnderLock && |s.log| == 1 && s.log[0].v == v
       case Leaving(Value(v)) => |s.log| == 1 && s.log[0].v == v && s.store == Some(v)
       case Leaving(Raised(fault)) => fault == OtherFault
       case Returned(v) => |s.log| == 1 && s.log[0].v == v && s.store == Some(v)
       case Backoff => false
       case _ => true
  }

  // The one completed value is in the store, or on its way there in the hands of the lock holder.
  ghost predicate LogStored(s: State) {
    && |s.log| <= 1
    && (s.store.Some? ==> |s.log| == 1 && s.log[0].v == s.store.value)
    && (s.store.None? && s.log != [] ==>
          s.lock.Some? && s.lock.value < |s.callers| && s.callers[s.lock.value].pc.Storing?)
  }

  ghost predicate Clean(s: State) {
    && s.available && s.redlock
    && (forall i :: 0 <= i < |s.callers| ==> CleanCaller(s, i, s.callers[i]))
    && LogStored(s)
  }

  lemma CleanFromStart(s0: State)
    requires CleanStart(s0)
    ensures Clean(s0)
  {
    assert Configured(ServiceUp, s0) && Configured(LockServiceUp, s0);
    assert Configured(PreventsConcurrent, s0) && Configured(ReadsCache, s0);
    assert Configured(WritesCache, s0) && Configured(TtlGiven, s0);
  }

  lemma CleanActor(s: State, e: Event)
    requires Clean(s) && Broken(e) == None && Step(s, e).Some?
    ensures ByCaller(e)
    ensures var t := Step(s, e).value;
            CleanCaller(t, e.c, t.callers[e.c]) && LogStored(t)
  {
    assert CleanCaller(s, e.c, s.callers[e.c]);
    var eff := CallerStep(s, e.c, s.callers[e.c], e).value;
    assert Step(s, e).value.callers[e.c] == eff.caller;
  }

  lemma CleanOther(s: State, e: Event, i: nat)
    requires Clean(s) && Broken(e) == None && Step(s, e).Some?
    requires ByCaller(e) && i < |s.callers| && i != e.c
    ensures CleanCaller(Step(s, e).value, i, s.callers[i])
  {
    assert CleanCaller(s, e.c, s.callers[e.c]);
    assert CleanCaller(s, i, s.callers[i]);
  }

  lemma CleanStep(s: State, e: Event)
    requires Clean(s) && Broken(e) == None && Step(s, e).Some?
    ensures Clean(Step(s, e).value)
  {
    var t := Step(s, e).value;
    CleanActor(s, e);
    forall i | 0 <= i < |t.callers| ensures CleanCaller(t, i, t.callers[i]) {
      if i != e.c {
        CleanOther(s, e, i);
      }
    }
  }

  lemma {:induction false} CleanRun(s0: State, trace: seq<Event>)
    requires CleanStart(s0) && Run(s0, trace).Some?
    requires forall i :: 0 <= i < |trace| ==> Broken(trace[i]) == None
    ensures Clean(Run(s0, trace).value)
  {
    if trace == [] {
      CleanFromStart(s0);
    } else {
      CleanRun(s0, trace[..|trace| - 1]);
      CleanStep(Run(s0, trace[..|trace| - 1]).value, trace[|trace| - 1]);
    }
  }

  ghost predicate AtMostOneRunning(s: State) {
    forall i, j | 0 <= i < |s.callers| && 0 <= j < |s.callers| ::
      s.callers[i].pc.Running? && s.callers[j].pc.Running? ==> i == j
  }

  /** Single flight: at most one caller is executing, at most one execution ever completes, every value returned
    * is that one (a stored `null` included), and nobody ever reaches the fallback. */
  lemma SingleFlightTheorem(s0: State, trace: seq<Event>)
    requires Init(s0) && s0.log == [] && Disciplined(s0, trace) && Run(s0, trace).Some?
    ensures var s := Run(s0, trace).value;
            && |s.log| <= 1
            && AtMostOneRunning(s)
            && (forall i :: 0 <= i < |s.callers| ==> !s.callers[i].lockFaulted)
            && (forall i :: 0 <= i < |s.callers| && s.callers[i].pc.Returned? ==>
                  |s.log| == 1 && s.callers[i].pc.v == s.log[0].v)
  {
    forall a: Assumption ensures Configured(a, s0) {
      assert Holds(a, s0, trace);
    }
    forall i | 0 <= i < |trace| ensures Broken(trace[i]) == None {
      var a := if Broken(trace[i]).Some? then Broken(trace[i]).value else ServiceUp;
      assert Holds(a, s0, trace);
    }
    CleanRun(s0, trace);
    var s := Run(s0, trace).value;
    forall i | 0 <= i < |s.callers| ensures CleanCaller(s, i, s.callers[i]) {
    }
  }
}
