/** Each of the fourteen assumptions is needed: two callers, one assumption broken, two executions completed. */
module SingleFlightNeeds {
  import opened Wrappers
  import opened SingleFlight
  import opened SingleFlightExact

  // A run under construction: where it started, its events, where it stands.
  datatype Play = Play(s0: State, trace: seq<Event>, s: State)

  // The run is real and breaks no assumption but `a`.
  ghost predicate Only(a: Assumption, p: Play) {
    && Init(p.s0) && p.s0.log == []
    && Run(p.s0, p.trace) == Some(p.s)
    && forall b: Assumption :: b != a ==> Holds(b, p.s0, p.trace)
  }

  function Pair(available: bool, redlock: bool, o: Options): State {
    var caller := Caller(o, Start, None, 0, false);
    State(available, redlock, None, None, [caller, caller], [], Stats(0, 0, 0, 0))
  }

  const GOOD := Options(false, false, true, true)

  lemma Open(a: Assumption, available: bool, redlock: bool, o: Options) returns (p: Play)
    requires a == ServiceUp || available
    requires a == LockServiceUp || redlock
    requires a == PreventsConcurrent || o.preventConcurrent
    requires a == ReadsCache || !o.skipGet
    requires a == WritesCache || !o.skipSet
    requires a == TtlGiven || o.hasTtl
    ensures Only(a, p) && p.s == Pair(available, redlock, o)
  {
    p := Play(Pair(available, redlock, o), [], Pair(available, redlock, o));
  }

  lemma Fire(a: Assumption, p: Play, e: Event) returns (q: Play)
    requires Only(a, p) && Step(p.s, e).Some? && (Broken(e) == None || Broken(e) == Some(a))
    ensures Only(a, q) && q.s == Step(p.s, e).value
  {
    q := Play(p.s0, p.trace + [e], Step(p.s, e).value);
    assert q.trace[..|q.trace| - 1] == p.trace;
    forall b: Assumption | b != a ensures Holds(b, q.s0, q.trace) {
      assert Holds(b, p.s0, p.trace);
    }
  }

  // Both callers miss and queue up.
  lemma Miss(a: Assumption, o: Options) returns (p: Play)
    requires o == GOOD || (a == ReadsCache && o == GOOD.(skipGet := true))
             || (a == WritesCache && o == GOOD.(skipSet := true)) || (a == TtlGiven && o == GOOD.(hasTtl := false))
    ensures Only(a, p)
    ensures var waiting := Caller(o, Queued, None, 0, false);
            p.s == State(true, true, None, None, [waiting, waiting], [], p.s.stats)
  {
    p := Open(a, true, true, o);
    p := Fire(a, p, Begin(0, true));
    p := Fire(a, p, Begin(1, true));
  }

  // A queued caller gets the lock and enters the routine.
  lemma Admit(a: Assumption, p: Play, c: nat) returns (q: Play)
    requires Only(a, p) && c < |p.s.callers| && p.s.lock == None
    requires p.s.callers[c].pc == Queued && p.s.callers[c].aborted == None
    ensures Only(a, q)
    ensures q.s == p.s.(lock := Some(c), callers := p.s.callers[c := p.s.callers[c].(pc := Rereading)])
  {
    q := Fire(a, p, Acquire(c));
    q := Fire(a, q, Enter(c));
    var admitted := p.s.callers[c := p.s.callers[c].(pc := Admitted)];
    assert admitted[c := admitted[c].(pc := Rereading)] == p.s.callers[c := p.s.callers[c].(pc := Rereading)];
  }

  // It reads again; `ok` says whether the store answers.
  lemma LookAgain(a: Assumption, p: Play, c: nat, ok: bool) returns (q: Play)
    requires Only(a, p) && c < |p.s.callers| && p.s.callers[c].pc == Rereading && p.s.callers[c].aborted == None
    requires ok || a == RereadNeverFails
    requires !ok || p.s.store == None || p.s.callers[c].options.skipGet
    ensures Only(a, q)
    ensures q.s == p.s.(stats := q.s.stats, callers := p.s.callers[c := StartFn(p.s.callers[c], UnderLock)])
  {
    q := Fire(a, p, Event.Reread(c, ok));
  }

  // A queued caller gets the lock, finds nothing, and starts `fn`.
  lemma Lock(a: Assumption, p: Play, c: nat) returns (q: Play)
    requires Only(a, p) && c < |p.s.callers| && p.s.callers[c].pc == Queued && p.s.callers[c].aborted == None
    requires p.s.lock == None && (p.s.store == None || p.s.callers[c].options.skipGet)
    ensures Only(a, q)
    ensures q.s == p.s.(lock := Some(c), stats := q.s.stats,
                        callers := p.s.callers[c := StartFn(p.s.callers[c], UnderLock)])
  {
    q := Admit(a, p, c);
    q := LookAgain(a, q, c, true);
    var rereading := p.s.callers[c := p.s.callers[c].(pc := Rereading)];
    assert rereading[c := StartFn(rereading[c], UnderLock)] == p.s.callers[c := StartFn(p.s.callers[c], UnderLock)];
  }

  // `fn` completes; where the caller goes next is left to Computed.
  lemma Complete(a: Assumption, p: Play, c: nat) returns (q: Play)
    requires Only(a, p) && c < |p.s.callers| && p.s.callers[c].pc.Running?
    ensures Only(a, q)
    ensures |q.s.callers| == |p.s.callers| && q.s.log == p.s.log + [Completion(c, Null)]
    ensures q.s == p.s.(log := q.s.log, callers := p.s.callers[c := q.s.callers[c]])
    ensures q.s.callers[c] == Computed(p.s, c, p.s.callers[c], p.s.callers[c].pc.mode, Null).caller
  {
    q := Fire(a, p, FnReturns(c, Null));
  }

  // The lock holder leaves; nothing but its own caller and the lock matters afterwards.
  lemma Free(a: Assumption, p: Play, c: nat) returns (q: Play)
    requires Only(a, p) && c < |p.s.callers| && p.s.callers[c].pc.Leaving? && p.s.lock == Some(c)
    ensures Only(a, q) && |q.s.callers| == |p.s.callers|
    ensures q.s == p.s.(lock := None, stats := q.s.stats, callers := p.s.callers[c := q.s.callers[c]])
    ensures p.s.callers[c].pc.outcome == Raised(LockFault) ==>
              q.s.callers[c] == p.s.callers[c].(pc := Backoff, lockFaulted := true)
  {
    q := Fire(a, p, Release(c));
  }

  lemma Write(a: Assumption, p: Play, c: nat, ok: bool) returns (q: Play)
    requires Only(a, p) && c < |p.s.callers| && p.s.callers[c].pc == Storing(UnderLock, Null)
    requires ok || a == WriteNeverFails
    ensures Only(a, q)
    ensures q.s == p.s.(store := if ok then Some(Null) else p.s.store, stats := q.s.stats,
                        callers := p.s.callers[c := p.s.callers[c].(pc := Leaving(Value(Null)))])
  {
    q := Fire(a, p, Store(c, ok));
  }

  ghost predicate Doubled(a: Assumption) {
    exists p: Play :: Only(a, p) && |p.s.log| == 2
  }

  lemma DirectWitness(a: Assumption)
    requires a.ServiceUp? || a.LockServiceUp? || a.PreventsConcurrent?
    ensures Doubled(a)
  {
    var p := Open(a, !a.ServiceUp?, !a.LockServiceUp?, GOOD.(preventConcurrent := !a.PreventsConcurrent?));
    p := Fire(a, p, Begin(0, true));
    p := Fire(a, p, Begin(1, true));
    p := Complete(a, p, 0);
    p := Complete(a, p, 1);
  }

  // The first caller completes without leaving anything in the store.
  lemma SkipWitness(a: Assumption)
    requires a.WritesCache? || a.TtlGiven?
    ensures Doubled(a)
  {
    var p := Miss(a, GOOD.(skipSet := a.WritesCache?, hasTtl := !a.TtlGiven?));
    p := Lock(a, p, 0);
    p := Complete(a, p, 0);
    p := Free(a, p, 0);
    p := Lock(a, p, 1);
    p := Complete(a, p, 1);
  }

  // The first caller is through; the second is still queued.
  lemma FirstIsThrough(a: Assumption, o: Options, ok: bool) returns (p: Play)
    requires o == GOOD || (a == ReadsCache && o == GOOD.(skipGet := true))
    requires ok || a == WriteNeverFails
    ensures Only(a, p) && |p.s.callers| == 2 && p.s.lock == None && |p.s.log| == 1
    ensures p.s.callers[1] == Caller(o, Queued, None, 0, false)
    ensures p.s.store == if ok then Some(Null) else None
  {
    p := Miss(a, o);
    p := Lock(a, p, 0);
    p := Complete(a, p, 0);
    p := Write(a, p, 0, ok);
    p := Free(a, p, 0);
  }

  // What the first caller writes is not seen by the second.
  lemma StoreWitness(a: Assumption)
    requires a.ReadsCache? || a.WriteNeverFails? || a.NeverEvicted?
    ensures Doubled(a)
  {
    var p := FirstIsThrough(a, GOOD.(skipGet := a.ReadsCache?), !a.WriteNeverFails?);
    if a.NeverEvicted? {
      p := Fire(a, p, Evict);
    }
    p := Lock(a, p, 1);
    p := Complete(a, p, 1);
  }

  lemma RereadWitness()
    ensures Doubled(RereadNeverFails)
  {
    var p := FirstIsThrough(RereadNeverFails, GOOD, true);
    p := Admit(RereadNeverFails, p, 1);
    p := LookAgain(RereadNeverFails, p, 1, false);
    p := Complete(RereadNeverFails, p, 1);
  }

  lemma BothComplete(a: Assumption, p: Play)
    requires Only(a, p) && |p.s.callers| == 2 && p.s.log == []
    requires p.s.callers[0].pc.Running? && p.s.callers[1].pc.Running?
    ensures Doubled(a)
  {
    var q := Complete(a, p, 0);
    q := Complete(a, q, 1);
  }

  lemma GrantWitness()
    ensures Doubled(GrantNeverFails)
  {
    var p := Miss(GrantNeverFails, GOOD);
    p := Lock(GrantNeverFails, p, 0);
    p := Fire(GrantNeverFails, p, AcquireFails(1, LockFault));
    p := Fire(GrantNeverFails, p, Retry(1, true));
    BothComplete(GrantNeverFails, p);
  }

  lemma ExpiryWitness()
    ensures Doubled(LockNeverExpires)
  {
    var p := Miss(LockNeverExpires, GOOD);
    p := Lock(LockNeverExpires, p, 0);
    p := Fire(LockNeverExpires, p, LockExpires);
    p := Lock(LockNeverExpires, p, 1);
    BothComplete(LockNeverExpires, p);
  }

  // Caller 0 sleeps before its fallback read while the lock is free: both callers complete.
  lemma Overlap(a: Assumption, p: Play)
    requires Only(a, p) && |p.s.callers| == 2 && p.s.lock == None && p.s.store == None && p.s.log == []
    requires p.s.callers[0].pc == Backoff && p.s.callers[1] == Caller(GOOD, Queued, None, 0, false)
    ensures Doubled(a)
  {
    var q := Fire(a, p, Retry(0, true));
    q := Lock(a, q, 1);
    BothComplete(a, q);
  }

  lemma ExtensionWitness()
    ensures Doubled(ExtensionNeverFails)
  {
    var p := Miss(ExtensionNeverFails, GOOD);
    p := Fire(ExtensionNeverFails, p, Acquire(0));
    p := Fire(ExtensionNeverFails, p, Abort(0, LockFault));
    p := Fire(ExtensionNeverFails, p, Enter(0));
    p := Free(ExtensionNeverFails, p, 0);
    Overlap(ExtensionNeverFails, p);
  }

  // `fn` fails under the lock.
  lemma Fail(a: Assumption, fault: Fault) returns (p: Play)
    requires fault == OtherFault || a == FnRaisesNoLockError
    ensures Only(a, p)
    ensures p.s == State(true, true, None, Some(0),
                         [Caller(GOOD, Leaving(Raised(fault)), None, 1, false), Caller(GOOD, Queued, None, 0, false)],
                         [], p.s.stats)
  {
    p := Miss(a, GOOD);
    p := Lock(a, p, 0);
    p := Fire(a, p, FnThrows(0, fault));
  }

  lemma ThrowWitness()
    ensures Doubled(FnRaisesNoLockError)
  {
    var p := Fail(FnRaisesNoLockError, LockFault);
    p := Free(FnRaisesNoLockError, p, 0);
    Overlap(FnRaisesNoLockError, p);
  }

  lemma ReleaseWitness()
    ensures Doubled(ReleaseNeverFails)
  {
    var p := Fail(ReleaseNeverFails, OtherFault);
    p := Fire(ReleaseNeverFails, p, ReleaseFails(0, true));
    Overlap(ReleaseNeverFails, p);
  }

  lemma EachDoubled(a: Assumption)
    ensures Doubled(a)
  {
    match a
    case ServiceUp => DirectWitness(a);
    case LockServiceUp => DirectWitness(a);
    case PreventsConcurrent => DirectWitness(a);
    case ReadsCache => StoreWitness(a);
    case WritesCache => SkipWitness(a);
    case TtlGiven => SkipWitness(a);
    case GrantNeverFails => GrantWitness();
    case ExtensionNeverFails => ExtensionWitness();
    case FnRaisesNoLockError => ThrowWitness();
    case LockNeverExpires => ExpiryWitness();
    case ReleaseNeverFails => ReleaseWitness();
    case NeverEvicted => StoreWitness(a);
    case RereadNeverFails => RereadWitness();
    case WriteNeverFails => StoreWitness(a);
  }

  /** For each assumption there is a run of two callers that breaks it alone and completes `fn` twice. */
  lemma EveryAssumptionIsNeeded(a: Assumption)
    ensures exists s0: State, trace: seq<Event> ::
              && Init(s0) && s0.log == []
              && (forall b: Assumption :: b != a ==> Holds(b, s0, trace))
              && Run(s0, trace).Some? && |Run(s0, trace).value.log| == 2
  {
    EachDoubled(a);
    var p: Play :| Only(a, p) && |p.s.log| == 2;
    assert Run(p.s0, p.trace) == Some(p.s);
  }
}
