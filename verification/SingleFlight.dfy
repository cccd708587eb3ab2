/** The single-flight protocol of `PerformanceCacheService.wrap`.
  *
  * Any number of callers race on one cache key.  The state holds what they share (the store entry,
  * the distributed lock, the counters) and one program counter per caller; an event is one atomic
  * stretch of the code between two awaits, or something the outside world does.
  */
module SingleFlight {
  import opened Wrappers

  // A JSON value; `null` is a value like any other once it sits inside the stored `{ data }` wrapper.
  datatype Json = Null | Data(text: string)

  // `ResourceLockedError` and `ExecutionError` take the fallback; every other error is rethrown.
  datatype Fault = LockFault | OtherFault

  datatype Outcome = Value(v: Json) | Raised(fault: Fault)

  datatype Mode = Uncached | Direct | UnderLock | Fallback

  datatype Pc =
    | Start
    | Queued                        // inside `redlock.using`, lock not yet granted
    | Admitted                      // lock granted, routine not yet entered
    | Rereading                     // second read, under the lock
    | Running(mode: Mode)           // `fn` is executing
    | Storing(mode: Mode, v: Json)  // `fn` returned, the write is on its way
    | Leaving(outcome: Outcome)     // routine over, lock being released
    | Backoff                       // lock error caught, sleeping before the fallback read
    | Returned(v: Json)
    | Threw

  datatype Options = Options(skipGet: bool, skipSet: bool, hasTtl: bool, preventConcurrent: bool)

  // `runs` counts the times this call started `fn`; `lockFaulted` says that a lock error reached its catch block.
  datatype Caller = Caller(options: Options, pc: Pc, aborted: Option<Fault>, runs: nat, lockFaulted: bool)

  datatype Stats = Stats(hits: nat, misses: nat, sets: nat, errors: nat)

  // One completed execution of `fn`.
  datatype Completion = Completion(caller: nat, v: Json)

  datatype State = State(
    available: bool, redlock: bool,
    store: Option<Json>, lock: Option<nat>,
    callers: seq<Caller>, log: seq<Completion>, stats: Stats)

  datatype Event =
    | Begin(c: nat, ok: bool)             // first read; `ok` says whether the store answers
    | Acquire(c: nat)
    | AcquireFails(c: nat, fault: Fault)
    | Abort(c: nat, fault: Fault)         // extending the lock failed
    | Enter(c: nat)
    | Reread(c: nat, ok: bool)
    | FnReturns(c: nat, v: Json)
    | FnThrows(c: nat, fault: Fault)
    | Store(c: nat, ok: bool)
    | Release(c: nat)
    | ReleaseFails(c: nat, freed: bool)   // raises `ExecutionError`, the lock freed or not
    | Retry(c: nat, ok: bool)             // the read after the back-off
    | LockExpires
    | Evict

  /* The operations, as the code between two awaits performs them.  Each works on one caller and on what
     all callers share, and answers None when the event cannot happen at the caller's program counter. */

  // What one event leaves behind.
  datatype Effect = Effect(caller: Caller, store: Option<Json>, lock: Option<nat>, log: seq<Completion>, stats: Stats)

  function Keep(s: State, caller: Caller): Effect {
    Effect(caller, s.store, s.lock, s.log, s.stats)
  }

  // `get`: what the reader learns.
  function Hit(s: State, o: Options, ok: bool): Option<Json> {
    if !s.available || o.skipGet || !ok then None else s.store
  }

  // `get`: how the counters move.
  function Counted(s: State, o: Options, ok: bool): Stats {
    if !s.available || o.skipGet then s.stats
    else if !ok then s.stats.(errors := s.stats.errors + 1)
    else if s.store.None? then s.stats.(misses := s.stats.misses + 1)
    else s.stats.(hits := s.stats.hits + 1)
  }

  function StartFn(caller: Caller, mode: Mode): Caller {
    caller.(pc := Running(mode), runs := caller.runs + 1)
  }

  // Where a call goes once `executeAndCache` is over.
  function Conclude(caller: Caller, mode: Mode, outcome: Outcome): Caller {
    if mode == UnderLock then caller.(pc := Leaving(outcome))
    else match outcome
      case Value(v) => caller.(pc := Returned(v))
      case Raised(_) => caller.(pc := Threw)
  }

  // The catch block around `redlock.using`.
  function Catch(eff: Effect, fault: Fault): Effect {
    if fault == LockFault then eff.(caller := eff.caller.(pc := Backoff, lockFaulted := true))
    else eff.(caller := eff.caller.(pc := Threw), stats := eff.stats.(errors := eff.stats.errors + 1))
  }

  function First(s: State, caller: Caller, ok: bool): Effect {
    if !s.available then Keep(s, StartFn(caller, Uncached))
    else
      var hit := Hit(s, caller.options, ok);
      var next :=
        if hit.Some? then caller.(pc := Returned(hit.value))
        else if !caller.options.preventConcurrent || !s.redlock then StartFn(caller, Direct)
        else caller.(pc := Queued);
      Keep(s, next).(stats := Counted(s, caller.options, ok))
  }

  function Again(s: State, caller: Caller, ok: bool): Effect {
    var hit := Hit(s, caller.options, ok);
    var next :=
      if hit.Some? then caller.(pc := Leaving(Value(hit.value)))
      else if caller.aborted.Some? then caller.(pc := Leaving(Raised(caller.aborted.value)))
      else StartFn(caller, UnderLock);
    Keep(s, next).(stats := Counted(s, caller.options, ok))
  }

  function Last(s: State, caller: Caller, ok: bool): Effect {
    var hit := Hit(s, caller.options, ok);
    var next := if hit.Some? then caller.(pc := Returned(hit.value)) else StartFn(caller, Fallback);
    Keep(s, next).(stats := Counted(s, caller.options, ok))
  }

  // `fn` resolved: log it, then `set` skips, throws for want of a ttl, or starts writing.
  function Computed(s: State, c: nat, caller: Caller, mode: Mode, v: Json): Effect {
    var next :=
      if mode == Uncached || caller.options.skipSet then Conclude(caller, mode, Value(v))
      else if !caller.options.hasTtl then Conclude(caller, mode, Raised(OtherFault))
      else caller.(pc := Storing(mode, v));
    Keep(s, next).(log := s.log + [Completion(c, v)])
  }

  // A failed write is counted and swallowed.
  function Written(s: State, caller: Caller, mode: Mode, v: Json, ok: bool): Effect {
    var done := Keep(s, Conclude(caller, mode, Value(v)));
    if ok then done.(store := Some(v), stats := s.stats.(sets := s.stats.sets + 1))
    else done.(stats := s.stats.(errors := s.stats.errors + 1))
  }

  function Released(s: State, c: nat, caller: Caller, outcome: Outcome): Effect {
    var freed := Keep(s, caller).(lock := if s.lock == Some(c) then None else s.lock);
    match outcome
    case Value(v) => freed.(caller := caller.(pc := Returned(v)))
    case Raised(fault) => Catch(freed, fault)
  }

  function CallerStep(s: State, c: nat, caller: Caller, e: Event): Option<Effect> {
    match e
    case Begin(_, ok) => if caller.pc.Start? then Some(First(s, caller, ok)) else None
    case Acquire(_) =>
      if caller.pc.Queued? && s.lock.None? then Some(Keep(s, caller.(pc := Admitted)).(lock := Some(c))) else None
    case AcquireFails(_, fault) => if caller.pc.Queued? then Some(Catch(Keep(s, caller), fault)) else None
    case Abort(_, fault) => if Holding(caller.pc) then Some(Keep(s, caller.(aborted := Some(fault)))) else None
    case Enter(_) =>
      if !caller.pc.Admitted? then None
      else
        var next := if caller.aborted.Some? then Leaving(Raised(caller.aborted.value)) else Rereading;
        Some(Keep(s, caller.(pc := next)))
    case Reread(_, ok) => if caller.pc.Rereading? then Some(Again(s, caller, ok)) else None
    case FnReturns(_, v) => if caller.pc.Running? then Some(Computed(s, c, caller, caller.pc.mode, v)) else None
    case FnThrows(_, fault) =>
      if caller.pc.Running? then Some(Keep(s, Conclude(caller, caller.pc.mode, Raised(fault)))) else None
    case Store(_, ok) =>
      if caller.pc.Storing? then Some(Written(s, caller, caller.pc.mode, caller.pc.v, ok)) else None
    case Release(_) => if caller.pc.Leaving? then Some(Released(s, c, caller, caller.pc.outcome)) else None
    case ReleaseFails(_, freed) =>
      if !caller.pc.Leaving? then None
      else Some(Catch(Keep(s, caller).(lock := if freed && s.lock == Some(c) then None else s.lock), LockFault))
    case Retry(_, ok) => if caller.pc.Backoff? then Some(Last(s, caller, ok)) else None
    case _ => None
  }

  predicate Holding(pc: Pc) {
    match pc
    case Admitted | Rereading | Leaving(_) => true
    case Running(mode) => mode == UnderLock
    case Storing(mode, _) => mode == UnderLock
    case _ => false
  }

  predicate ByCaller(e: Event) {
    !e.LockExpires? && !e.Evict?
  }

  function Step(s: State, e: Event): Option<State> {
    match e
    case LockExpires => Some(s.(lock := None))
    case Evict => Some(s.(store := None))
    case _ =>
      if e.c >= |s.callers| then None
      else match CallerStep(s, e.c, s.callers[e.c], e)
        case None => None
        case Some(eff) =>
          Some(State(s.available, s.redlock, eff.store, eff.lock, s.callers[e.c := eff.caller], eff.log, eff.stats))
  }

  // What a write leaves of the state, in one piece.
  lemma StoreStep(s: State, c: nat, ok: bool)
    requires c < |s.callers| && s.callers[c].pc.Storing?
    ensures var caller := s.callers[c];
            Step(s, Store(c, ok)) ==
            Some(s.(store := if ok then Some(caller.pc.v) else s.store,
                    stats := if ok then s.stats.(sets := s.stats.sets + 1) else s.stats.(errors := s.stats.errors + 1),
                    callers := s.callers[c := Conclude(caller, caller.pc.mode, Value(caller.pc.v))]))
  {
  }

  lemma ThrowStep(s: State, c: nat, fault: Fault)
    requires c < |s.callers| && s.callers[c].pc.Running?
    ensures var caller := s.callers[c];
            Step(s, FnThrows(c, fault))
            == Some(s.(callers := s.callers[c := Conclude(caller, caller.pc.mode, Raised(fault))]))
  {
  }

  // The state after a trace of events; None when some event was not enabled.
  function Run(s: State, trace: seq<Event>): Option<State> {
    if trace == [] then Some(s)
    else match Run(s, trace[..|trace| - 1])
      case None => None
      case Some(mid) => Step(mid, trace[|trace| - 1])
  }

  predicate Fresh(caller: Caller) {
    caller.pc == Start && caller.aborted == None && caller.runs == 0 && !caller.lockFaulted
  }

  ghost predicate Init(s: State) {
    && (forall i :: 0 <= i < |s.callers| ==> Fresh(s.callers[i]))
    && s.lock == None
    && (s.store.Some? ==> Produced(s.log, s.store.value))
  }

  ghost predicate Produced(log: seq<Completion>, v: Json) {
    exists i :: 0 <= i < |log| && log[i].v == v
  }

  /* Safety over every run, faults included. */

  predicate SafeWork(caller: Caller, mode: Mode) {
    if mode == Fallback then caller.lockFaulted && 1 <= caller.runs <= 2
    else caller.runs == 1 && !caller.lockFaulted
  }

  ghost predicate SafeCaller(log: seq<Completion>, caller: Caller) {
    && (match caller.pc
        case Start | Queued | Admitted | Rereading => caller.runs == 0 && !caller.lockFaulted
        case Running(mode) => SafeWork(caller, mode)
        case Storing(mode, _) => SafeWork(caller, mode)
        case Leaving(_) => caller.runs <= 1 && !caller.lockFaulted
        case Backoff => caller.runs <= 1 && caller.lockFaulted
        case Returned(_) | Threw => caller.runs <= if caller.lockFaulted then 2 else 1)
    && (match caller.pc
        case Storing(_, v) => Produced(log, v)
        case Leaving(Value(v)) => Produced(log, v)
        case Returned(v) => Produced(log, v)
        case _ => true)
  }

  ghost predicate Safe(s: State) {
    && (forall i :: 0 <= i < |s.callers| ==> SafeCaller(s.log, s.callers[i]))
    && (s.store.Some? ==> Produced(s.log, s.store.value))
  }

  lemma ProducedGrows(log: seq<Completion>, entry: Completion)
    ensures forall v :: Produced(log, v) ==> Produced(log + [entry], v)
    ensures Produced(log + [entry], entry.v)
  {
    assert (log + [entry])[|log|] == entry;
    forall v | Produced(log, v) ensures Produced(log + [entry], v) {
      var i :| 0 <= i < |log| && log[i].v == v;
      assert (log + [entry])[i].v == v;
    }
  }

  ghost predicate SafeEffect(eff: Effect) {
    && SafeCaller(eff.log, eff.caller)
    && (eff.store.Some? ==> Produced(eff.log, eff.store.value))
  }

  lemma SafeActor(s: State, e: Event)
    requires Safe(s) && Step(s, e).Some? && ByCaller(e)
    ensures SafeEffect(CallerStep(s, e.c, s.callers[e.c], e).value)
  {
    var caller := s.callers[e.c];
    assert SafeCaller(s.log, caller);
    match e
    case Begin(_, ok) => SafeRead(s, caller, ok);
    case Reread(_, ok) => SafeRead(s, caller, ok);
    case Retry(_, ok) => SafeRead(s, caller, ok);
    case FnReturns(c, v) => SafeCompletion(s, c, caller, v);
    case _ =>
  }

  lemma SafeRead(s: State, caller: Caller, ok: bool)
    requires Safe(s) && SafeCaller(s.log, caller)
    ensures caller.pc.Start? ==> SafeEffect(First(s, caller, ok))
    ensures caller.pc.Rereading? ==> SafeEffect(Again(s, caller, ok))
    ensures caller.pc.Backoff? ==> SafeEffect(Last(s, caller, ok))
  {
  }

  lemma SafeCompletion(s: State, c: nat, caller: Caller, v: Json)
    requires Safe(s) && SafeCaller(s.log, caller) && caller.pc.Running?
    ensures SafeEffect(Computed(s, c, caller, caller.pc.mode, v))
  {
    ProducedGrows(s.log, Completion(c, v));
  }

  lemma SafeStep(s: State, e: Event)
    requires Safe(s) && Step(s, e).Some?
    ensures Safe(Step(s, e).value)
  {
    var t := Step(s, e).value;
    if ByCaller(e) {
      SafeActor(s, e);
      LogGrows(s, e);
    }
    forall i | 0 <= i < |t.callers| ensures SafeCaller(t.log, t.callers[i]) {
      assert SafeCaller(s.log, s.callers[i]);
    }
  }

  lemma LogGrows(s: State, e: Event)
    requires Step(s, e).Some?
    ensures forall v :: Produced(s.log, v) ==> Produced(Step(s, e).value.log, v)
  {
    if e.FnReturns? {
      ProducedGrows(s.log, Completion(e.c, e.v));
    }
  }

  /** Over every run, whatever fails: what a call returns and what sits in the store was produced by a
    * completed execution of `fn`, and a call starts `fn` at most twice, at most once if no lock error reached it. */
  lemma {:induction false} SafetyOverEveryRun(s0: State, trace: seq<Event>)
    requires Init(s0) && Run(s0, trace).Some?
    ensures var s := Run(s0, trace).value;
            && Safe(s)
            && (s.store.Some? ==> Produced(s.log, s.store.value))
            && forall i :: 0 <= i < |s.callers| ==>
                 && s.callers[i].runs <= (if s.callers[i].lockFaulted then 2 else 1)
                 && (s.callers[i].pc.Returned? ==> Produced(s.log, s.callers[i].pc.v))
  {
    if trace != [] {
      SafetyOverEveryRun(s0, trace[..|trace| - 1]);
      SafeStep(Run(s0, trace[..|trace| - 1]).value, trace[|trace| - 1]);
    }
    var s := Run(s0, trace).value;
    assert Safe(s);
    forall i | 0 <= i < |s.callers|
      ensures s.callers[i].runs <= (if s.callers[i].lockFaulted then 2 else 1)
      ensures s.callers[i].pc.Returned? ==> Produced(s.log, s.callers[i].pc.v)
    {
      assert SafeCaller(s.log, s.callers[i]);
    }
  }
}
