/** Nested transactions of the meta and the data database: what a program of `$tx` calls means, and what may happen. */
module Transactions {
  import opened Wrappers

  datatype Service = Meta | Data

  // A service's own connection, or a transaction of that service's.
  datatype Client = Base(service: Service) | InTx(service: Service, id: nat)

  // What the database and the bound callback do for one call of `$transaction`.
  datatype Fate = Fate(opens: bool, commits: bool, callbackReturns: bool)

  /** A request: it uses services through `txClient()`, binds callbacks, throws, catches, and nests transactions. */
  datatype Prog =
    | Use(service: Service)
    | Bind(service: Service)
    | Throw
    | Then(first: Prog, second: Prog)
    | Try(body: Prog, handler: Prog)
    | Tx(service: Service, fn: Prog, fate: Fate)

  datatype Event =
    | Used(service: Service, client: Client)
    | Bound(service: Service)
    | Entered(service: Service, client: Client)    // `fn` was called with this client
    | OpenFailed(service: Service)
    | Opened(service: Service, id: nat)
    | Committed(service: Service, id: nat)
    | RolledBack(service: Service, id: nat)
    | CommitFailed(service: Service, id: nat)      // the database refused to commit, and rolled back
    | CallbackRan(service: Service, id: nat)
    | CallbackThrew(service: Service, id: nat)
    | Threw
    | Caught
  {
    predicate IsCallbackOf(owner: Service, tx: nat) {
      this == CallbackRan(owner, tx) || this == CallbackThrew(owner, tx)
    }
  }

  /* The meaning of a program, by the transactions that enclose it. */

  datatype Env = Env(meta: Option<nat>, data: Option<nat>)

  const OUTSIDE := Env(None, None)

  // The ambient transaction that applies to a service. `shared` says that both databases are one.
  function Ambient(shared: bool, env: Env, service: Service): Option<Client> {
    match service
    case Meta => if env.meta.Some? then Some(InTx(Meta, env.meta.value)) else None
    case Data =>
      if env.data.Some? then Some(InTx(Data, env.data.value))
      else if shared && env.meta.Some? then Some(InTx(Meta, env.meta.value))
      else None
  }

  function ClientFor(shared: bool, env: Env, service: Service): Client {
    var ambient := Ambient(shared, env, service);
    if ambient.Some? then ambient.value else Base(service)
  }

  function Inside(env: Env, service: Service, id: nat): Env {
    match service
    case Meta => env.(meta := Some(id))
    case Data => env.(data := Some(id))
  }

  // `next` numbers transactions; `bound` holds the services with a callback.
  datatype Outcome = Outcome(finishes: bool, next: nat, bound: set<Service>, events: seq<Event>)

  function AfterEvents(events: seq<Event>, outcome: Outcome): Outcome {
    outcome.(events := events + outcome.events)
  }

  function Meaning(shared: bool, p: Prog, env: Env, next: nat, bound: set<Service>): Outcome {
    match p
    case Use(service) => Outcome(true, next, bound, [Used(service, ClientFor(shared, env, service))])
    case Bind(service) => Outcome(true, next, bound + {service}, [Bound(service)])
    case Throw => Outcome(false, next, bound, [Threw])
    case Then(first, second) =>
      var one := Meaning(shared, first, env, next, bound);
      if one.finishes then AfterEvents(one.events, Meaning(shared, second, env, one.next, one.bound)) else one
    case Try(body, handler) =>
      var one := Meaning(shared, body, env, next, bound);
      if one.finishes then one
      else AfterEvents(one.events + [Caught], Meaning(shared, handler, env, one.next, one.bound))
    case Tx(service, fn, fate) =>
      var ambient := Ambient(shared, env, service);
      if ambient.Some? then AfterEvents([Entered(service, ambient.value)], Meaning(shared, fn, env, next, bound))
      else if !fate.opens then Outcome(false, next, bound, [OpenFailed(service)])
      else
        var inner := Meaning(shared, fn, Inside(env, service, next), next + 1, bound);
        Finished(service, next, fate,
                 AfterEvents([Opened(service, next), Entered(service, InTx(service, next))], inner))
  }

  // The end of a transaction that was opened.
  function Finished(service: Service, id: nat, fate: Fate, inner: Outcome): Outcome {
    if !inner.finishes then inner.(events := inner.events + [RolledBack(service, id)])
    else if !fate.commits then inner.(finishes := false, events := inner.events + [CommitFailed(service, id)])
    else if service !in inner.bound then inner.(events := inner.events + [Committed(service, id)])
    else if fate.callbackReturns then
      inner.(events := inner.events + [Committed(service, id), CallbackRan(service, id)])
    else inner.(finishes := false, events := inner.events + [Committed(service, id), CallbackThrew(service, id)])
  }

  /* Which sequences of events are in order: a monitor that knows nothing of programs. */

  datatype Monitor = Monitor(
    open: seq<(Service, nat)>,          // the open transactions, innermost last
    next: nat,
    bound: set<Service>,
    due: Option<(Service, nat)>,        // a committed transaction whose callback has to run now
    raised: bool)                       // an error is in flight

  predicate Busy(open: seq<(Service, nat)>, service: Service) {
    exists k :: 0 <= k < |open| && open[k].0 == service
  }

  // The transaction is the innermost open one of its service.
  predicate IsLastOf(open: seq<(Service, nat)>, service: Service, id: nat) {
    exists k :: 0 <= k < |open| && open[k] == (service, id) && forall j :: k < j < |open| ==> open[j].0 != service
  }

  ghost function InnermostOf(open: seq<(Service, nat)>, service: Service): (id: Option<nat>)
    ensures id.Some? <==> Busy(open, service)
    ensures id.Some? ==> IsLastOf(open, service, id.value)
  {
    if Busy(open, service) then
      LastExists(open, service);
      var id: nat :| IsLastOf(open, service, id);
      Some(id)
    else None
  }

  lemma LastStays(open: seq<(Service, nat)>, service: Service, id: nat)
    requires open != [] && open[|open| - 1].0 != service && IsLastOf(open[..|open| - 1], service, id)
    ensures IsLastOf(open, service, id)
  {
    assert forall k :: 0 <= k < |open| - 1 ==> open[..|open| - 1][k] == open[k];
  }

  lemma {:induction false} LastExists(open: seq<(Service, nat)>, service: Service)
    requires Busy(open, service)
    ensures exists id: nat :: IsLastOf(open, service, id)
  {
    var n := |open| - 1;
    if open[n].0 == service {
      assert IsLastOf(open, service, open[n].1);
    } else {
      LastExists(open[..n], service);
      var id: nat :| IsLastOf(open[..n], service, id);
      LastStays(open, service, id);
    }
  }

  ghost function Enclosing(open: seq<(Service, nat)>): Env {
    Env(InnermostOf(open, Meta), InnermostOf(open, Data))
  }

  predicate IsInnermost(m: Monitor, service: Service, id: nat) {
    m.open != [] && m.open[|m.open| - 1] == (service, id)
  }

  // A call for this service joins a transaction instead of opening one.
  predicate Joins(shared: bool, open: seq<(Service, nat)>, service: Service) {
    Busy(open, service) || (service.Data? && shared && Busy(open, Meta))
  }

  // A service works in its own open transaction; else the data service, on a shared database, in the meta one; else on
  // its own connection.
  predicate RightClient(shared: bool, open: seq<(Service, nat)>, service: Service, client: Client) {
    match client
    case Base(own) => own == service && !Joins(shared, open, service)
    case InTx(owner, id) =>
      (owner, id) in open && (owner == service || (service.Data? && shared && !Busy(open, Data)))
  }

  predicate Allowed(shared: bool, m: Monitor, e: Event) {
    if m.due.Some? then e.IsCallbackOf(m.due.value.0, m.due.value.1)
    else if m.raised then
      match e
      case RolledBack(service, id) => IsInnermost(m, service, id)
      case Caught => true
      case _ => false
    else
      match e
      case Used(service, client) => RightClient(shared, m.open, service, client)
      case Bound(_) => true
      case Entered(service, client) => client.InTx? && RightClient(shared, m.open, service, client)
      case OpenFailed(service) => !Joins(shared, m.open, service)
      case Opened(service, id) => !Joins(shared, m.open, service) && id == m.next
      case Committed(service, id) => IsInnermost(m, service, id)
      case CommitFailed(service, id) => IsInnermost(m, service, id)
      case Threw => true
      case _ => false
  }

  function Watch(m: Monitor, e: Event): Monitor {
    match e
    case Bound(service) => m.(bound := m.bound + {service})
    case Opened(service, id) => m.(open := m.open + [(service, id)], next := m.next + 1)
    case Committed(service, id) =>
      m.(open := Outer(m.open), due := if service in m.bound then Some((service, id)) else None)
    case RolledBack(_, _) => m.(open := Outer(m.open))
    case CommitFailed(_, _) => m.(open := Outer(m.open), raised := true)
    case CallbackRan(_, _) => m.(due := None)
    case CallbackThrew(_, _) => m.(due := None, raised := true)
    case OpenFailed(_) => m.(raised := true)
    case Threw => m.(raised := true)
    case Caught => m.(raised := false)
    case _ => m
  }

  function Outer(open: seq<(Service, nat)>): seq<(Service, nat)> {
    if open == [] then [] else open[..|open| - 1]
  }

  function WatchAll(m: Monitor, events: seq<Event>): Monitor {
    if events == [] then m else Watch(WatchAll(m, events[..|events| - 1]), events[|events| - 1])
  }

  predicate InOrder(shared: bool, m: Monitor, events: seq<Event>) {
    if events == [] then true
    else
      && InOrder(shared, m, events[..|events| - 1])
      && Allowed(shared, WatchAll(m, events[..|events| - 1]), events[|events| - 1])
  }

  lemma WatchOne(shared: bool, m: Monitor, e: Event)
    ensures WatchAll(m, [e]) == Watch(m, e)
    ensures InOrder(shared, m, [e]) <==> Allowed(shared, m, e)
  {
    assert [e][..0] == [];
  }

  lemma {:induction false} WatchConcat(shared: bool, m: Monitor, a: seq<Event>, b: seq<Event>)
    ensures WatchAll(m, a + b) == WatchAll(WatchAll(m, a), b)
    ensures InOrder(shared, m, a + b) <==> InOrder(shared, m, a) && InOrder(shared, WatchAll(m, a), b)
  {
    if b == [] {
      assert a + b == a;
    } else {
      var n := |b| - 1;
      assert (a + b)[..|a + b| - 1] == a + b[..n];
      WatchConcat(shared, m, a, b[..n]);
    }
  }

  // The monitor goes from `m` to `after` over these events.
  predicate Passes(shared: bool, m: Monitor, events: seq<Event>, after: Monitor) {
    InOrder(shared, m, events) && WatchAll(m, events) == after
  }

  lemma PassesOne(shared: bool, m: Monitor, e: Event)
    requires Allowed(shared, m, e)
    ensures Passes(shared, m, [e], Watch(m, e))
  {
    WatchOne(shared, m, e);
  }

  lemma PassesBoth(shared: bool, m: Monitor, a: seq<Event>, mid: Monitor, b: seq<Event>, after: Monitor)
    requires Passes(shared, m, a, mid) && Passes(shared, mid, b, after)
    ensures Passes(shared, m, a + b, after)
  {
    WatchConcat(shared, m, a, b);
  }

  // Where a program leaves the monitor: the same transactions are open as before, no callback is due, and an error is
  // in flight exactly when the program throws.
  function Left(m: Monitor, outcome: Outcome): Monitor {
    m.(next := outcome.next, bound := outcome.bound, raised := !outcome.finishes)
  }

  ghost function Run(shared: bool, p: Prog, m: Monitor): Outcome {
    Meaning(shared, p, Enclosing(m.open), m.next, m.bound)
  }

  // Nothing is pending: the next event is the program's own.
  predicate Ready(m: Monitor) {
    m.due.None? && !m.raised
  }

  lemma AmbientIsRight(shared: bool, open: seq<(Service, nat)>, service: Service)
    ensures Ambient(shared, Enclosing(open), service).Some? <==> Joins(shared, open, service)
    ensures RightClient(shared, open, service, ClientFor(shared, Enclosing(open), service))
  {
  }

  /** Every program, started anywhere, keeps its events in order, closes what it opens, and throws exactly when it
    * leaves an error in flight. */
  lemma {:induction false} ProgramsKeepOrder(shared: bool, p: Prog, m: Monitor)
    requires Ready(m)
    ensures Passes(shared, m, Run(shared, p, m).events, Left(m, Run(shared, p, m)))
    decreases p, 0
  {
    match p
    case Use(service) =>
      AmbientIsRight(shared, m.open, service);
      PassesOne(shared, m, Used(service, ClientFor(shared, Enclosing(m.open), service)));
    case Bind(service) => PassesOne(shared, m, Bound(service));
    case Throw => PassesOne(shared, m, Threw);
    case Then(first, second) =>
      var one := Run(shared, first, m);
      ProgramsKeepOrder(shared, first, m);
      if one.finishes {
        FollowedBy(shared, m, one, second);
      }
    case Try(body, handler) =>
      var one := Run(shared, body, m);
      ProgramsKeepOrder(shared, body, m);
      if !one.finishes {
        PassesOne(shared, Left(m, one), Caught);
        var caught := one.(finishes := true, events := one.events + [Caught]);
        PassesBoth(shared, m, one.events, Left(m, one), [Caught], Left(m, caught));
        FollowedBy(shared, m, caught, handler);
      }
    case Tx(service, fn, fate) =>
      AmbientIsRight(shared, m.open, service);
      var ambient := Ambient(shared, Enclosing(m.open), service);
      if ambient.Some? {
        PassesOne(shared, m, Entered(service, ambient.value));
        ProgramsKeepOrder(shared, fn, m);
        var inner := Run(shared, fn, m);
        PassesBoth(shared, m, [Entered(service, ambient.value)], m, inner.events, Left(m, inner));
      } else if !fate.opens {
        PassesOne(shared, m, OpenFailed(service));
      } else {
        OpenedKeepsOrder(shared, service, fn, fate, m);
      }
  }

  lemma {:induction false} FollowedBy(shared: bool, m: Monitor, one: Outcome, second: Prog)
    requires Ready(m) && one.finishes && Passes(shared, m, one.events, Left(m, one))
    ensures var two := Meaning(shared, second, Enclosing(m.open), one.next, one.bound);
            Passes(shared, m, one.events + two.events, Left(m, two))
    decreases second, 1
  {
    var mid := Left(m, one);
    ProgramsKeepOrder(shared, second, mid);
    var two := Run(shared, second, mid);
    PassesBoth(shared, m, one.events, mid, two.events, Left(mid, two));
  }

  // The events with which a call opens a transaction.
  function Opening(service: Service, id: nat): seq<Event> {
    [Opened(service, id), Entered(service, InTx(service, id))]
  }

  // A call that opens a transaction, taken apart.
  lemma TxOpens(shared: bool, service: Service, fn: Prog, fate: Fate, env: Env, next: nat, bound: set<Service>)
    requires Ambient(shared, env, service).None? && fate.opens
    ensures Meaning(shared, Tx(service, fn, fate), env, next, bound)
            == Finished(service, next, fate,
                        AfterEvents(Opening(service, next),
                                    Meaning(shared, fn, Inside(env, service, next), next + 1, bound)))
  {
  }

  // The same, started at a monitor: the body runs with the transaction open.
  lemma RunOpens(shared: bool, service: Service, fn: Prog, fate: Fate, m: Monitor)
    requires Ambient(shared, Enclosing(m.open), service).None? && fate.opens
    ensures Run(shared, Tx(service, fn, fate), m)
            == CallOutcome(service, fate, m, Run(shared, fn, Watch(m, Opened(service, m.next))))
  {
    TxOpens(shared, service, fn, fate, Enclosing(m.open), m.next, m.bound);
    EnclosingInside(m.open, service, m.next);
  }

  // What a call that opens a transaction comes to, by the outcome of its body.
  function CallOutcome(service: Service, fate: Fate, m: Monitor, inner: Outcome): Outcome {
    Finished(service, m.next, fate, AfterEvents(Opening(service, m.next), inner))
  }

  lemma CallKeepsOrder(shared: bool, service: Service, fate: Fate, m: Monitor, inner: Outcome)
    requires Ready(m) && !Joins(shared, m.open, service)
    requires var inside := Watch(m, Opened(service, m.next)); Passes(shared, inside, inner.events, Left(inside, inner))
    ensures var call := CallOutcome(service, fate, m, inner); Passes(shared, m, call.events, Left(m, call))
  {
    var inside := Watch(m, Opened(service, m.next));
    OpeningKeepsOrder(shared, service, m);
    PassesBoth(shared, m, Opening(service, m.next), inside, inner.events, Left(inside, inner));
    FinishedKeepsOrder(shared, service, m.next, fate, m, AfterEvents(Opening(service, m.next), inner));
  }

  lemma {:induction false} OpenedKeepsOrder(shared: bool, service: Service, fn: Prog, fate: Fate, m: Monitor)
    requires Ready(m) && !Joins(shared, m.open, service) && fate.opens
    ensures var outcome := Run(shared, Tx(service, fn, fate), m);
            Passes(shared, m, outcome.events, Left(m, outcome))
    decreases fn, 1
  {
    var inside := Watch(m, Opened(service, m.next));
    ProgramsKeepOrder(shared, fn, inside);
    CallKeepsOrder(shared, service, fate, m, Run(shared, fn, inside));
    AmbientIsRight(shared, m.open, service);
    RunOpens(shared, service, fn, fate, m);
  }

  lemma OpeningKeepsOrder(shared: bool, service: Service, m: Monitor)
    requires Ready(m) && !Joins(shared, m.open, service)
    ensures Passes(shared, m, Opening(service, m.next), Watch(m, Opened(service, m.next)))
  {
    var inside := Watch(m, Opened(service, m.next));
    var entered := Entered(service, InTx(service, m.next));
    assert inside.open[|m.open|] == (service, m.next);
    PassesOne(shared, m, Opened(service, m.next));
    PassesOne(shared, inside, entered);
    PassesBoth(shared, m, [Opened(service, m.next)], inside, [entered], inside);
    assert [Opened(service, m.next)] + [entered] == [Opened(service, m.next), entered];
  }

  lemma FinishedKeepsOrder(shared: bool, service: Service, id: nat, fate: Fate, m: Monitor, inner: Outcome)
    requires Ready(m)
    requires Passes(shared, m, inner.events, Left(m.(open := m.open + [(service, id)]), inner))
    ensures var outcome := Finished(service, id, fate, inner);
            Passes(shared, m, outcome.events, Left(m, outcome))
  {
    var mid := Left(m.(open := m.open + [(service, id)]), inner);
    var outcome := Finished(service, id, fate, inner);
    assert Outer(mid.open) == m.open;
    if !inner.finishes {
      EndsWith(shared, m, inner.events, mid, RolledBack(service, id), Left(m, outcome));
    } else if !fate.commits {
      EndsWith(shared, m, inner.events, mid, CommitFailed(service, id), Left(m, outcome));
    } else {
      var committed := Watch(mid, Committed(service, id));
      EndsWith(shared, m, inner.events, mid, Committed(service, id), committed);
      if service in inner.bound {
        var callback := if fate.callbackReturns then CallbackRan(service, id) else CallbackThrew(service, id);
        var ended := inner.events + [Committed(service, id)];
        EndsWith(shared, m, ended, committed, callback, Left(m, outcome));
        assert ended + [callback] == inner.events + [Committed(service, id), callback];
      }
    }
  }

  lemma EndsWith(shared: bool, m: Monitor, events: seq<Event>, mid: Monitor, e: Event, after: Monitor)
    requires Passes(shared, m, events, mid) && Allowed(shared, mid, e) && Watch(mid, e) == after
    ensures Passes(shared, m, events + [e], after)
  {
    PassesOne(shared, mid, e);
    PassesBoth(shared, m, events, mid, [e], after);
  }

  lemma EnclosingInside(open: seq<(Service, nat)>, service: Service, id: nat)
    ensures Enclosing(open + [(service, id)]) == Inside(Enclosing(open), service, id)
  {
    forall other ensures InnermostOf(open + [(service, id)], other)
                         == if other == service then Some(id) else InnermostOf(open, other)
    {
      InnermostInside(open, service, id, other);
    }
  }

  lemma InnermostInside(open: seq<(Service, nat)>, service: Service, id: nat, other: Service)
    ensures InnermostOf(open + [(service, id)], other)
            == if other == service then Some(id) else InnermostOf(open, other)
  {
    var longer := open + [(service, id)];
    assert longer[|open|] == (service, id);
    if other != service {
      if Busy(open, other) {
        var k :| 0 <= k < |open| && open[k].0 == other;
        assert longer[k].0 == other;
        LastIsOne(open, longer, other, InnermostOf(open, other).value, InnermostOf(longer, other).value);
      }
    }
  }

  lemma LastIsOne(open: seq<(Service, nat)>, longer: seq<(Service, nat)>, service: Service, a: nat, b: nat)
    requires IsLastOf(open, service, a) && IsLastOf(longer, service, b)
    requires |longer| == |open| + 1 && longer[..|open|] == open && longer[|open|].0 != service
    ensures a == b
  {
    assert forall k :: 0 <= k < |open| ==> longer[k] == open[k];
  }
}
