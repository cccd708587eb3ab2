/** What an error does to the transactions around it. */
module TransactionErrors {
  import opened Wrappers
  import opened Transactions
  import opened TransactionLaws

  // The event raises an error.
  predicate Raises(e: Event) {
    e.Threw? || e.OpenFailed? || e.CommitFailed? || e.CallbackThrew?
  }

  lemma {:induction false} RaisedUntilCaught(shared: bool, m: Monitor, t: seq<Event>, i: nat, j: nat)
    requires InOrder(shared, m, t) && i < j <= |t| && Raises(t[i])
    requires forall k :: i < k < j ==> t[k] != Caught
    ensures At(m, t, j).raised && At(m, t, j).due.None?
    ensures forall k :: i < k < j ==> t[k].RolledBack?
  {
    StepAt(shared, m, t, j - 1);
    if i < j - 1 {
      RaisedUntilCaught(shared, m, t, i, j - 1);
    }
  }

  /** From the moment an error is raised until it is caught nothing happens but rollbacks. */
  lemma OnlyRollbacksUntilCaught(shared: bool, p: Prog, bound: set<Service>, i: nat, j: nat)
    requires i < j < |Trace(shared, p, bound)| && Raises(Trace(shared, p, bound)[i])
    requires forall k :: i < k <= j ==> Trace(shared, p, bound)[k] != Caught
    ensures Trace(shared, p, bound)[j].RolledBack?
  {
    TraceInOrder(shared, p, bound);
    RaisedUntilCaught(shared, Start(bound), Trace(shared, p, bound), i, j + 1);
  }

  predicate HasTry(p: Prog) {
    match p
    case Use(_) => false
    case Bind(_) => false
    case Throw => false
    case Then(first, second) => HasTry(first) || HasTry(second)
    case Try(_, _) => true
    case Tx(_, fn, _) => HasTry(fn)
  }

  /** Nothing but the program's own `catch` stops an error: no `$tx` does. */
  lemma {:induction false} OnlyTryCatches(shared: bool, p: Prog, env: Env, next: nat, bound: set<Service>)
    requires !HasTry(p)
    ensures Caught !in Meaning(shared, p, env, next, bound).events
    decreases p
  {
    match p
    case Use(_) =>
    case Bind(_) =>
    case Throw =>
    case Then(first, second) =>
      var one := Meaning(shared, first, env, next, bound);
      OnlyTryCatches(shared, first, env, next, bound);
      OnlyTryCatches(shared, second, env, one.next, one.bound);
    case Tx(service, fn, fate) =>
      if Ambient(shared, env, service).Some? {
        OnlyTryCatches(shared, fn, env, next, bound);
      } else {
        OnlyTryCatches(shared, fn, Inside(env, service, next), next + 1, bound);
      }
  }

  // The transaction is rolled back as one of the events from `i` to `j`.
  predicate RollsBack(t: seq<Event>, i: nat, j: nat, tx: (Service, nat)) {
    exists n :: i <= n < j && n < |t| && t[n] == RolledBack(tx.0, tx.1)
  }

  lemma {:induction false} RolledBackSince(shared: bool, m: Monitor, t: seq<Event>, i: nat, j: nat, k: nat)
    requires InOrder(shared, m, t) && i <= j <= |t| && forall n :: i <= n < j ==> t[n].RolledBack?
    requires k < |At(m, t, i).open|
    ensures k < |At(m, t, j).open| ==> At(m, t, j).open[k] == At(m, t, i).open[k]
    ensures k >= |At(m, t, j).open| ==> RollsBack(t, i, j, At(m, t, i).open[k])
  {
    if i < j {
      RolledBackSince(shared, m, t, i, j - 1, k);
      StepAt(shared, m, t, j - 1);
      assert At(m, t, j).open == Outer(At(m, t, j - 1).open);
    }
  }

  /** An error nobody catches, wherever it is raised and however deep in nested calls, makes the request throw; every
    * transaction open at that moment is rolled back, and nothing else happens any more: nothing is committed. */
  lemma UncaughtRollsBack(shared: bool, p: Prog, bound: set<Service>, i: nat)
    requires i < |Trace(shared, p, bound)| && Raises(Trace(shared, p, bound)[i])
    requires forall j :: i < j < |Trace(shared, p, bound)| ==> Trace(shared, p, bound)[j] != Caught
    ensures !Meaning(shared, p, OUTSIDE, 0, bound).finishes
    ensures forall j :: i < j < |Trace(shared, p, bound)| ==> Trace(shared, p, bound)[j].RolledBack?
    ensures var t := Trace(shared, p, bound);
            var open := At(Start(bound), t, i + 1).open;
            forall k :: 0 <= k < |open| ==> RollsBack(t, i + 1, |t|, open[k])
  {
    var m, t := Start(bound), Trace(shared, p, bound);
    TraceInOrder(shared, p, bound);
    RaisedUntilCaught(shared, m, t, i, |t|);
    assert t[..|t|] == t;
    var open := At(m, t, i + 1).open;
    forall k | 0 <= k < |open| ensures RollsBack(t, i + 1, |t|, open[k]) {
      RolledBackSince(shared, m, t, i + 1, |t|, k);
    }
  }

  /** So in a program without a `catch` the first error is the end of it. */
  lemma FirstErrorIsFinal(shared: bool, p: Prog, bound: set<Service>, i: nat)
    requires !HasTry(p) && i < |Trace(shared, p, bound)| && Raises(Trace(shared, p, bound)[i])
    ensures !Meaning(shared, p, OUTSIDE, 0, bound).finishes
    ensures forall j :: i < j < |Trace(shared, p, bound)| ==> Trace(shared, p, bound)[j].RolledBack?
  {
    OnlyTryCatches(shared, p, OUTSIDE, 0, bound);
    var t := Trace(shared, p, bound);
    assert forall j :: i < j < |t| ==> t[j] in t;
    UncaughtRollsBack(shared, p, bound, i);
  }

  /** A request throws exactly when its last event but for rollbacks raised an error. */
  lemma ThrowsIff(shared: bool, p: Prog, bound: set<Service>)
    ensures !Meaning(shared, p, OUTSIDE, 0, bound).finishes
            <==> exists i :: 0 <= i < |Trace(shared, p, bound)| && EndsInError(Trace(shared, p, bound), i)
  {
    var m, t := Start(bound), Trace(shared, p, bound);
    TraceInOrder(shared, p, bound);
    assert t[..|t|] == t;
    if !Meaning(shared, p, OUTSIDE, 0, bound).finishes {
      var i := Raiser(shared, m, t, |t|);
      assert EndsInError(t, i);
    }
    if i :| 0 <= i < |t| && EndsInError(t, i) {
      RaisedUntilCaught(shared, m, t, i, |t|);
    }
  }

  predicate EndsInError(t: seq<Event>, i: nat)
    requires i < |t|
  {
    Raises(t[i]) && forall j :: i < j < |t| ==> t[j].RolledBack?
  }

  lemma {:induction false} NothingDueInFlight(shared: bool, m: Monitor, t: seq<Event>, n: nat)
    requires InOrder(shared, m, t) && Ready(m) && n <= |t|
    ensures At(m, t, n).raised ==> At(m, t, n).due.None?
  {
    if n > 0 {
      StepAt(shared, m, t, n - 1);
      NothingDueInFlight(shared, m, t, n - 1);
    }
  }

  lemma {:induction false} Raiser(shared: bool, m: Monitor, t: seq<Event>, n: nat) returns (i: nat)
    requires InOrder(shared, m, t) && Ready(m) && n <= |t| && At(m, t, n).raised
    ensures i < n && Raises(t[i]) && forall j :: i < j < n ==> t[j].RolledBack?
  {
    StepAt(shared, m, t, n - 1);
    NothingDueInFlight(shared, m, t, n - 1);
    if At(m, t, n - 1).raised {
      i := Raiser(shared, m, t, n - 1);
    } else {
      i := n - 1;
    }
  }
}
