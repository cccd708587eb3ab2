/** Which connections of which users the websocket gateway keeps track of, over every order of its callbacks. */
module SessionTracking {
  // The identity of a connection object.
  type Conn = nat
  type UserId = string

  datatype Meta = Meta(userId: UserId, connectTime: int)

  datatype Tracking = Tracking(
    active: set<Conn>,
    users: map<UserId, set<Conn>>,
    meta: map<Conn, Meta>,
    opens: nat, closes: nat, errors: nat,   // connection counters
    starts: nat, ends: nat)                 // session counters

  const NOTHING := Tracking({}, map[], map[], 0, 0, 0, 0, 0)

  // What the gateway is called back with. A user id of "" is one not (yet) known to the ShareDB agent.
  datatype Event =
    | Opened(conn: Conn, listens: bool)               // `listens` is false when setting up the stream threw
    | Bound(conn: Conn, userId: UserId, now: int)     // the deferred binding of the connection fires
    | Closed(conn: Conn, agentUser: UserId)

  /* Each callback as a function of the state. */

  function AfterOpened(s: Tracking, conn: Conn, listens: bool): Tracking {
    if listens then s.(active := s.active + {conn}, opens := s.opens + 1)
    else s.(active := s.active - {conn}, opens := s.opens + 1, errors := s.errors + 1)
  }

  function AfterBound(s: Tracking, conn: Conn, userId: UserId, now: int): Tracking {
    if userId == "" then s
    else
      var known := userId in s.users;
      s.(meta := s.meta[conn := Meta(userId, now)],
         users := s.users[userId := (if known then s.users[userId] else {}) + {conn}],
         starts := if known then s.starts else s.starts + 1)
  }

  // Takes a connection out of a user's set, and the user out of the map with the last one.
  function WithoutConn(s: Tracking, conn: Conn, userId: UserId): Tracking {
    if userId !in s.users then s
    else
      var rest := s.users[userId] - {conn};
      if rest == {} then s.(users := s.users - {userId}, ends := s.ends + 1)
      else s.(users := s.users[userId := rest])
  }

  function AfterClosed(s: Tracking, conn: Conn, agentUser: UserId): Tracking {
    var gone := s.(active := s.active - {conn}, closes := s.closes + 1, meta := s.meta - {conn});
    if conn in s.meta then WithoutConn(gone, conn, s.meta[conn].userId)
    else if agentUser == "" then gone
    else WithoutConn(gone, conn, agentUser)
  }

  function After(s: Tracking, e: Event): Tracking {
    match e
    case Opened(conn, listens) => AfterOpened(s, conn, listens)
    case Bound(conn, userId, now) => AfterBound(s, conn, userId, now)
    case Closed(conn, agentUser) => AfterClosed(s, conn, agentUser)
  }

  function Replay(history: seq<Event>): Tracking {
    if history == [] then NOTHING else After(Replay(history[..|history| - 1]), history[|history| - 1])
  }

  /* What keeps. */

  predicate Tracked(s: Tracking, conn: Conn, userId: UserId) {
    userId in s.users && conn in s.users[userId]
  }

  predicate MetaNames(s: Tracking, conn: Conn, userId: UserId) {
    conn in s.meta && s.meta[conn].userId == userId
  }

  // A connection is in a user's set exactly when its metadata names that user; no set is empty.
  ghost predicate Linked(s: Tracking) {
    && (forall conn, userId :: Tracked(s, conn, userId) <==> MetaNames(s, conn, userId))
    && (forall userId :: userId in s.users ==> s.users[userId] != {})
  }

  ghost predicate Counted(s: Tracking) {
    s.starts - s.ends == |s.users|
  }

  ghost function SetSizes(users: map<UserId, set<Conn>>): nat
    decreases |users|
  {
    if users == map[] then 0
    else
      var u :| u in users;
      assert |users - {u}| < |users| by { Smaller(users, u); }
      |users[u]| + SetSizes(users - {u})
  }

  lemma Smaller<V>(users: map<UserId, V>, u: UserId)
    requires u in users
    ensures |users - {u}| == |users| - 1
  {
    assert (users - {u}).Keys == users.Keys - {u};
    assert |users.Keys| == |users| && |(users - {u}).Keys| == |users - {u}|;
  }

  lemma Larger<V>(users: map<UserId, V>, u: UserId, v: V)
    ensures |users[u := v]| == if u in users then |users| else |users| + 1
  {
    assert users[u := v].Keys == users.Keys + {u};
    assert |users.Keys| == |users| && |users[u := v].Keys| == |users[u := v]|;
  }

  /** The sets of all users together hold each connection with metadata once. */
  lemma {:induction false} SizesAddUp(s: Tracking)
    requires Linked(s)
    ensures SetSizes(s.users) == |s.meta|
    decreases |s.users|
  {
    if s.users == map[] {
      forall conn | conn in s.meta ensures false {
        assert MetaNames(s, conn, s.meta[conn].userId) && !Tracked(s, conn, s.meta[conn].userId);
      }
      assert s.meta == map[];
    } else {
      var u: UserId :| u in s.users && SetSizes(s.users) == |s.users[u]| + SetSizes(s.users - {u});
      var rest := s.(users := s.users - {u}, meta := s.meta - s.users[u]);
      forall conn, userId ensures Tracked(rest, conn, userId) <==> MetaNames(rest, conn, userId) {
        assert Tracked(s, conn, userId) <==> MetaNames(s, conn, userId);
        assert Tracked(s, conn, u) <==> MetaNames(s, conn, u);
      }
      Smaller(s.users, u);
      SizesAddUp(rest);
      forall conn | conn in s.users[u] ensures conn in s.meta {
        assert Tracked(s, conn, u);
      }
      assert rest.meta.Keys == s.meta.Keys - s.users[u];
      assert |s.meta.Keys| == |s.meta| && |rest.meta.Keys| == |rest.meta|;
    }
  }

  /** A bind keeps connections and metadata linked exactly when it does not move a tracked connection to another
    * user. */
  lemma BindKeepsLinkedIff(s: Tracking, conn: Conn, userId: UserId, now: int)
    requires Linked(s)
    ensures Linked(AfterBound(s, conn, userId, now))
            <==> userId == "" || conn !in s.meta || s.meta[conn].userId == userId
  {
    var after := AfterBound(s, conn, userId, now);
    if userId != "" && conn in s.meta && s.meta[conn].userId != userId {
      var other := s.meta[conn].userId;
      assert MetaNames(s, conn, other);
      assert Tracked(after, conn, other) && !MetaNames(after, conn, other);
    } else {
      forall c, u ensures Tracked(after, c, u) <==> MetaNames(after, c, u) {
        assert Tracked(s, c, u) <==> MetaNames(s, c, u);
      }
    }
  }

  lemma CloseKeepsLinked(s: Tracking, conn: Conn, agentUser: UserId)
    requires Linked(s)
    ensures Linked(AfterClosed(s, conn, agentUser))
  {
    var after := AfterClosed(s, conn, agentUser);
    forall c, u ensures Tracked(after, c, u) <==> MetaNames(after, c, u) {
      assert Tracked(s, c, u) <==> MetaNames(s, c, u);
    }
  }

  /** Closing a connection without metadata leaves every user's set alone, whatever user its agent names. */
  lemma CloseWithoutMeta(s: Tracking, conn: Conn, agentUser: UserId)
    requires Linked(s) && conn !in s.meta
    ensures AfterClosed(s, conn, agentUser) == s.(active := s.active - {conn}, closes := s.closes + 1)
  {
    assert s.meta - {conn} == s.meta;
    if agentUser != "" && agentUser in s.users {
      assert Tracked(s, conn, agentUser) <==> MetaNames(s, conn, agentUser);
      assert s.users[agentUser] - {conn} == s.users[agentUser];
      assert s.users[agentUser := s.users[agentUser]] == s.users;
    }
  }

  lemma StepKeepsCounted(s: Tracking, e: Event)
    requires Linked(s) && Counted(s)
    ensures Counted(After(s, e))
  {
    match e
    case Opened(_, _) =>
    case Bound(conn, userId, _) =>
      Larger(s.users, userId, (if userId in s.users then s.users[userId] else {}) + {conn});
    case Closed(conn, agentUser) =>
      if conn in s.meta {
        CountedWithout(s, conn, s.meta[conn].userId);
      } else {
        CountedWithout(s, conn, agentUser);
      }
  }

  lemma CountedWithout(s: Tracking, conn: Conn, userId: UserId)
    requires Counted(s)
    ensures Counted(WithoutConn(s, conn, userId))
  {
    if userId in s.users {
      Smaller(s.users, userId);
      Larger(s.users, userId, s.users[userId] - {conn});
    }
  }

  /* Histories the runtime can produce. */

  predicate OpensAt(history: seq<Event>, i: nat, conn: Conn) {
    i < |history| && history[i].Opened? && history[i].conn == conn
  }

  predicate BindsAt(history: seq<Event>, i: nat, conn: Conn) {
    i < |history| && history[i].Bound? && history[i].conn == conn
  }

  predicate ClosesAt(history: seq<Event>, i: nat, conn: Conn) {
    i < |history| && history[i].Closed? && history[i].conn == conn
  }

  // A connection object is opened once, its timer is set once setup succeeded and fires at most once, and the
  // connection closes at most once. Nothing orders the timer and the close.
  ghost predicate Possible(history: seq<Event>, i: nat)
    requires i < |history|
  {
    match history[i]
    case Opened(conn, _) => forall j :: 0 <= j < i ==> !OpensAt(history, j, conn)
    case Bound(conn, _, _) =>
      && (exists j: nat :: j < i && OpensAt(history, j, conn) && history[j].listens)
      && (forall j :: 0 <= j < i ==> !BindsAt(history, j, conn))
    case Closed(conn, _) =>
      && (exists j: nat :: j < i && OpensAt(history, j, conn))
      && (forall j :: 0 <= j < i ==> !ClosesAt(history, j, conn))
  }

  ghost predicate Legal(history: seq<Event>) {
    forall i :: 0 <= i < |history| ==> Possible(history, i)
  }

  lemma LegalPrefix(history: seq<Event>)
    requires Legal(history) && history != []
    ensures Legal(history[..|history| - 1])
  {
    var before := history[..|history| - 1];
    forall i | 0 <= i < |before| ensures Possible(before, i) {
      PossiblePrefix(history, i);
    }
  }

  lemma PossiblePrefix(history: seq<Event>, i: nat)
    requires i < |history| - 1 && Possible(history, i)
    ensures Possible(history[..|history| - 1], i)
  {
    var before := history[..|history| - 1];
    assert forall j :: 0 <= j <= i ==> before[j] == history[j];
    forall j: nat, conn | j <= i
      ensures OpensAt(before, j, conn) == OpensAt(history, j, conn)
      ensures BindsAt(before, j, conn) == BindsAt(history, j, conn)
      ensures ClosesAt(before, j, conn) == ClosesAt(history, j, conn)
    {
    }
  }

  // The connection was bound to the user and has not closed since.
  ghost predicate BoundSince(history: seq<Event>, conn: Conn, userId: UserId) {
    userId != ""
    && exists i: nat :: BindsAt(history, i, conn) && history[i].userId == userId && OpenAfter(history, i, conn)
  }

  ghost predicate OpenAfter(history: seq<Event>, i: nat, conn: Conn) {
    forall j: nat :: i < j ==> !ClosesAt(history, j, conn)
  }

  lemma BoundSinceSnoc(history: seq<Event>, e: Event, conn: Conn, userId: UserId)
    ensures BoundSince(history + [e], conn, userId) <==>
              userId != "" && ((e.Bound? && e.conn == conn && e.userId == userId)
                               || (!(e.Closed? && e.conn == conn) && BoundSince(history, conn, userId)))
  {
    var longer, n := history + [e], |history|;
    assert forall j: nat :: j < n ==> longer[j] == history[j];
    if BoundSince(longer, conn, userId) {
      var i: nat :| BindsAt(longer, i, conn) && longer[i].userId == userId && OpenAfter(longer, i, conn);
      if i < n {
        assert BindsAt(history, i, conn);
        forall j: nat | i < j ensures !ClosesAt(history, j, conn) {
          assert !ClosesAt(longer, j, conn);
        }
        assert !ClosesAt(longer, n, conn);
      }
    }
    if e.Bound? && e.conn == conn && e.userId == userId {
      assert BindsAt(longer, n, conn) && OpenAfter(longer, n, conn);
    }
    if BoundSince(history, conn, userId) && !(e.Closed? && e.conn == conn) {
      var i: nat :| BindsAt(history, i, conn) && history[i].userId == userId && OpenAfter(history, i, conn);
      assert BindsAt(longer, i, conn);
      forall j: nat | i < j ensures !ClosesAt(longer, j, conn) {
        assert !ClosesAt(history, j, conn);
      }
      assert OpenAfter(longer, i, conn);
    }
  }

  // The state is what the history says of every connection and user.
  ghost predicate Follows(s: Tracking, history: seq<Event>) {
    && Linked(s)
    && Counted(s)
    && forall conn, userId :: Tracked(s, conn, userId) <==> BoundSince(history, conn, userId)
  }

  lemma FollowsNothing()
    ensures Follows(NOTHING, [])
  {
    forall conn, userId ensures !BoundSince([], conn, userId) {
    }
  }

  lemma FollowsStep(s: Tracking, history: seq<Event>, e: Event)
    requires Follows(s, history) && Possible(history + [e], |history|)
    ensures Follows(After(s, e), history + [e])
  {
    StepKeepsLinked(s, history, e);
    StepKeepsCounted(s, e);
    forall conn, userId ensures Tracked(After(s, e), conn, userId) <==> BoundSince(history + [e], conn, userId) {
      StepMoves(s, e, conn, userId);
      BoundSinceSnoc(history, e, conn, userId);
    }
  }

  lemma {:induction false} ReplayFollows(history: seq<Event>)
    requires Legal(history)
    ensures Follows(Replay(history), history)
  {
    if history == [] {
      FollowsNothing();
    } else {
      var before, e := history[..|history| - 1], history[|history| - 1];
      LegalPrefix(history);
      ReplayFollows(before);
      assert history == before + [e];
      FollowsStep(Replay(before), before, e);
    }
  }

  /** After every history, whatever the interleaving: metadata and users' sets agree and no set is empty, the set sizes
    * sum to the number of metadata entries, the session counters differ by the number of active users, and a connection
    * is tracked for a user exactly when it was bound to that user and has not closed since. */
  lemma TrackingOverEveryHistory(history: seq<Event>)
    requires Legal(history)
    ensures Linked(Replay(history)) && Counted(Replay(history))
    ensures SetSizes(Replay(history).users) == |Replay(history).meta|
    ensures forall conn, userId :: Tracked(Replay(history), conn, userId) <==> BoundSince(history, conn, userId)
  {
    ReplayFollows(history);
    SizesAddUp(Replay(history));
  }

  // A connection about to be bound is not tracked for anybody.
  lemma FreshBind(history: seq<Event>, e: Event, userId: UserId)
    requires e.Bound? && Possible(history + [e], |history|)
    ensures !BoundSince(history, e.conn, userId)
  {
    if BoundSince(history, e.conn, userId) {
      var i: nat :| BindsAt(history, i, e.conn);
      assert BindsAt(history + [e], i, e.conn);
      assert false;
    }
  }

  lemma StepKeepsLinked(s: Tracking, history: seq<Event>, e: Event)
    requires Follows(s, history) && Possible(history + [e], |history|)
    ensures Linked(After(s, e))
  {
    match e
    case Opened(conn, listens) =>
      forall c, u ensures Tracked(After(s, e), c, u) <==> MetaNames(After(s, e), c, u) {
        assert Tracked(s, c, u) <==> MetaNames(s, c, u);
      }
    case Bound(conn, userId, now) =>
      BindKeepsLinkedIff(s, conn, userId, now);
      if conn in s.meta {
        FreshBind(history, e, s.meta[conn].userId);
        assert MetaNames(s, conn, s.meta[conn].userId);
      }
    case Closed(conn, agentUser) =>
      CloseKeepsLinked(s, conn, agentUser);
  }

  lemma StepMoves(s: Tracking, e: Event, conn: Conn, userId: UserId)
    requires Linked(s)
    ensures Tracked(After(s, e), conn, userId) <==>
              (userId != "" && e.Bound? && e.conn == conn && e.userId == userId)
              || (!(e.Closed? && e.conn == conn) && Tracked(s, conn, userId))
  {
    if e.Closed? && e.conn == conn {
      CloseKeepsLinked(s, conn, e.agentUser);
      assert !MetaNames(After(s, e), conn, userId);
    } else if e.Closed? {
      assert Tracked(s, conn, userId) <==> MetaNames(s, conn, userId);
      assert e.conn in s.meta ==> MetaNames(s, e.conn, s.meta[e.conn].userId);
    }
  }

  // The connection was opened with a working stream and has not closed since.
  ghost predicate OpenSince(history: seq<Event>, conn: Conn) {
    exists i: nat :: OpensAt(history, i, conn) && history[i].listens && OpenAfter(history, i, conn)
  }

  /** The active connections are those opened without an error and not closed since. */
  lemma {:induction false} ActiveConnections(history: seq<Event>, conn: Conn)
    requires Legal(history)
    ensures conn in Replay(history).active <==> OpenSince(history, conn)
  {
    if history != [] {
      var n := |history| - 1;
      var before, e := history[..n], history[n];
      LegalPrefix(history);
      ActiveConnections(before, conn);
      assert forall j: nat :: j < n ==> before[j] == history[j];
      if e.Opened? && e.conn == conn {
        assert Possible(history, n) && OpensAt(history, n, conn) && OpenAfter(history, n, conn);
      } else if e.Closed? && e.conn == conn {
        assert ClosesAt(history, n, conn);
      } else {
        OpenSinceSnoc(history, conn);
      }
    }
  }

  lemma OpenSinceSnoc(history: seq<Event>, conn: Conn)
    requires history != [] && (history[|history| - 1].Bound? || history[|history| - 1].conn != conn)
    ensures OpenSince(history, conn) <==> OpenSince(history[..|history| - 1], conn)
  {
    var n := |history| - 1;
    var before := history[..n];
    assert forall j: nat :: j < n ==> before[j] == history[j];
    if OpenSince(history, conn) {
      var i: nat :| OpensAt(history, i, conn) && history[i].listens && OpenAfter(history, i, conn);
      forall j: nat | i < j ensures !ClosesAt(before, j, conn) {
        assert !ClosesAt(history, j, conn);
      }
      assert OpensAt(before, i, conn) && OpenAfter(before, i, conn);
    }
    if OpenSince(before, conn) {
      var i: nat :| OpensAt(before, i, conn) && before[i].listens && OpenAfter(before, i, conn);
      forall j: nat | i < j ensures !ClosesAt(history, j, conn) {
        assert !ClosesAt(before, j, conn);
      }
      assert OpensAt(history, i, conn) && OpenAfter(history, i, conn);
    }
  }

  /* The race between the timer and the close. */

  ghost predicate BoundAfterClose(history: seq<Event>, conn: Conn) {
    exists i: nat, j: nat :: i < j && ClosesAt(history, i, conn) && BindsAt(history, j, conn) && history[j].userId != ""
  }

  ghost predicate HasClosed(history: seq<Event>, conn: Conn) {
    exists i: nat :: ClosesAt(history, i, conn)
  }

  /** A closed connection is still tracked exactly when its timer fired, and found a user, after it had closed. */
  lemma StaysTrackedIff(history: seq<Event>, conn: Conn)
    requires Legal(history) && HasClosed(history, conn)
    ensures conn in Replay(history).meta <==> BoundAfterClose(history, conn)
  {
    var s := Replay(history);
    TrackingOverEveryHistory(history);
    var c: nat :| ClosesAt(history, c, conn);
    if conn in s.meta {
      var userId := s.meta[conn].userId;
      assert MetaNames(s, conn, userId) && Tracked(s, conn, userId);
      var i: nat :| BindsAt(history, i, conn) && history[i].userId == userId && OpenAfter(history, i, conn);
      assert c <= i && c != i;
    }
    if BoundAfterClose(history, conn) {
      var i: nat, j: nat :| i < j && ClosesAt(history, i, conn) && BindsAt(history, j, conn) && history[j].userId != "";
      forall k: nat | j < k ensures !ClosesAt(history, k, conn) {
        assert k < |history| ==> Possible(history, k);
      }
      assert OpenAfter(history, j, conn) && BoundSince(history, conn, history[j].userId);
      assert Tracked(s, conn, history[j].userId) && MetaNames(s, conn, history[j].userId);
    }
  }

  /** And then it stays tracked whatever happens next. */
  lemma TrackedForGood(history: seq<Event>, more: seq<Event>, conn: Conn)
    requires Legal(history) && Legal(history + more) && BoundAfterClose(history, conn)
    ensures conn in Replay(history + more).meta
  {
    var longer := history + more;
    var i: nat, j: nat :| i < j && ClosesAt(history, i, conn) && BindsAt(history, j, conn) && history[j].userId != "";
    assert ClosesAt(longer, i, conn) && BindsAt(longer, j, conn) && longer[j].userId != "";
    StaysTrackedIff(longer, conn);
  }

  /** Such a history exists: a connection opens, closes, and only then is bound to its user. */
  lemma ClosedBeforeBound(conn: Conn, userId: UserId, now: int)
    requires userId != ""
    ensures var history := [Opened(conn, true), Closed(conn, userId), Bound(conn, userId, now)];
            && Legal(history)
            && Tracked(Replay(history), conn, userId)
            && Replay(history).starts == Replay(history).ends + 1
  {
    var history := [Opened(conn, true), Closed(conn, userId), Bound(conn, userId, now)];
    assert OpensAt(history, 0, conn) && history[0].listens;
    assert ClosesAt(history, 1, conn) && BindsAt(history, 2, conn) && OpenAfter(history, 2, conn);
    assert BoundSince(history, conn, userId);
    TrackingOverEveryHistory(history);
    assert history[..2] == [Opened(conn, true), Closed(conn, userId)] && history[..2][..1] == [Opened(conn, true)];
    assert Replay(history[..2][..1]) == AfterOpened(NOTHING, conn, true);
  }
}
