/** What the gateway's counters and metadata say about the history of its callbacks. */
module SessionCounts {
  import opened SessionTracking

  // The user has a connection that was bound to them and has not closed since.
  ghost predicate Active(history: seq<Event>, userId: UserId) {
    exists conn :: BoundSince(history, conn, userId)
  }

  lemma ActiveIff(history: seq<Event>, userId: UserId)
    requires Legal(history)
    ensures Active(history, userId) <==> userId in Replay(history).users
  {
    var s := Replay(history);
    TrackingOverEveryHistory(history);
    if userId in s.users {
      var conn :| conn in s.users[userId];
      assert Tracked(s, conn, userId);
    }
    if Active(history, userId) {
      var conn :| BoundSince(history, conn, userId);
      assert Tracked(s, conn, userId);
    }
  }

  ghost predicate Starts(before: seq<Event>, after: seq<Event>) {
    exists userId :: !Active(before, userId) && Active(after, userId)
  }

  lemma ReplaySnoc(history: seq<Event>, e: Event)
    ensures Replay(history + [e]) == After(Replay(history), e)
  {
    assert (history + [e])[..|history|] == history;
  }

  lemma KeysMove(s: Tracking, e: Event)
    ensures var t := After(s, e);
            && t.starts == s.starts + (if exists u :: u !in s.users && u in t.users then 1 else 0)
            && t.ends == s.ends + (if exists u :: u in s.users && u !in t.users then 1 else 0)
  {
    var t := After(s, e);
    match e {
      case Opened(_, _) =>
      case Bound(_, userId, _) =>
        assert userId != "" ==> userId in t.users;
      case Closed(conn, agentUser) =>
        var userId := if conn in s.meta then s.meta[conn].userId else agentUser;
        assert t.ends != s.ends ==> userId in s.users && userId !in t.users;
    }
  }

  /** A session starts with the callback that makes a user active and ends with the one after which they no longer are;
    * no other callback counts, whatever the interleaving. */
  lemma SessionsCounted(history: seq<Event>, e: Event)
    requires Legal(history) && Legal(history + [e])
    ensures var s, t := Replay(history), Replay(history + [e]);
            && t.starts == s.starts + (if Starts(history, history + [e]) then 1 else 0)
            && t.ends == s.ends + (if Starts(history + [e], history) then 1 else 0)
  {
    var s, t := Replay(history), Replay(history + [e]);
    ReplaySnoc(history, e);
    KeysMove(s, e);
    forall userId
      ensures Active(history, userId) <==> userId in s.users
      ensures Active(history + [e], userId) <==> userId in t.users
    {
      ActiveIff(history, userId);
      ActiveIff(history + [e], userId);
    }
  }

  // How many of the callbacks are of a kind.
  function Tally(history: seq<Event>, kind: Event -> bool): nat {
    if history == [] then 0
    else Tally(history[..|history| - 1], kind) + if kind(history[|history| - 1]) then 1 else 0
  }

  /** Every opened connection, every close and every failed setup is counted once, and nothing else is. */
  lemma {:induction false} ConnectionsCounted(history: seq<Event>)
    ensures Replay(history).opens == Tally(history, (e: Event) => e.Opened?)
    ensures Replay(history).closes == Tally(history, (e: Event) => e.Closed?)
    ensures Replay(history).errors == Tally(history, (e: Event) => e.Opened? && !e.listens)
  {
    if history != [] {
      ConnectionsCounted(history[..|history| - 1]);
    }
  }

  /** The metadata of a connection are the user and the time of its bind. */
  lemma {:induction false} MetadataAreTheBind(history: seq<Event>, conn: Conn)
    requires conn in Replay(history).meta
    ensures exists i: nat :: BindsAt(history, i, conn)
                             && Replay(history).meta[conn] == Meta(history[i].userId, history[i].now)
  {
    var n := |history| - 1;
    var e := history[n];
    if e.Bound? && e.conn == conn && e.userId != "" {
      assert BindsAt(history, n, conn);
    } else {
      MetadataAreTheBind(history[..n], conn);
      var i: nat :| BindsAt(history[..n], i, conn)
                    && Replay(history[..n]).meta[conn] == Meta(history[..n][i].userId, history[..n][i].now);
      assert BindsAt(history, i, conn);
    }
  }
}
