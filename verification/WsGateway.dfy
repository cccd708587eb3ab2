/** The websocket gateway: its fields, and the callbacks that update them. */
module WsGatewayService {
  import opened SessionTracking

  class WsGateway {
    var activeConnections: set<Conn>
    var userConnectionMap: map<UserId, set<Conn>>
    var connectionMeta: map<Conn, Meta>

    // what is reported to the metrics
    var opens: nat
    var closes: nat
    var errors: nat
    var sessionStarts: nat
    var sessionEnds: nat

    // the callbacks that have run
    ghost var history: seq<Event>

    ghost function View(): Tracking
      reads this
    {
      Tracking(activeConnections, userConnectionMap, connectionMeta, opens, closes, errors, sessionStarts, sessionEnds)
    }

    // The fields are those that the history of callbacks leads to.
    ghost predicate Valid()
      reads this
    {
      View() == Replay(history)
    }

    constructor ()
      ensures Valid() && history == []
    {
      activeConnections, userConnectionMap, connectionMeta := {}, map[], map[];
      opens, closes, errors, sessionStarts, sessionEnds := 0, 0, 0, 0, 0;
      history := [];
    }

    ghost method Record(e: Event)
      requires View() == After(Replay(history), e)
      modifies `history
      ensures Valid() && history == old(history) + [e]
    {
      assert (history + [e])[..|history|] == history;
      history := history + [e];
    }

    // `listens` is false when creating the stream or listening on it throws.
    method HandleConnection(conn: Conn, listens: bool)
      requires Valid()
      modifies this
      ensures Valid() && history == old(history) + [Opened(conn, listens)]
      ensures View() == AfterOpened(old(View()), conn, listens)
    {
      activeConnections := activeConnections + {conn};
      opens := opens + 1;
      if !listens {
        errors := errors + 1;
        activeConnections := activeConnections - {conn};
        assert old(activeConnections) + {conn} - {conn} == old(activeConnections) - {conn};
      }
      Record(Opened(conn, listens));
    }

    // The callback of the timer that `deferUserBinding` sets.
    method UserBindingFires(conn: Conn, userId: UserId, now: int)
      requires Valid()
      modifies this
      ensures Valid() && history == old(history) + [Bound(conn, userId, now)]
      ensures View() == AfterBound(old(View()), conn, userId, now)
    {
      if userId != "" {
        HandleUserConnect(conn, userId, now);
      }
      Record(Bound(conn, userId, now));
    }

    method HandleUserConnect(conn: Conn, userId: UserId, now: int)
      requires userId != ""
      modifies `connectionMeta, `userConnectionMap, `sessionStarts
      ensures View() == AfterBound(old(View()), conn, userId, now)
    {
      connectionMeta := connectionMeta[conn := Meta(userId, now)];
      if userId !in userConnectionMap {
        userConnectionMap := userConnectionMap[userId := {}];
        sessionStarts := sessionStarts + 1;
      }
      userConnectionMap := userConnectionMap[userId := userConnectionMap[userId] + {conn}];
    }

    // The connection's close event.
    method HandleClose(conn: Conn, agentUser: UserId)
      requires Valid()
      modifies this
      ensures Valid() && history == old(history) + [Closed(conn, agentUser)]
      ensures View() == AfterClosed(old(View()), conn, agentUser)
    {
      activeConnections := activeConnections - {conn};
      closes := closes + 1;
      HandleUserDisconnect(conn, agentUser);
      Record(Closed(conn, agentUser));
    }

    method HandleUserDisconnect(conn: Conn, agentUser: UserId)
      modifies `connectionMeta, `userConnectionMap, `sessionEnds
      ensures var forgotten := old(View()).(meta := old(connectionMeta) - {conn});
              View() == (if conn in old(connectionMeta)
                         then WithoutConn(forgotten, conn, old(connectionMeta)[conn].userId)
                         else if agentUser == "" then forgotten
                         else WithoutConn(forgotten, conn, agentUser))
    {
      var tracked := conn in connectionMeta;
      var userId := if tracked then connectionMeta[conn].userId else agentUser;
      connectionMeta := connectionMeta - {conn};
      if !tracked && userId == "" {
        return;
      }
      if userId !in userConnectionMap {
        return;
      }
      userConnectionMap := userConnectionMap[userId := userConnectionMap[userId] - {conn}];
      if |userConnectionMap[userId]| == 0 {
        assert userConnectionMap - {userId} == old(userConnectionMap) - {userId};
        userConnectionMap := userConnectionMap - {userId};
        sessionEnds := sessionEnds + 1;
      }
    }

    // The users with a session that has started and not ended.
    method GetActiveUserCount() returns (count: nat)
      requires Valid() && Legal(history)
      ensures count == sessionStarts - sessionEnds
      ensures count == |set userId | userId in userConnectionMap|
    {
      TrackingOverEveryHistory(history);
      assert (set userId | userId in userConnectionMap) == userConnectionMap.Keys;
      count := |userConnectionMap|;
    }

    // The connections bound to the user that have not closed since.
    method GetUserConnectionCount(userId: UserId) returns (count: nat)
      requires Valid() && Legal(history)
      ensures exists conns: set<Conn> ::
                |conns| == count && forall conn :: conn in conns <==> BoundSince(history, conn, userId)
    {
      TrackingOverEveryHistory(history);
      ghost var conns := if userId in userConnectionMap then userConnectionMap[userId] else {};
      forall conn ensures conn in conns <==> BoundSince(history, conn, userId) {
        assert Tracked(Replay(history), conn, userId) <==> BoundSince(history, conn, userId);
      }
      count := if userId in userConnectionMap then |userConnectionMap[userId]| else 0;
      assert |conns| == count;
    }
  }
}
