/**
 * `WebSocketManager`: the registry of live connections, keyed by connection id,
 * and `BroadcastUsersAsync`, which sends one serialized message to one live
 * connection of every user in the audience. The sends of `Parallel.ForEachAsync`
 * have no order, so a broadcast returns them as a multiset.
 */
module WebSocketManager {
  import opened Wrappers
  import opened UserCache
  import opened Connection

  /** The `value` of an outbound message: the audience list for "users_status", else the caller's payload. */
  datatype Payload = UserList(users: seq<UserStatus>) | Value(json: string)

  /** The anonymous `{ type, value }` object that is serialized once per broadcast. */
  datatype OutboundMessage = OutboundMessage(msgType: string, value: Payload)

  /** One `SendAsync` of a whole text message on one connection. */
  datatype Send = Send(connectionId: ConnectionId, bytes: seq<byte>)

  const UsersStatus: string := "users_status"

  type Registry = map<ConnectionId, WebSocketConnection>

  /** `cid` names a registered, open connection of `userId`. */
  predicate LiveConnectionOf(conns: Registry, cid: ConnectionId, userId: UserId) {
    cid in conns && conns[cid].userId == userId && conns[cid].IsAlive()
  }

  predicate HasLiveConnection(conns: Registry, userId: UserId) {
    exists cid | cid in conns.Keys :: LiveConnectionOf(conns, cid, userId)
  }

  /**
   * The recipient picked for each audience entry: one live connection of that
   * user, or none when the user has no live connection.
   */
  predicate ChoosesRecipients(conns: Registry, audience: seq<UserStatus>, recipients: seq<Option<ConnectionId>>) {
    && |recipients| == |audience|
    && (forall i | 0 <= i < |audience| :: recipients[i].None? <==> !HasLiveConnection(conns, audience[i].id))
    && (forall i | 0 <= i < |audience| :: recipients[i].Some? ==> LiveConnectionOf(conns, recipients[i].value, audience[i].id))
  }

  /** The sends of one broadcast: the same bytes to every chosen connection. */
  function SendsOf(recipients: seq<Option<ConnectionId>>, bytes: seq<byte>): multiset<Send> {
    if recipients == [] then multiset{}
    else
      var last := recipients[|recipients| - 1];
      SendsOf(recipients[..|recipients| - 1], bytes) + if last.Some? then multiset{Send(last.value, bytes)} else multiset{}
  }

  /** Every send carries the broadcast's bytes and goes to a chosen recipient. */
  lemma {:induction false} SendsOfMember(recipients: seq<Option<ConnectionId>>, bytes: seq<byte>, s: Send)
    requires s in SendsOf(recipients, bytes)
    ensures s.bytes == bytes
    ensures exists i :: 0 <= i < |recipients| && recipients[i] == Some(s.connectionId)
  {
    var n := |recipients|;
    var front := recipients[..n - 1];
    if s in SendsOf(front, bytes) {
      SendsOfMember(front, bytes, s);
      var i :| 0 <= i < |front| && front[i] == Some(s.connectionId);
      assert recipients[i] == front[i];
    } else {
      assert recipients[n - 1] == Some(s.connectionId);
    }
  }

  /** One send per audience entry that has a live connection, so never more sends than entries. */
  lemma {:induction false} SendsOfSize(recipients: seq<Option<ConnectionId>>, bytes: seq<byte>)
    ensures |SendsOf(recipients, bytes)| <= |recipients|
    ensures (forall i | 0 <= i < |recipients| :: recipients[i].None?) <==> SendsOf(recipients, bytes) == multiset{}
  {
    if recipients != [] {
      var n := |recipients|;
      SendsOfSize(recipients[..n - 1], bytes);
      if recipients[n - 1].Some? {
        assert Send(recipients[n - 1].value, bytes) in SendsOf(recipients, bytes);
      } else {
        assert forall i | 0 <= i < n - 1 :: recipients[..n - 1][i] == recipients[i];
      }
    }
  }

  /**
   * Every send of a broadcast with exclusion `exclude` goes, with the one
   * serialized message, to a live connection of an active user other than
   * `exclude`: the excluded user and users with no live connection get nothing.
   */
  lemma SendsReachOnlyTheAudience(
    conns: Registry, users: seq<UserStatus>, exclude: Option<UserId>,
    recipients: seq<Option<ConnectionId>>, bytes: seq<byte>, s: Send)
    requires ChoosesRecipients(conns, ActiveUsers(users, exclude), recipients)
    requires s in SendsOf(recipients, bytes)
    ensures s.bytes == bytes
    ensures s.connectionId in conns && conns[s.connectionId].IsAlive()
    ensures exists u :: u in users && u.isActive && u.id == conns[s.connectionId].userId
    ensures exclude.Some? ==> conns[s.connectionId].userId != exclude.value
  {
    var audience := ActiveUsers(users, exclude);
    SendsOfMember(recipients, bytes, s);
    var i :| 0 <= i < |recipients| && recipients[i] == Some(s.connectionId);
    ActiveUsersMembership(users, exclude, audience[i]);
  }

  /**
   * When the cache holds each user once, no user is sent to twice: the
   * connections chosen for two different audience entries belong to different users.
   */
  lemma AtMostOneSendPerUser(
    conns: Registry, users: seq<UserStatus>, exclude: Option<UserId>,
    recipients: seq<Option<ConnectionId>>, i: nat, j: nat)
    requires DistinctIds(users)
    requires ChoosesRecipients(conns, ActiveUsers(users, exclude), recipients)
    requires i < j < |recipients| && recipients[i].Some? && recipients[j].Some?
    ensures conns[recipients[i].value].userId != conns[recipients[j].value].userId
    ensures recipients[i] != recipients[j]
  {
    ActiveUsersDistinct(users, exclude);
  }

  /** Every chosen recipient is sent the broadcast's bytes. */
  lemma {:induction false} SendsOfComplete(recipients: seq<Option<ConnectionId>>, bytes: seq<byte>, i: nat)
    requires i < |recipients| && recipients[i].Some?
    ensures Send(recipients[i].value, bytes) in SendsOf(recipients, bytes)
  {
    var n := |recipients|;
    if i < n - 1 {
      SendsOfComplete(recipients[..n - 1], bytes, i);
    }
  }

  /** Every audience user with a live connection is sent the buffer on one of them. */
  lemma EveryLiveAudienceUserIsSent(
    conns: Registry, audience: seq<UserStatus>, recipients: seq<Option<ConnectionId>>, bytes: seq<byte>, i: nat)
    requires ChoosesRecipients(conns, audience, recipients)
    requires i < |audience| && HasLiveConnection(conns, audience[i].id)
    ensures exists cid :: LiveConnectionOf(conns, cid, audience[i].id) && Send(cid, bytes) in SendsOf(recipients, bytes)
  {
    SendsOfComplete(recipients, bytes, i);
  }

  /** What the sends of one broadcast deliver, and whether an exception reaches the caller. */
  datatype Delivery = Delivery(delivered: multiset<Send>, faulted: bool)

  /**
   * The sends as written, on the schedule where `Parallel.ForEachAsync` starts
   * them in audience order: `SendAsync` has no `try`, so the first send that
   * throws faults the loop, no later send starts, and the exception reaches the
   * caller. `throws` says which connections' sends throw.
   */
  function DeliverAsWritten(recipients: seq<Option<ConnectionId>>, bytes: seq<byte>,
                            throws: ConnectionId -> bool): (d: Delivery)
    ensures d.faulted <==> exists i | 0 <= i < |recipients| :: recipients[i].Some? && throws(recipients[i].value)
  {
    if recipients == [] then Delivery(multiset{}, false)
    else if recipients[0].Some? && throws(recipients[0].value) then Delivery(multiset{}, true)
    else
      var rest := DeliverAsWritten(recipients[1..], bytes, throws);
      assert forall j | 0 < j < |recipients| :: recipients[j] == recipients[1..][j - 1];
      Delivery((if recipients[0].Some? then multiset{Send(recipients[0].value, bytes)} else multiset{}) + rest.delivered,
               rest.faulted)
  }

  /** The sends with each failure caught on its own connection, so one broken socket does not stop the rest. */
  function DeliverIsolated(recipients: seq<Option<ConnectionId>>, bytes: seq<byte>,
                           throws: ConnectionId -> bool): (d: Delivery)
    ensures !d.faulted
    ensures d.delivered <= SendsOf(recipients, bytes)
  {
    if recipients == [] then Delivery(multiset{}, false)
    else
      var last := recipients[|recipients| - 1];
      var front := DeliverIsolated(recipients[..|recipients| - 1], bytes, throws);
      if last.Some? && !throws(last.value) then Delivery(front.delivered + multiset{Send(last.value, bytes)}, false)
      else front
  }

  /**
   * With the sends isolated, every chosen recipient whose own send does not
   * throw gets the message, whatever the other sends do.
   */
  lemma {:induction false} IsolatedDeliversToHealthyRecipients(
    recipients: seq<Option<ConnectionId>>, bytes: seq<byte>, throws: ConnectionId -> bool, i: nat)
    requires i < |recipients| && recipients[i].Some? && !throws(recipients[i].value)
    ensures Send(recipients[i].value, bytes) in DeliverIsolated(recipients, bytes, throws).delivered
  {
    var n := |recipients|;
    if i < n - 1 {
      IsolatedDeliversToHealthyRecipients(recipients[..n - 1], bytes, throws, i);
    }
  }

  /**
   * As written, one throwing send starves the recipients after it: with two
   * recipients whose first send throws, the second gets nothing and the
   * broadcast faults, where the isolated sends still reach the second.
   */
  lemma ThrowingSendStopsLaterSends(bytes: seq<byte>, throws: ConnectionId -> bool)
    requires throws(0) && !throws(1)
    ensures var d := DeliverAsWritten([Some(0), Some(1)], bytes, throws);
      d.faulted && Send(1, bytes) !in d.delivered
    ensures Send(1, bytes) in DeliverIsolated([Some(0), Some(1)], bytes, throws).delivered
  {
    IsolatedDeliversToHealthyRecipients([Some(0), Some(1)], bytes, throws, 1);
  }

  /** Choosing a recipient for the next audience entry extends a choice for the entries before it. */
  lemma ChoosesRecipientsStep(conns: Registry, audience: seq<UserStatus>, i: nat,
                              recipients: seq<Option<ConnectionId>>, next: Option<ConnectionId>)
    requires i < |audience|
    requires ChoosesRecipients(conns, audience[..i], recipients)
    requires next.None? <==> !HasLiveConnection(conns, audience[i].id)
    requires next.Some? ==> LiveConnectionOf(conns, next.value, audience[i].id)
    ensures ChoosesRecipients(conns, audience[..i + 1], recipients + [next])
  {
    var front, r := audience[..i + 1], recipients + [next];
    forall j | 0 <= j < i + 1
      ensures (r[j].None? <==> !HasLiveConnection(conns, front[j].id))
           && (r[j].Some? ==> LiveConnectionOf(conns, r[j].value, front[j].id))
    {
      if j < i {
        assert front[j] == audience[..i][j];
      }
    }
  }

  /** Appending one recipient adds its one send, if any. */
  lemma SendsOfStep(recipients: seq<Option<ConnectionId>>, next: Option<ConnectionId>, bytes: seq<byte>)
    ensures SendsOf(recipients + [next], bytes) ==
      SendsOf(recipients, bytes) + if next.Some? then multiset{Send(next.value, bytes)} else multiset{}
  {
    assert (recipients + [next])[..|recipients|] == recipients;
  }

  class WebSocketManager {
    var connections: Registry
    const userCache: UserCacheService

    /** Entries are keyed by their own connection id. */
    ghost predicate Valid()
      reads this
    {
      forall id | id in connections :: connections[id].connectionId == id
    }

    constructor (userCache: UserCacheService)
      ensures this.userCache == userCache && connections == map[] && Valid()
    {
      this.userCache := userCache;
      connections := map[];
    }

    /** `_connections[connection.ConnectionId] = connection`: insert or overwrite that key only. */
    method AddConnection(connection: WebSocketConnection)
      requires Valid()
      modifies this
      ensures Valid()
      ensures connections == old(connections)[connection.connectionId := connection]
      ensures connection.connectionId in connections && connections[connection.connectionId] == connection
      ensures forall id | id != connection.connectionId :: (id in connections <==> id in old(connections))
      ensures forall id | id != connection.connectionId && id in connections :: connections[id] == old(connections)[id]
    {
      connections := connections[connection.connectionId := connection];
    }

    /** `TryRemove`: deletes the key if present; an absent id is a no-op. */
    method RemoveConnection(connectionId: ConnectionId)
      requires Valid()
      modifies this
      ensures Valid()
      ensures connections == old(connections) - {connectionId}
      ensures connectionId !in old(connections) ==> connections == old(connections)
      ensures connectionId !in connections
      ensures forall id | id != connectionId :: (id in connections <==> id in old(connections))
    {
      connections := connections - {connectionId};
    }

    /** `_connections.Values`: exactly the registered connections. */
    method GetAllConnections() returns (all: set<WebSocketConnection>)
      ensures forall c :: c in all <==> exists id | id in connections :: connections[id] == c
    {
      all := connections.Values;
    }

    /** `_connections.Values.FirstOrDefault(c => c.UserId == userId && c.IsAlive)`, in no particular order. */
    method LiveConnectionFor(userId: UserId) returns (recipient: Option<ConnectionId>)
      ensures recipient.None? <==> !HasLiveConnection(connections, userId)
      ensures recipient.Some? ==> LiveConnectionOf(connections, recipient.value, userId)
    {
      if exists cid | cid in connections.Keys :: LiveConnectionOf(connections, cid, userId) {
        var cid :| cid in connections.Keys && LiveConnectionOf(connections, cid, userId);
        return Some(cid);
      }
      return None;
    }

    /**
     * `BroadcastUsersAsync(msgType, msgValue, excludeUserId)`. The audience is
     * `GetActiveUsers(excludeUserId)`; an empty audience serializes and sends
     * nothing. Otherwise one message is serialized (with the audience as its value
     * for "users_status") and each audience entry's bytes go to one live
     * connection of that user, if any. Neither the registry nor the cache changes.
     */
    method BroadcastUsers(msgType: string, msgValue: Payload, excludeUserId: Option<UserId>,
                          serialize: OutboundMessage -> seq<byte>)
      returns (message: Option<OutboundMessage>, recipients: seq<Option<ConnectionId>>, sends: multiset<Send>)
      ensures var audience := ActiveUsers(userCache.cachedUsers, excludeUserId);
        && (audience == [] <==> message.None?)
        && (audience == [] ==> sends == multiset{})
        && (audience != [] ==> message == Some(OutboundMessage(msgType,
               if msgType == UsersStatus then UserList(audience) else msgValue)))
        && ChoosesRecipients(connections, audience, recipients)
        && (message.Some? ==> sends == SendsOf(recipients, serialize(message.value)))
    {
      var users := userCache.GetActiveUsers(excludeUserId);
      if |users| == 0 {
        return None, [], multiset{};
      }
      var value := if msgType == UsersStatus then UserList(users) else msgValue;
      var msg := OutboundMessage(msgType, value);
      var buffer := serialize(msg);
      message := Some(msg);
      recipients, sends := [], multiset{};
      for i := 0 to |users|
        invariant ChoosesRecipients(connections, users[..i], recipients)
        invariant sends == SendsOf(recipients, buffer)
      {
        var next := LiveConnectionFor(users[i].id);
        ChoosesRecipientsStep(connections, users, i, recipients, next);
        SendsOfStep(recipients, next, buffer);
        if next.Some? {
          sends := sends + multiset{Send(next.value, buffer)};
        }
        recipients := recipients + [next];
      }
      assert users[..|users|] == users;
    }
  }
}
