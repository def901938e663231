/**
 * The client's presence state in `WebSocketContext.jsx`: a map from user id to
 * the user's JSON object, filled once from the users endpoint and then
 * updated by the `user_joined`, `user_updated` and `user_left` messages of the
 * realtime channel.
 */
module PresenceReducer {
  import opened Wrappers

  /** A JSON value held in a user object; numbers and nested values carry their `String()` text. */
  datatype JsValue = Str(s: string) | Num(text: string) | Bool(b: bool) | Null | Composite(text: string)

  /** A user object: field name to value. */
  type UserObject = map<string, JsValue>

  /** `activeUsers`: property key to user object. */
  type Presence = map<string, UserObject>

  /** A message from the channel: its `type`, its `user` and its `userId`, each possibly undefined. */
  datatype Message = Message(msgType: string, user: Option<UserObject>, userId: Option<JsValue>)

  const IdField := "id"
  const IsActiveField := "isActive"

  /** The property key JavaScript derives from a value used as an object key; undefined gives "undefined". */
  function PropertyKey(v: Option<JsValue>): string {
    match v
    case None => "undefined"
    case Some(Str(s)) => s
    case Some(Num(text)) => text
    case Some(Bool(b)) => if b then "true" else "false"
    case Some(Null) => "null"
    case Some(Composite(text)) => text
  }

  /** `u.id` */
  function IdOf(user: UserObject): Option<JsValue> {
    if IdField in user then Some(user[IdField]) else None
  }

  /** The property key of `user.id`. */
  function Key(user: UserObject): string {
    PropertyKey(IdOf(user))
  }

  /** `{ ...prev[key], ...user, isActive: true }`; spreading a missing entry adds nothing. */
  function Joined(prev: Presence, key: string, user: UserObject): UserObject {
    (if key in prev then prev[key] else map[]) + user + map[IsActiveField := Bool(true)]
  }

  /** A message of a type the reducer acts on that has no `user` would throw while reading `user.id`. */
  predicate Readable(message: Message) {
    (message.msgType == "user_joined" || message.msgType == "user_updated") ==> message.user.Some?
  }

  /** `handleWebSocketMessage`, as the state update it schedules. */
  function HandleWebSocketMessage(prev: Presence, message: Message): (next: Presence)
    requires Readable(message)
    // no entry is ever removed; only a join or an update adds one, under the user's key
    ensures next.Keys == prev.Keys +
      if message.msgType == "user_joined" || message.msgType == "user_updated" then {Key(message.user.value)} else {}
  {
    if message.msgType == "user_joined" || message.msgType == "user_updated" then
      var key := Key(message.user.value);
      prev[key := Joined(prev, key, message.user.value)]
    else if message.msgType == "user_left" then
      var key := PropertyKey(message.userId);
      if key in prev then prev[key := prev[key][IsActiveField := Bool(false)]] else prev
    else
      prev
  }

  /**
   * A join or update stores the user under its id: each field comes from the
   * message if it has it, otherwise from the earlier entry, and the user is
   * active; every other entry is untouched and none is removed.
   */
  lemma JoinedOverlaysUser(prev: Presence, message: Message)
    requires message.msgType == "user_joined" || message.msgType == "user_updated"
    requires message.user.Some?
    ensures var next := HandleWebSocketMessage(prev, message);
            var key := Key(message.user.value);
            var user := message.user.value;
      && next.Keys == prev.Keys + {key}
      && (forall k | k in prev && k != key :: next[k] == prev[k])
      && next[key][IsActiveField] == Bool(true)
      && (forall f | f in user && f != IsActiveField :: f in next[key] && next[key][f] == user[f])
      && (forall f | f !in user && f != IsActiveField ::
            (f in next[key] <==> key in prev && f in prev[key])
            && (f in next[key] ==> next[key][f] == prev[key][f]))
  {
  }

  /**
   * `user_left` for a known user only marks that user inactive, keeping all
   * their other fields; for an unknown user it changes nothing and adds no entry.
   */
  lemma UserLeftMarksInactive(prev: Presence, message: Message)
    requires message.msgType == "user_left"
    ensures var next := HandleWebSocketMessage(prev, message);
            var key := PropertyKey(message.userId);
      && next.Keys == prev.Keys
      && (key !in prev ==> next == prev)
      && (key in prev ==>
            && (forall k | k in prev && k != key :: next[k] == prev[k])
            && next[key].Keys == prev[key].Keys + {IsActiveField}
            && next[key][IsActiveField] == Bool(false)
            && (forall f | f in prev[key] && f != IsActiveField :: next[key][f] == prev[key][f]))
  {
  }

  /** Every other message type, `users_status` included, leaves the state as it is. */
  lemma OtherMessagesIgnored(prev: Presence, message: Message)
    requires message.msgType !in {"user_joined", "user_updated", "user_left"}
    ensures HandleWebSocketMessage(prev, message) == prev
  {
  }

  /** A user who left and joins again is active once more, with their new fields. */
  lemma LeaveThenJoinIsActive(prev: Presence, user: UserObject)
    ensures var key := Key(user);
            var left := HandleWebSocketMessage(prev, Message("user_left", None, IdOf(user)));
            var back := HandleWebSocketMessage(left, Message("user_joined", Some(user), None));
      && key in back && back[key][IsActiveField] == Bool(true)
      && (forall f | f in user && f != IsActiveField :: back[key][f] == user[f])
  {
  }

  /** No user among `users[i+1..n]` has the key of `users[i]`. */
  predicate LastBefore(users: seq<UserObject>, i: int, n: int)
    requires 0 <= i < n <= |users|
  {
    forall j | i < j < n :: Key(users[j]) != Key(users[i])
  }

  /** `users[i]` is the last user with its key, so no later one overrides it. */
  predicate LastWithKey(users: seq<UserObject>, i: int)
    requires 0 <= i < |users|
  {
    LastBefore(users, i, |users|)
  }

  /**
   * The `forEach` in `fetchUsers`: keys every user by its id, a later user
   * with the same key replacing an earlier one.
   */
  method MapUsers(users: seq<UserObject>) returns (mapped: Presence)
    ensures forall k :: k in mapped <==> exists i | 0 <= i < |users| :: Key(users[i]) == k
    ensures forall i | 0 <= i < |users| && LastWithKey(users, i) :: mapped[Key(users[i])] == users[i]
  {
    mapped := map[];
    for n := 0 to |users|
      invariant forall k :: k in mapped <==> exists i | 0 <= i < n :: Key(users[i]) == k
      invariant forall i | 0 <= i < n && LastBefore(users, i, n) :: mapped[Key(users[i])] == users[i]
    {
      mapped := mapped[Key(users[n]) := users[n]];
    }
  }

  /** What the mount effect does: whether it fetches and connects, and the state it leaves. */
  datatype Mounted = Mounted(fetched: bool, connected: bool, activeUsers: Presence)

  /**
   * The mount effect. Without a token (absent or empty) it does nothing; with
   * one it fetches the users and connects. `fetchResult` is what the users
   * endpoint yields, `None` when the request fails (a 401 or any other error),
   * in which case the state stays the initial empty map.
   */
  method Mount(token: Option<string>, fetchResult: Option<seq<UserObject>>) returns (m: Mounted)
    ensures (token.None? || token == Some("")) ==> m == Mounted(false, false, map[])
    ensures token.Some? && token != Some("") ==> m.fetched && m.connected
    ensures token.Some? && token != Some("") && fetchResult.None? ==> m.activeUsers == map[]
    ensures token.Some? && token != Some("") && fetchResult.Some? ==>
      && (forall k :: k in m.activeUsers <==>
            exists i | 0 <= i < |fetchResult.value| :: Key(fetchResult.value[i]) == k)
      && (forall i | 0 <= i < |fetchResult.value| && LastWithKey(fetchResult.value, i) ::
            m.activeUsers[Key(fetchResult.value[i])] == fetchResult.value[i])
  {
    if token.None? || token == Some("") {
      return Mounted(false, false, map[]);
    }
    var activeUsers: Presence := map[];
    if fetchResult.Some? {
      activeUsers := MapUsers(fetchResult.value);
    }
    m := Mounted(true, true, activeUsers);
  }
}
