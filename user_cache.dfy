/**
 * `UserCacheService`: the server's in-memory presence list. Each operation runs
 * under one lock in the source, so a sequential class whose methods are atomic
 * is the model; the list is a `seq` field that the methods reassign.
 */
module UserCache {
  import opened Wrappers

  /** A user id; the source's `Guid` and its `ToString()` form are identified. */
  type UserId = string

  /** `UserStatusDto`, with the `Id` the cache reads. */
  datatype UserStatus = UserStatus(id: UserId, displayName: string, isActive: bool)

  /** The index of the first entry with `id`, or `|users|` when there is none. */
  function FirstIndexOf(users: seq<UserStatus>, id: UserId): (k: nat)
    ensures k <= |users|
    ensures forall j | 0 <= j < k :: users[j].id != id
    ensures k < |users| ==> users[k].id == id
  {
    if users == [] then 0
    else if users[0].id == id then 0
    else 1 + FirstIndexOf(users[1..], id)
  }

  /** Reference definition of a status update: the first entry with `id` takes the flag. */
  function WithStatus(users: seq<UserStatus>, id: UserId, isActive: bool): seq<UserStatus> {
    if users == [] then []
    else if users[0].id == id then [users[0].(isActive := isActive)] + users[1..]
    else [users[0]] + WithStatus(users[1..], id, isActive)
  }

  /** Whether an entry belongs to the audience of `GetActiveUsers(exclude)`. */
  predicate Listed(u: UserStatus, exclude: Option<UserId>) {
    u.isActive && (exclude.None? || u.id != exclude.value)
  }

  /** Reference definition of `GetActiveUsers`: the listed entries, in cache order. */
  function ActiveUsers(users: seq<UserStatus>, exclude: Option<UserId>): (r: seq<UserStatus>)
    ensures |r| <= |users|
    ensures forall i | 0 <= i < |r| :: Listed(r[i], exclude)
  {
    if users == [] then []
    else if Listed(users[0], exclude) then [users[0]] + ActiveUsers(users[1..], exclude)
    else ActiveUsers(users[1..], exclude)
  }

  predicate DistinctIds(users: seq<UserStatus>) {
    forall i, j | 0 <= i < j < |users| :: users[i].id != users[j].id
  }

  function Ids(users: seq<UserStatus>): (ids: seq<UserId>)
    ensures |ids| == |users|
    ensures forall i | 0 <= i < |users| :: ids[i] == users[i].id
  {
    if users == [] then [] else [users[0].id] + Ids(users[1..])
  }

  /**
   * An update changes only the `isActive` field of the first entry with that id;
   * every other entry, and every other field, is unchanged; the length is kept.
   */
  lemma {:induction false} WithStatusAt(users: seq<UserStatus>, id: UserId, isActive: bool)
    ensures |WithStatus(users, id, isActive)| == |users|
    ensures forall i | 0 <= i < |users| ::
      WithStatus(users, id, isActive)[i] ==
        if i == FirstIndexOf(users, id) then users[i].(isActive := isActive) else users[i]
  {
    if users != [] && users[0].id != id {
      WithStatusAt(users[1..], id, isActive);
      var r := WithStatus(users, id, isActive);
      forall i | 0 < i < |users|
        ensures r[i] == if i == FirstIndexOf(users, id) then users[i].(isActive := isActive) else users[i]
      {
        assert r[i] == WithStatus(users[1..], id, isActive)[i - 1];
        assert users[1..][i - 1] == users[i];
      }
    }
  }

  /** An update for an unknown id leaves the cache as it was: it never inserts. */
  lemma {:induction false} UnknownIdIsNoOp(users: seq<UserStatus>, id: UserId, isActive: bool)
    requires id !in Ids(users)
    ensures WithStatus(users, id, isActive) == users
  {
    if users != [] {
      assert users[0].id == Ids(users)[0];
      assert Ids(users[1..]) == Ids(users)[1..];
      UnknownIdIsNoOp(users[1..], id, isActive);
    }
  }

  /** The ids of the cache, in order, are never changed by an update. */
  lemma {:induction false} WithStatusKeepsIds(users: seq<UserStatus>, id: UserId, isActive: bool)
    ensures Ids(WithStatus(users, id, isActive)) == Ids(users)
  {
    WithStatusAt(users, id, isActive);
  }

  /** Applying the same update twice is the same as applying it once. */
  lemma {:induction false} WithStatusIdempotent(users: seq<UserStatus>, id: UserId, isActive: bool)
    ensures WithStatus(WithStatus(users, id, isActive), id, isActive) == WithStatus(users, id, isActive)
  {
    if users != [] && users[0].id != id {
      WithStatusIdempotent(users[1..], id, isActive);
      assert WithStatus(users, id, isActive)[1..] == WithStatus(users[1..], id, isActive);
    }
  }

  /** `GetActiveUsers(exclude)` lists exactly the active entries whose id is not `exclude`. */
  lemma {:induction false} ActiveUsersMembership(users: seq<UserStatus>, exclude: Option<UserId>, u: UserStatus)
    ensures u in ActiveUsers(users, exclude) <==> u in users && u.isActive && (exclude.None? || u.id != exclude.value)
  {
    if users != [] {
      ActiveUsersMembership(users[1..], exclude, u);
      assert users == [users[0]] + users[1..];
    }
  }

  /** Filtering respects concatenation, so the audience keeps cache order. */
  lemma {:induction false} ActiveUsersAppend(a: seq<UserStatus>, b: seq<UserStatus>, exclude: Option<UserId>)
    ensures ActiveUsers(a + b, exclude) == ActiveUsers(a, exclude) + ActiveUsers(b, exclude)
  {
    if a != [] {
      assert (a + b)[1..] == a[1..] + b;
      ActiveUsersAppend(a[1..], b, exclude);
    } else {
      assert a + b == b;
    }
  }

  /** Without an exclusion nobody active is left out; never more entries than the cache. */
  lemma {:induction false} ActiveUsersBounds(users: seq<UserStatus>, exclude: Option<UserId>)
    ensures |ActiveUsers(users, exclude)| <= |users|
    ensures (forall i | 0 <= i < |users| :: users[i].isActive) && exclude.None? ==>
              ActiveUsers(users, exclude) == users
  {
    if users != [] {
      ActiveUsersBounds(users[1..], exclude);
    }
  }

  /** Distinct ids in the cache give distinct ids in every audience. */
  lemma {:induction false} ActiveUsersDistinct(users: seq<UserStatus>, exclude: Option<UserId>)
    requires DistinctIds(users)
    ensures DistinctIds(ActiveUsers(users, exclude))
  {
    if users != [] {
      ActiveUsersDistinct(users[1..], exclude);
      var rest := ActiveUsers(users[1..], exclude);
      forall v | v in rest ensures v.id != users[0].id {
        ActiveUsersMembership(users[1..], exclude, v);
        var k :| 0 <= k < |users[1..]| && users[1..][k] == v;
        assert users[k + 1] == v;
      }
    }
  }

  class UserCacheService {
    var cachedUsers: seq<UserStatus>

    constructor ()
      ensures cachedUsers == []
    {
      cachedUsers := [];
    }

    /** The list-replacing part of `LoadInitialUsersAsync`: clear, then add the loaded users. */
    method LoadInitialUsers(users: seq<UserStatus>)
      modifies this
      ensures cachedUsers == users
    {
      cachedUsers := [];
      cachedUsers := cachedUsers + users;
    }

    /** Finds the first entry with `userId` and assigns its flag; an unknown id changes nothing. */
    method UpdateUserStatus(userId: UserId, isActive: bool)
      modifies this
      ensures cachedUsers == WithStatus(old(cachedUsers), userId, isActive)
      ensures |cachedUsers| == |old(cachedUsers)|
      ensures userId !in Ids(old(cachedUsers)) ==> cachedUsers == old(cachedUsers)
    {
      WithStatusAt(cachedUsers, userId, isActive);
      var k := FirstIndexOf(cachedUsers, userId);
      if k < |cachedUsers| {
        cachedUsers := cachedUsers[k := cachedUsers[k].(isActive := isActive)];
      } else {
        UnknownIdIsNoOp(cachedUsers, userId, isActive);
      }
    }

    /** A fresh list of the active users other than `excludeUserId`, in cache order. */
    method GetActiveUsers(excludeUserId: Option<UserId>) returns (users: seq<UserStatus>)
      ensures users == ActiveUsers(cachedUsers, excludeUserId)
      ensures forall u :: u in users <==>
        u in cachedUsers && u.isActive && (excludeUserId.None? || u.id != excludeUserId.value)
    {
      users := ActiveUsers(cachedUsers, excludeUserId);
      forall u ensures u in users <==>
        u in cachedUsers && u.isActive && (excludeUserId.None? || u.id != excludeUserId.value)
      {
        ActiveUsersMembership(cachedUsers, excludeUserId, u);
      }
    }
  }
}
