/** The subscriber repository and the four operations `UserService` performs on it.

    The repository is a map from `telegramId` to row, so at most one row exists per Telegram
    user by construction. Beside the map the store keeps the telegramIds in primary-key order
    (the order in which rows were first saved) and the next primary key to hand out. */
module UserService {
  import opened Wrappers
  import opened UserEntity

  /** The rows of the `user` table, keyed by their `telegramId` column. */
  type Table = map<int, User>

  /** The repository's own invariant:
      - every row sits under its own `telegramId` (the unique column);
      - every generated id is below the next one to hand out;
      - `order` lists every key exactly once, in strictly increasing primary-key order. */
  predicate WellFormed(users: Table, order: seq<int>, nextId: nat)
  {
    && (forall k :: k in users ==> users[k].telegramId == k && users[k].id < nextId && k in order)
    && (forall i :: 0 <= i < |order| ==> order[i] in users)
    && (forall i, j :: 0 <= i < j < |order| ==> users[order[i]].id < users[order[j]].id)
  }

  /** The condition of the eligibility query: `isSubscribed = true AND preferredCity <> ''`.
      A NULL city makes the SQL comparison unknown, so such a row is not returned either. */
  predicate Eligible(u: User)
  {
    u.isSubscribed && u.preferredCity.Some? && u.preferredCity.value != ""
  }

  /** The table after `subscribeUser(telegramId)`: an upsert that sets the flag. A new row gets
      the generated id `freshId`, the flag set and no city. */
  function Subscribed(users: Table, telegramId: int, freshId: nat): (r: Table)
    ensures r.Keys == users.Keys + {telegramId}
    ensures forall k :: k in users && k != telegramId ==> r[k] == users[k]
    ensures r[telegramId].isSubscribed
    ensures telegramId in users ==>
      && r[telegramId].id == users[telegramId].id
      && r[telegramId].telegramId == users[telegramId].telegramId
      && r[telegramId].preferredCity == users[telegramId].preferredCity
    ensures telegramId !in users ==> r[telegramId] == User(freshId, telegramId, true, None)
  {
    if telegramId in users then
      users[telegramId := users[telegramId].(isSubscribed := true)]
    else
      users[telegramId := User(freshId, telegramId, true, None)]
  }

  /** The table after `unsubscribeUser(telegramId)`: only an existing row has its flag cleared. */
  function Unsubscribed(users: Table, telegramId: int): (r: Table)
    ensures r.Keys == users.Keys
    ensures forall k :: k in users && k != telegramId ==> r[k] == users[k]
    ensures telegramId !in users ==> r == users
    ensures telegramId in users ==>
      && !r[telegramId].isSubscribed
      && r[telegramId].id == users[telegramId].id
      && r[telegramId].telegramId == users[telegramId].telegramId
      && r[telegramId].preferredCity == users[telegramId].preferredCity
  {
    if telegramId in users then
      users[telegramId := users[telegramId].(isSubscribed := false)]
    else
      users
  }

  /** The table after `setPreferredCity(telegramId, city)`: only an existing row has its city
      overwritten; no row is created for an unknown user. */
  function WithCity(users: Table, telegramId: int, city: string): (r: Table)
    ensures r.Keys == users.Keys
    ensures forall k :: k in users && k != telegramId ==> r[k] == users[k]
    ensures telegramId !in users ==> r == users
    ensures telegramId in users ==>
      && r[telegramId].preferredCity == Some(city)
      && r[telegramId].id == users[telegramId].id
      && r[telegramId].telegramId == users[telegramId].telegramId
      && r[telegramId].isSubscribed == users[telegramId].isSubscribed
  {
    if telegramId in users then
      users[telegramId := users[telegramId].(preferredCity := Some(city))]
    else
      users
  }

  /** The rows returned by `getAllSubscribedUsersWithPreferredCity`, taken in the order `order`
      lists the keys: exactly the eligible rows of the table. */
  function EligibleRows(users: Table, order: seq<int>): (r: seq<User>)
    requires forall i :: 0 <= i < |order| ==> order[i] in users
    ensures |r| <= |order|
    ensures forall u :: u in r ==> Eligible(u) && exists i :: 0 <= i < |order| && users[order[i]] == u
    ensures forall i :: 0 <= i < |order| && Eligible(users[order[i]]) ==> users[order[i]] in r
  {
    if order == [] then []
    else
      var rest := EligibleRows(users, order[1..]);
      if Eligible(users[order[0]]) then [users[order[0]]] + rest else rest
  }

  /** Rows listed in increasing primary-key order come back from the query in increasing
      primary-key order, so the query returns no row twice. */
  lemma {:induction false} EligibleRowsSorted(users: Table, order: seq<int>)
    requires forall i :: 0 <= i < |order| ==> order[i] in users
    requires forall i, j :: 0 <= i < j < |order| ==> users[order[i]].id < users[order[j]].id
    ensures forall i, j :: 0 <= i < j < |EligibleRows(users, order)| ==>
      EligibleRows(users, order)[i].id < EligibleRows(users, order)[j].id
  {
    if order != [] {
      var tail := order[1..];
      forall i, j | 0 <= i < j < |tail| ensures users[tail[i]].id < users[tail[j]].id {
        assert tail[i] == order[i + 1] && tail[j] == order[j + 1];
      }
      EligibleRowsSorted(users, tail);
      var rest := EligibleRows(users, tail);
      forall u | u in rest ensures users[order[0]].id < u.id {
        var m :| 0 <= m < |tail| && users[tail[m]] == u;
        assert tail[m] == order[m + 1];
      }
      if Eligible(users[order[0]]) {
        var r := [users[order[0]]] + rest;
        forall i, j | 0 <= i < j < |r| ensures r[i].id < r[j].id {
          if i == 0 {
            assert r[j] == rest[j - 1] && r[j] in rest;
          } else {
            assert r[i] == rest[i - 1] && r[j] == rest[j - 1];
          }
        }
      }
    }
  }

  /** The identity properties of the table: one row per telegramId, and distinct rows carry
      distinct generated ids. */
  lemma UniqueKeys(users: Table, order: seq<int>, nextId: nat)
    requires WellFormed(users, order, nextId)
    ensures forall a, b :: a in users && b in users && users[a].telegramId == users[b].telegramId ==> a == b
    ensures forall a, b :: a in users && b in users && a != b ==> users[a].id != users[b].id
  {
    forall a, b | a in users && b in users && a != b ensures users[a].id != users[b].id {
      var i :| 0 <= i < |order| && order[i] == a;
      var j :| 0 <= j < |order| && order[j] == b;
      if i < j {
        assert users[order[i]].id < users[order[j]].id;
      } else {
        assert i != j;
        assert users[order[j]].id < users[order[i]].id;
      }
    }
  }

  /** A change that keeps every key, and every row's id and telegramId, keeps the repository
      well formed with the same key order and id counter. */
  lemma SameIdentitiesKeepWellFormed(users: Table, updated: Table, order: seq<int>, nextId: nat)
    requires WellFormed(users, order, nextId)
    requires updated.Keys == users.Keys
    requires forall k :: k in users ==> updated[k].id == users[k].id && updated[k].telegramId == users[k].telegramId
    ensures WellFormed(updated, order, nextId)
  {
    forall i, j | 0 <= i < j < |order| ensures updated[order[i]].id < updated[order[j]].id {
      var a, b := order[i], order[j];
      assert a in users && b in users;
      assert updated[a].id == users[a].id && updated[b].id == users[b].id;
    }
  }

  /** Adding the row of a new user with the next generated id, at the end of the key order,
      keeps the repository well formed. */
  lemma NewRowKeepsWellFormed(users: Table, order: seq<int>, nextId: nat, telegramId: int)
    requires WellFormed(users, order, nextId)
    requires telegramId !in users
    ensures WellFormed(users[telegramId := User(nextId, telegramId, true, None)], order + [telegramId], nextId + 1)
  {
    var r := users[telegramId := User(nextId, telegramId, true, None)];
    var o := order + [telegramId];
    forall k | k in r ensures r[k].telegramId == k && r[k].id < nextId + 1 && k in o {
      if k != telegramId {
        assert k in order;
      }
    }
    forall i, j | 0 <= i < j < |o| ensures r[o[i]].id < r[o[j]].id {
      assert o[i] == order[i] && o[i] in users;
      if j < |order| {
        assert o[j] == order[j];
      }
    }
  }

  /** Subscribing keeps the repository well formed; a new row goes to the end of the key
      order and consumes one generated id. */
  lemma SubscribeKeepsWellFormed(users: Table, order: seq<int>, nextId: nat, telegramId: int)
    requires WellFormed(users, order, nextId)
    ensures telegramId in users ==> WellFormed(Subscribed(users, telegramId, nextId), order, nextId)
    ensures telegramId !in users ==>
      WellFormed(Subscribed(users, telegramId, nextId), order + [telegramId], nextId + 1)
  {
    if telegramId in users {
      SameIdentitiesKeepWellFormed(users, Subscribed(users, telegramId, nextId), order, nextId);
    } else {
      NewRowKeepsWellFormed(users, order, nextId, telegramId);
    }
  }

  /** Clearing the flag keeps the repository well formed. */
  lemma UnsubscribeKeepsWellFormed(users: Table, order: seq<int>, nextId: nat, telegramId: int)
    requires WellFormed(users, order, nextId)
    ensures WellFormed(Unsubscribed(users, telegramId), order, nextId)
  {
    SameIdentitiesKeepWellFormed(users, Unsubscribed(users, telegramId), order, nextId);
  }

  /** Setting the city keeps the repository well formed. */
  lemma SetCityKeepsWellFormed(users: Table, order: seq<int>, nextId: nat, telegramId: int, city: string)
    requires WellFormed(users, order, nextId)
    ensures WellFormed(WithCity(users, telegramId, city), order, nextId)
  {
    SameIdentitiesKeepWellFormed(users, WithCity(users, telegramId, city), order, nextId);
  }

  /** Each store operation is idempotent on the table: a redelivered command leaves the table
      as one delivery did. */
  lemma Idempotent(users: Table, telegramId: int, freshId: nat, laterId: nat, city: string)
    ensures Subscribed(Subscribed(users, telegramId, freshId), telegramId, laterId)
         == Subscribed(users, telegramId, freshId)
    ensures Unsubscribed(Unsubscribed(users, telegramId), telegramId) == Unsubscribed(users, telegramId)
    ensures WithCity(WithCity(users, telegramId, city), telegramId, city) == WithCity(users, telegramId, city)
  {
  }

  /** The repository behind `UserService`. Each method looks the row up by telegramId, changes
      at most that row and saves it back. */
  class UserStore {
    var users: Table
    var order: seq<int>
    var nextId: nat

    predicate Valid()
      reads this
    {
      WellFormed(users, order, nextId)
    }

    /** An empty table; generated keys start at 1. */
    constructor ()
      ensures Valid()
      ensures users == map[] && order == [] && nextId == 1
    {
      users := map[];
      order := [];
      nextId := 1;
    }

    /** `subscribeUser`: create the row with the flag set, or set the flag on the existing row;
        the saved row is always returned. */
    method SubscribeUser(telegramId: int) returns (user: Option<User>)
      requires Valid()
      modifies this
      ensures Valid()
      ensures users == Subscribed(old(users), telegramId, old(nextId))
      ensures telegramId in old(users) ==> order == old(order) && nextId == old(nextId)
      ensures telegramId !in old(users) ==> order == old(order) + [telegramId] && nextId == old(nextId) + 1
      ensures user == Some(users[telegramId]) && users[telegramId].isSubscribed
    {
      SubscribeKeepsWellFormed(users, order, nextId, telegramId);
      if telegramId !in users {
        var created := User(nextId, telegramId, true, None);
        users := users[telegramId := created];
        order := order + [telegramId];
        nextId := nextId + 1;
        user := Some(created);
      } else {
        var found := users[telegramId];
        var saved := found.(isSubscribed := true);
        users := users[telegramId := saved];
        user := Some(saved);
      }
    }

    /** `unsubscribeUser`: clear the flag of an existing row and return it; return nothing and
        change nothing when there is no row. */
    method UnsubscribeUser(telegramId: int) returns (user: Option<User>)
      requires Valid()
      modifies this
      ensures Valid()
      ensures users == Unsubscribed(old(users), telegramId)
      ensures order == old(order) && nextId == old(nextId)
      ensures user == if telegramId in old(users) then Some(users[telegramId]) else None
    {
      UnsubscribeKeepsWellFormed(users, order, nextId, telegramId);
      if telegramId in users {
        var found := users[telegramId];
        var saved := found.(isSubscribed := false);
        users := users[telegramId := saved];
        user := Some(saved);
      } else {
        user := None;
      }
    }

    /** `setPreferredCity`: overwrite the city of an existing row and return it; return nothing
        and change nothing when there is no row. */
    method SetPreferredCity(telegramId: int, city: string) returns (user: Option<User>)
      requires Valid()
      modifies this
      ensures Valid()
      ensures users == WithCity(old(users), telegramId, city)
      ensures order == old(order) && nextId == old(nextId)
      ensures user == if telegramId in old(users) then Some(users[telegramId]) else None
    {
      SetCityKeepsWellFormed(users, order, nextId, telegramId, city);
      if telegramId in users {
        var found := users[telegramId];
        var saved := found.(preferredCity := Some(city));
        users := users[telegramId := saved];
        user := Some(saved);
      } else {
        user := None;
      }
    }

    /** `getAllSubscribedUsersWithPreferredCity`: every eligible row, once, in primary-key order. */
    method GetAllSubscribedUsersWithPreferredCity() returns (rows: seq<User>)
      requires Valid()
      ensures rows == EligibleRows(users, order)
      ensures forall i :: 0 <= i < |rows| ==> Eligible(rows[i])
    {
      rows := EligibleRows(users, order);
    }
  }
}
