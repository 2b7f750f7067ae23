/** The `users` collection of the persistence layer, kept in memory. The
    package calls it with access rules bypassed (`overrideAccess: true`):
    `findByID`, `find` by e-mail with `limit: 1`, `create` and `update`. */
module UserStore {
  import opened Wrappers
  import opened Types

  /** The first user with id `id`, if any. */
  function Lookup(users: seq<User>, id: UserId): (u: Option<User>)
    ensures u.Some? ==> u.value in users && u.value.id == id
    ensures u.None? <==> forall i :: 0 <= i < |users| ==> users[i].id != id
    decreases |users|
  {
    if |users| == 0 then None
    else if users[0].id == id then Some(users[0])
    else
      var rest := Lookup(users[1..], id);
      assert forall i :: 1 <= i < |users| ==> users[i] == users[1..][i - 1];
      rest
  }

  /** `update({ id, data: { accounts } })`: the user with that id gets the
      new accounts and nothing else changes. */
  function SetAccounts(users: seq<User>, id: UserId, accounts: seq<Account>): (r: seq<User>)
    ensures |r| == |users|
    ensures forall i :: 0 <= i < |users| ==>
      r[i] == if users[i].id == id then users[i].(accounts := accounts) else users[i]
  {
    seq(|users|, i requires 0 <= i < |users| =>
      if users[i].id == id then users[i].(accounts := accounts) else users[i])
  }

  /** A user store never changes its users' ids, so its id invariant
      survives an accounts update. */
  lemma SetAccountsKeepsIds(users: seq<User>, id: UserId, accounts: seq<Account>)
    ensures forall i :: 0 <= i < |users| ==> SetAccounts(users, id, accounts)[i].id == users[i].id
  {
  }

  class Store {
    var users: seq<User>
    /** The id the next `create` assigns. */
    var nextId: UserId

    /** Ids are distinct and below the counter. */
    ghost predicate Valid()
      reads this
    {
      && (forall i :: 0 <= i < |users| ==> users[i].id < nextId)
      && (forall i, j :: 0 <= i < j < |users| ==> users[i].id != users[j].id)
    }

    constructor ()
      ensures Valid() && users == [] && nextId == 0
    {
      users := [];
      nextId := 0;
    }

    /** `findByID`; `None` is the not-found error. */
    method FindById(id: UserId) returns (u: Option<User>)
      ensures u == Lookup(users, id)
    {
      var i := 0;
      while i < |users|
        invariant 0 <= i <= |users|
        invariant Lookup(users, id) == Lookup(users[i..], id)
      {
        if users[i].id == id {
          return Some(users[i]);
        }
        assert users[i..][1..] == users[i + 1..];
        i := i + 1;
      }
      return None;
    }

    /** `find({ where: { email: { equals: email } }, limit: 1 }).docs[0]`:
        some user with that e-mail when there is one. Which one the store's
        sort order picks is not modelled. */
    method FindByEmail(email: Option<string>) returns (u: Option<User>)
      ensures u.Some? ==> u.value in users && u.value.email == email
      ensures u.None? <==> forall i :: 0 <= i < |users| ==> users[i].email != email
    {
      var i := 0;
      while i < |users|
        invariant 0 <= i <= |users|
        invariant forall k :: 0 <= k < i ==> users[k].email != email
      {
        if users[i].email == email {
          return Some(users[i]);
        }
        i := i + 1;
      }
      return None;
    }

    /** `create`: the new user gets a fresh id and is appended. */
    method Create(email: Option<string>, name: Option<string>, role: Role, enabled: Option<bool>, accounts: seq<Account>)
      returns (u: User)
      requires Valid()
      modifies this
      ensures Valid()
      ensures u == User(old(nextId), email, name, role, enabled, accounts)
      ensures users == old(users) + [u] && nextId == old(nextId) + 1
      ensures forall i :: 0 <= i < |old(users)| ==> old(users)[i].id != u.id
    {
      u := User(nextId, email, name, role, enabled, accounts);
      users := users + [u];
      nextId := nextId + 1;
    }

    /** `update` of the `accounts` field. */
    method UpdateAccounts(id: UserId, accounts: seq<Account>)
      requires Valid()
      modifies this
      ensures Valid()
      ensures users == SetAccounts(old(users), id, accounts) && nextId == old(nextId)
    {
      SetAccountsKeepsIds(users, id, accounts);
      users := SetAccounts(users, id, accounts);
    }
  }
}
