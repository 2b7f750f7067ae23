/** The account ledger of a user: `upsertAccount`, which merges a provider
    account into `users.accounts[]` keyed by (provider, providerAccountId),
    and `persistTokens`, which applies it to the stored user. Tokens are
    stored as given: this path does not encrypt. */
module Configuration {
  import opened Wrappers
  import opened Types
  import opened UserStore

  /** A row belongs to the key (provider, providerAccountId). */
  predicate HasKey(a: Account, provider: string, providerAccountId: string) {
    a.provider == provider && a.providerAccountId == providerAccountId
  }

  predicate SameKey(a: Account, b: Account) {
    HasKey(a, b.provider, b.providerAccountId)
  }

  /** `findIndex`: the first row with the key, or -1. */
  function FindIndex(rows: seq<Account>, provider: string, providerAccountId: string): (i: int)
    ensures -1 <= i < |rows|
    ensures i >= 0 ==> HasKey(rows[i], provider, providerAccountId)
    ensures i >= 0 ==> forall j :: 0 <= j < i ==> !HasKey(rows[j], provider, providerAccountId)
    ensures i == -1 <==> forall j :: 0 <= j < |rows| ==> !HasKey(rows[j], provider, providerAccountId)
    decreases |rows|
  {
    if |rows| == 0 then -1
    else if HasKey(rows[0], provider, providerAccountId) then 0
    else
      var k := FindIndex(rows[1..], provider, providerAccountId);
      assert forall j :: 1 <= j < |rows| ==> rows[j] == rows[1..][j - 1];
      if k < 0 then -1 else k + 1
  }

  /** The row `upsertAccount` writes: the previous row's fields (here `id`)
      overlaid with the key, the type and every token field of the incoming
      account, each of them absent when the incoming account lacks it. */
  function NextRow(previous: Option<Account>, incoming: Account): Account {
    Account(
      incoming.provider,
      incoming.providerAccountId,
      incoming.accountType,
      incoming.accessToken,
      incoming.refreshToken,
      incoming.expiresAt,
      incoming.idToken,
      incoming.tokenType,
      incoming.scope,
      incoming.sessionState,
      if previous.Some? then previous.value.id else None)
  }

  /** `upsertAccount(existing, account)`: a new array in which the first row
      with the incoming key is replaced, or else the new row is appended. */
  function UpsertAccount(existing: seq<Account>, incoming: Account): (r: seq<Account>)
    ensures |r| == |existing| || |r| == |existing| + 1
  {
    var idx := FindIndex(existing, incoming.provider, incoming.providerAccountId);
    var row := NextRow(if idx >= 0 then Some(existing[idx]) else None, incoming);
    if idx >= 0 then existing[idx := row] else existing + [row]
  }

  // ---------------------------------------------------------------------
  // Properties

  /** A matching row exists: same length, only the first matching row is
      replaced, every other row is as it was. */
  lemma UpsertReplacesFirstMatch(existing: seq<Account>, incoming: Account, idx: nat)
    requires idx < |existing| && HasKey(existing[idx], incoming.provider, incoming.providerAccountId)
    requires forall j :: 0 <= j < idx ==> !HasKey(existing[j], incoming.provider, incoming.providerAccountId)
    ensures var r := UpsertAccount(existing, incoming);
      && |r| == |existing|
      && r[idx] == NextRow(Some(existing[idx]), incoming)
      && forall j :: 0 <= j < |r| && j != idx ==> r[j] == existing[j]
  {
    var i := FindIndex(existing, incoming.provider, incoming.providerAccountId);
    assert i == idx;
  }

  /** No row matches: the existing rows followed by exactly one new row. */
  lemma UpsertAppends(existing: seq<Account>, incoming: Account)
    requires forall j :: 0 <= j < |existing| ==> !HasKey(existing[j], incoming.provider, incoming.providerAccountId)
    ensures UpsertAccount(existing, incoming) == existing + [NextRow(None, incoming)]
  {
  }

  /** The row written under the key: key and type from the incoming account,
      every token field strictly the incoming value (never the old one), and
      the old row's `id` carried forward (none for a new row). */
  lemma UpsertRowFields(existing: seq<Account>, incoming: Account)
    ensures var r := UpsertAccount(existing, incoming);
      var idx := FindIndex(existing, incoming.provider, incoming.providerAccountId);
      var at := if idx >= 0 then idx else |existing|;
      && at < |r|
      && r[at].provider == incoming.provider
      && r[at].providerAccountId == incoming.providerAccountId
      && r[at].accountType == incoming.accountType
      && r[at].accessToken == incoming.accessToken
      && r[at].refreshToken == incoming.refreshToken
      && r[at].expiresAt == incoming.expiresAt
      && r[at].idToken == incoming.idToken
      && r[at].tokenType == incoming.tokenType
      && r[at].scope == incoming.scope
      && r[at].sessionState == incoming.sessionState
      && r[at].id == (if idx >= 0 then existing[idx].id else None)
  {
  }

  /** At most one row per (provider, providerAccountId). */
  ghost predicate UniqueKeys(rows: seq<Account>) {
    forall i, j :: 0 <= i < j < |rows| ==> !SameKey(rows[i], rows[j])
  }

  /** Upserting keeps the keys unique. */
  lemma UpsertKeepsKeysUnique(existing: seq<Account>, incoming: Account)
    requires UniqueKeys(existing)
    ensures UniqueKeys(UpsertAccount(existing, incoming))
  {
    var r := UpsertAccount(existing, incoming);
    var idx := FindIndex(existing, incoming.provider, incoming.providerAccountId);
    if idx >= 0 {
      forall i, j | 0 <= i < j < |r| ensures !SameKey(r[i], r[j]) {
        assert SameKey(r[i], existing[i]) && SameKey(existing[i], r[i]);
        assert SameKey(r[j], existing[j]) && SameKey(existing[j], r[j]);
      }
    } else {
      forall i, j | 0 <= i < j < |r| ensures !SameKey(r[i], r[j]) {
        if j == |existing| {
          assert !HasKey(existing[i], incoming.provider, incoming.providerAccountId);
        }
      }
    }
  }

  /** Upserting the same account twice is upserting it once. */
  lemma UpsertIdempotent(existing: seq<Account>, incoming: Account)
    ensures UpsertAccount(UpsertAccount(existing, incoming), incoming) == UpsertAccount(existing, incoming)
  {
    var p, k := incoming.provider, incoming.providerAccountId;
    var r := UpsertAccount(existing, incoming);
    var idx := FindIndex(existing, p, k);
    var at := if idx >= 0 then idx else |existing|;
    assert HasKey(r[at], p, k);
    assert forall j :: 0 <= j < at ==> r[j] == existing[j];
    assert FindIndex(r, p, k) == at;
    assert NextRow(Some(r[at]), incoming) == r[at];
  }

  // ---------------------------------------------------------------------
  // persistTokens

  /** `persistTokens(userId, account)`: read the user, upsert the account
      into its rows, write the rows back. A missing user is the store's
      not-found error (`false`), and then nothing is written. */
  method PersistTokens(store: Store, userId: UserId, account: Account) returns (found: bool)
    requires store.Valid()
    modifies store
    ensures store.Valid() && store.nextId == old(store.nextId)
    ensures found == Lookup(old(store.users), userId).Some?
    ensures found ==>
      store.users == SetAccounts(old(store.users), userId, UpsertAccount(Lookup(old(store.users), userId).value.accounts, account))
    ensures !found ==> store.users == old(store.users)
  {
    var user := store.FindById(userId);
    if user.None? {
      return false;
    }
    var accounts := UpsertAccount(user.value.accounts, account);
    store.UpdateAccounts(userId, accounts);
    return true;
  }
}
