/** `getAccessToken`: hands out the user's Keycloak access token, refreshing
    it with the stored refresh token (refresh_token grant, section 6 of
    RFC 6749) when it is within 30 seconds of expiry. The token endpoint's
    reply and the two readings of the clock are inputs: one for the validity
    check, one taken after the refresh request for the new expiry. The
    stored token is returned as stored (this path does not decrypt). */
module AccessToken {
  import opened Wrappers
  import opened Types
  import opened UserStore

  const Keycloak: string := "keycloak"

  /** The safety margin before `expires_at`, in milliseconds. */
  const SkewMs: int := 30000

  /** What the token endpoint answered: the request itself failed (the
      `fetch` promise rejects), an `ok` response whose body is not JSON (so
      `resp.json()` rejects), or a response with its `ok` flag and JSON body.
      A response that is not `ok` is never read, so its body does not
      matter. */
  datatype RefreshReply =
    | NetworkFailure
    | UnreadableBody
    | Reply(ok: bool, accessToken: string, expiresIn: int, refreshToken: Option<string>)

  /** Errors `getAccessToken` lets escape: the store's not-found error, a
      rejected refresh request, and a body that does not parse. */
  datatype TokenError = UserNotFound | RefreshRequestFailed | BodyNotJson

  /** `accounts.find(a => a.provider === "keycloak")`. */
  function FirstKeycloak(accounts: seq<Account>): (r: Option<Account>)
    ensures r.Some? ==> r.value in accounts && r.value.provider == Keycloak
    ensures r.None? <==> forall i :: 0 <= i < |accounts| ==> accounts[i].provider != Keycloak
    decreases |accounts|
  {
    if |accounts| == 0 then None
    else if accounts[0].provider == Keycloak then Some(accounts[0])
    else
      assert forall i :: 1 <= i < |accounts| ==> accounts[i] == accounts[1..][i - 1];
      FirstKeycloak(accounts[1..])
  }

  /** `stillValid`: no recorded expiry (absent or 0), or the clock is more
      than the margin before `expires_at` (seconds). */
  predicate StillValid(expiresAt: Option<int>, nowMs: int) {
    var e := expiresAt.GetOr(0);
    e == 0 || nowMs < e * 1000 - SkewMs
  }

  /** `Math.floor(Date.now() / 1000 + expires_in)` for a whole number of
      seconds: Dafny's `/` by a positive divisor is the floor. */
  function NewExpiresAt(nowMs: int, expiresIn: int): int {
    nowMs / 1000 + expiresIn
  }

  /** The `accounts.map` that rewrites every Keycloak row. */
  function RefreshRow(a: Account, accessToken: string, expiresAt: int, refreshToken: Option<string>): Account {
    if a.provider == Keycloak then
      a.(accessToken := Some(accessToken),
         expiresAt := Some(expiresAt),
         refreshToken := if refreshToken.Some? then refreshToken else a.refreshToken)
    else a
  }

  function RefreshRows(accounts: seq<Account>, accessToken: string, expiresAt: int, refreshToken: Option<string>): seq<Account> {
    seq(|accounts|, i requires 0 <= i < |accounts| => RefreshRow(accounts[i], accessToken, expiresAt, refreshToken))
  }

  /** One call of `getAccessToken`: what it returns and the accounts it
      writes back, if it writes. */
  datatype Step = Step(result: Result<Option<string>, TokenError>, write: Option<seq<Account>>)

  /** The decision `getAccessToken` makes for the user it read. */
  function Supply(user: Option<User>, checkMs: int, refreshMs: int, reply: RefreshReply): Step {
    if user.None? then Step(Err(UserNotFound), None)
    else
      var kc := FirstKeycloak(user.value.accounts);
      if kc.None? || Blank(kc.value.accessToken) then Step(Ok(None), None)
      else if StillValid(kc.value.expiresAt, checkMs) then Step(Ok(kc.value.accessToken), None)
      else if Blank(kc.value.refreshToken) then Step(Ok(None), None)
      else
        match reply
        case NetworkFailure => Step(Err(RefreshRequestFailed), None)
        case UnreadableBody => Step(Err(BodyNotJson), None)
        case Reply(ok, token, expiresIn, refreshToken) =>
          if !ok then Step(Ok(None), None)
          else
            var rows := RefreshRows(user.value.accounts, token, NewExpiresAt(refreshMs, expiresIn), refreshToken);
            Step(Ok(Some(token)), Some(rows))
  }

  /** `getAccessToken(payload, userId)`: read, check, refresh if needed,
      write back. Its returned value and its effect on the store are those
      of `Supply` for the user it read. */
  method GetAccessToken(store: Store, userId: UserId, checkMs: int, refreshMs: int, reply: RefreshReply)
    returns (r: Result<Option<string>, TokenError>)
    requires store.Valid()
    modifies store
    ensures store.Valid() && store.nextId == old(store.nextId)
    ensures r == Supply(Lookup(old(store.users), userId), checkMs, refreshMs, reply).result
    ensures var w := Supply(Lookup(old(store.users), userId), checkMs, refreshMs, reply).write;
      store.users == if w.Some? then SetAccounts(old(store.users), userId, w.value) else old(store.users)
  {
    var user := store.FindById(userId);
    if user.None? {
      return Err(UserNotFound);
    }
    var kc := FirstKeycloak(user.value.accounts);
    if kc.None? || Blank(kc.value.accessToken) {
      return Ok(None);
    }
    var stillValid := StillValid(kc.value.expiresAt, checkMs);
    if stillValid {
      return Ok(kc.value.accessToken);
    }
    if Blank(kc.value.refreshToken) {
      return Ok(None);
    }
    if reply.NetworkFailure? {
      return Err(RefreshRequestFailed);
    }
    if reply.UnreadableBody? {
      return Err(BodyNotJson);
    }
    if !reply.ok {
      return Ok(None);
    }
    var newExpiresAt := NewExpiresAt(refreshMs, reply.expiresIn);
    var accounts := RefreshRows(user.value.accounts, reply.accessToken, newExpiresAt, reply.refreshToken);
    store.UpdateAccounts(userId, accounts);
    return Ok(Some(reply.accessToken));
  }

  // ---------------------------------------------------------------------
  // Properties

  /** No Keycloak row, or one whose access token is absent or empty:
      `null`, no refresh, no write. */
  lemma NoTokenGivesNull(user: User, checkMs: int, refreshMs: int, reply: RefreshReply)
    requires FirstKeycloak(user.accounts).None? || Blank(FirstKeycloak(user.accounts).value.accessToken)
    ensures Supply(Some(user), checkMs, refreshMs, reply) == Step(Ok(None), None)
  {
  }

  /** With no recorded expiry the stored token is returned as stored, at any
      time and whatever the endpoint would answer, and nothing is written. */
  lemma NoExpiryReturnsStored(user: User, checkMs: int, refreshMs: int, reply: RefreshReply)
    requires FirstKeycloak(user.accounts).Some?
    requires !Blank(FirstKeycloak(user.accounts).value.accessToken)
    requires FirstKeycloak(user.accounts).value.expiresAt in {None, Some(0)}
    ensures Supply(Some(user), checkMs, refreshMs, reply)
         == Step(Ok(FirstKeycloak(user.accounts).value.accessToken), None)
  {
  }

  /** With a recorded expiry `e`, the token counts as valid exactly while the
      clock is before `e * 1000 - 30000`. */
  lemma ValidityWindow(e: int, nowMs: int)
    requires e != 0
    ensures StillValid(Some(e), nowMs) <==> nowMs < e * 1000 - 30000
  {
  }

  /** While the token is valid at the check, the result depends neither on
      the endpoint's reply nor on the later clock reading: no refresh
      request is made, and nothing is written. */
  lemma ValidMakesNoRefresh(user: User, checkMs: int, refreshMs1: int, refreshMs2: int,
                            reply1: RefreshReply, reply2: RefreshReply)
    requires FirstKeycloak(user.accounts).Some?
    requires StillValid(FirstKeycloak(user.accounts).value.expiresAt, checkMs)
    ensures Supply(Some(user), checkMs, refreshMs1, reply1) == Supply(Some(user), checkMs, refreshMs2, reply2)
    ensures Supply(Some(user), checkMs, refreshMs1, reply1).write.None?
  {
  }

  /** An expired token without a refresh token, or with a refresh that the
      endpoint refuses, gives `null` and writes nothing. */
  lemma FailedRefreshGivesNull(user: User, checkMs: int, refreshMs: int, reply: RefreshReply)
    requires FirstKeycloak(user.accounts).Some?
    requires !Blank(FirstKeycloak(user.accounts).value.accessToken)
    requires !StillValid(FirstKeycloak(user.accounts).value.expiresAt, checkMs)
    requires Blank(FirstKeycloak(user.accounts).value.refreshToken) || (reply.Reply? && !reply.ok)
    ensures Supply(Some(user), checkMs, refreshMs, reply) == Step(Ok(None), None)
  {
  }

  /** An expired token with a refresh token whose request rejects, or whose
      `ok` response is not JSON, makes `getAccessToken` throw, and nothing is
      written. */
  lemma RefreshErrorsEscape(user: User, checkMs: int, refreshMs: int, reply: RefreshReply)
    requires FirstKeycloak(user.accounts).Some?
    requires !Blank(FirstKeycloak(user.accounts).value.accessToken)
    requires !StillValid(FirstKeycloak(user.accounts).value.expiresAt, checkMs)
    requires !Blank(FirstKeycloak(user.accounts).value.refreshToken)
    ensures reply.NetworkFailure? ==> Supply(Some(user), checkMs, refreshMs, reply) == Step(Err(RefreshRequestFailed), None)
    ensures reply.UnreadableBody? ==> Supply(Some(user), checkMs, refreshMs, reply) == Step(Err(BodyNotJson), None)
  {
  }

  /** A stored token is only handed out while it is valid: whenever nothing
      is written and a token comes back, the Keycloak row is still valid. */
  lemma NoStaleToken(user: User, checkMs: int, refreshMs: int, reply: RefreshReply)
    requires Supply(Some(user), checkMs, refreshMs, reply).write.None?
    requires Supply(Some(user), checkMs, refreshMs, reply).result.Ok?
    requires Supply(Some(user), checkMs, refreshMs, reply).result.value.Some?
    ensures FirstKeycloak(user.accounts).Some?
    ensures StillValid(FirstKeycloak(user.accounts).value.expiresAt, checkMs)
    ensures Supply(Some(user), checkMs, refreshMs, reply).result.value == FirstKeycloak(user.accounts).value.accessToken
  {
  }

  /** After a successful refresh: the same number of rows; every Keycloak row
      is the old row with only the new access token, the new expiry (taken
      from the clock reading after the request) and the new refresh token
      or, when none came back, its old one; every other row is unchanged;
      and the token returned is the one written. */
  lemma RefreshRewritesKeycloakRows(user: User, checkMs: int, refreshMs: int, reply: RefreshReply)
    requires Supply(Some(user), checkMs, refreshMs, reply).write.Some?
    ensures reply.Reply? && reply.ok
    ensures var rows := Supply(Some(user), checkMs, refreshMs, reply).write.value;
      && |rows| == |user.accounts|
      && Supply(Some(user), checkMs, refreshMs, reply).result == Ok(Some(reply.accessToken))
      && forall i :: 0 <= i < |rows| ==>
        rows[i] == if user.accounts[i].provider == Keycloak then
          user.accounts[i].(accessToken := Some(reply.accessToken),
                            expiresAt := Some(refreshMs / 1000 + reply.expiresIn),
                            refreshToken := if reply.refreshToken.Some? then reply.refreshToken
                                            else user.accounts[i].refreshToken)
        else user.accounts[i]
  {
  }

  /** The refreshed expiry is the clock's whole second plus `expires_in`:
      at least `expires_in` seconds after the start of the current second
      and less than one second beyond `now + expires_in`. */
  lemma {:induction false} NewExpiryBounds(nowMs: int, expiresIn: int)
    ensures NewExpiresAt(nowMs, expiresIn) * 1000 <= nowMs + expiresIn * 1000
    ensures nowMs + expiresIn * 1000 < NewExpiresAt(nowMs, expiresIn) * 1000 + 1000
  {
    var q := nowMs / 1000;
    assert nowMs == q * 1000 + nowMs % 1000;
  }

  /** A refreshed token whose lifetime exceeds the margin by a second counts
      as valid at the clock reading its expiry was computed from. */
  lemma RefreshedTokenIsValid(nowMs: int, expiresIn: int)
    requires expiresIn >= 31
    ensures StillValid(Some(NewExpiresAt(nowMs, expiresIn)), nowMs)
  {
    NewExpiryBounds(nowMs, expiresIn);
  }
}
