/** `authenticateRequest`: turns a request into one normalised identity,
    either from the cookie session already on the request or from a verified
    Keycloak bearer token, creating the local user on its first bearer
    request. The role of a created user is always `user`: no role is read
    from the token. */
module Authenticate {
  import opened Wrappers
  import opened Types
  import opened UserStore
  import opened OidcUser

  datatype AuthMethod = Cookie | Bearer

  /** The object the function returns; `via` is its `method` field. */
  datatype Identity = Identity(id: UserId, email: Option<string>, name: Option<string>, role: Role, via: AuthMethod)

  /** The inbound request: the session user the cookie layer attached
      (`req.auth.user`), and the `Authorization` header. */
  datatype Request = Request(auth: Option<User>, authorization: Option<string>)

  /** The errors it throws, in source order. */
  datatype AuthError = NoValidSession | StoreRequired | NoUserFound

  function Project(u: User, m: AuthMethod): Identity {
    Identity(u.id, u.email, u.name, u.role, m)
  }

  /** The two checks that guard the bearer path, in their order: a usable
      session (present, non-empty `sub`, `extra` present), then a store. */
  function BearerCheck(session: Option<AuthInfo>, hasStore: bool): Option<AuthError> {
    if session.None? || session.value.sub == "" || session.value.extra.None? then Some(NoValidSession)
    else if !hasStore then Some(StoreRequired)
    else None
  }

  /** The account a first bearer request links. */
  function KeycloakAccount(sub: string): Account {
    Account("keycloak", sub, Some(Oidc), None, None, None, None, None, None, None, None)
  }

  /** The user a first bearer request creates, given the id the store
      assigns. */
  function NewUser(id: UserId, session: AuthInfo): User
    requires session.extra.Some?
  {
    User(id, session.extra.value.email, session.extra.value.name, UserRole, Some(true), [KeycloakAccount(session.sub)])
  }

  /** `authenticateRequest({ req, payload })`. `store` is `null` when no
      persistence handle is given. */
  method AuthenticateRequest(req: Request, store: Store?, resolver: KeySetResolver, idp: Provider)
    returns (r: Result<Identity, AuthError>)
    requires store != null ==> store.Valid()
    modifies resolver, store
    ensures store != null ==> store.Valid()
    // cookie path: the session user as it is, nothing else touched
    ensures req.auth.Some? ==>
      && r == Ok(Project(req.auth.value, Cookie))
      && resolver.jwks == old(resolver.jwks)
      && (store != null ==> store.users == old(store.users) && store.nextId == old(store.nextId))
    // bearer path
    ensures req.auth.None? ==>
      resolver.jwks == if Reaches(ExtractBearer(req.authorization), idp)
        then Some(Resolved(old(resolver.jwks), resolver.issuer, idp.discovery)) else old(resolver.jwks)
    ensures var session := SessionFor(req.authorization, old(resolver.jwks), resolver.issuer, idp);
      req.auth.None? && BearerCheck(session, store != null).Some? ==>
        && r == Err(BearerCheck(session, store != null).value)
        && (store != null ==> store.users == old(store.users) && store.nextId == old(store.nextId))
    ensures var session := SessionFor(req.authorization, old(resolver.jwks), resolver.issuer, idp);
      req.auth.None? && BearerCheck(session, store != null).None? && store != null ==>
        var email := session.value.extra.value.email;
        if forall i :: 0 <= i < |old(store.users)| ==> old(store.users)[i].email != email then
          && store.users == old(store.users) + [NewUser(old(store.nextId), session.value)]
          && store.nextId == old(store.nextId) + 1
          && r == Ok(Project(NewUser(old(store.nextId), session.value), Bearer))
        else
          && store.users == old(store.users) && store.nextId == old(store.nextId)
          && exists i :: 0 <= i < |old(store.users)| && old(store.users)[i].email == email
               && r == Ok(Project(old(store.users)[i], Bearer))
  {
    if req.auth.Some? {
      var user := req.auth.value;
      return Ok(Project(user, Cookie));
    }
    var session := resolver.VerifySession(req.authorization, idp);
    if session.None? || session.value.sub == "" || session.value.extra.None? {
      return Err(NoValidSession);
    }
    if store == null {
      return Err(StoreRequired);
    }
    var payloadUser := store.FindByEmail(session.value.extra.value.email);
    if payloadUser.None? && session.value.extra.Some? {
      var extra := session.value.extra.value;
      var newUser := store.Create(extra.email, extra.name, UserRole, Some(true), [KeycloakAccount(session.value.sub)]);
      return Ok(Project(newUser, Bearer));
    } else if payloadUser.Some? {
      var u := payloadUser.value;
      ghost var i :| 0 <= i < |store.users| && store.users[i] == u;
      return Ok(Project(u, Bearer));
    } else {
      assert false;
      return Err(NoUserFound);
    }
  }

  // ---------------------------------------------------------------------
  // Properties

  /** The session check comes first: an unusable session is refused the
      same way with or without a store; only a usable one can fail for a
      missing store. */
  lemma SessionCheckedBeforeStore(session: Option<AuthInfo>)
    ensures (session.None? || session.value.sub == "" || session.value.extra.None?) ==>
      BearerCheck(session, false) == BearerCheck(session, true) == Some(NoValidSession)
    ensures session.Some? && session.value.sub != "" && session.value.extra.Some? ==>
      BearerCheck(session, false) == Some(StoreRequired) && BearerCheck(session, true).None?
  {
  }

  /** A first bearer request creates a user with role `user`, enabled, and
      exactly one linked account: provider `keycloak`, type `oidc`, the
      token's subject as provider account id. */
  lemma NewUserShape(id: UserId, session: AuthInfo)
    requires session.extra.Some?
    ensures var u := NewUser(id, session);
      && u.role == UserRole && u.enabled == Some(true)
      && |u.accounts| == 1
      && u.accounts[0].provider == "keycloak"
      && u.accounts[0].providerAccountId == session.sub
      && u.accounts[0].accountType == Some(Oidc)
      && u.email == session.extra.value.email && u.name == session.extra.value.name
  {
  }

  /** The last `No user found` error cannot happen: a session that passes
      the guard has `extra`, and every session the verifier produces has it. */
  lemma NoUserFoundUnreachable(authorization: Option<string>, cache: Option<KeySet>, issuer: string, idp: Provider)
    ensures var s := SessionFor(authorization, cache, issuer, idp);
      BearerCheck(s, true).None? ==> s.value.extra.Some?
    ensures var s := SessionFor(authorization, cache, issuer, idp);
      s.Some? && s.value.sub != "" ==> BearerCheck(s, true).None?
  {
    SessionHasExtra(authorization, cache, issuer, idp);
  }
}
