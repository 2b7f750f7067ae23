/** Bearer-token verification against the OIDC issuer: the `Authorization`
    header parsing (section 2.1 of RFC 6750), the claims-to-`AuthInfo`
    mapping, the lazily resolved key set, and the `exp` check (section 4.1.4
    of RFC 7519). The discovery fetch and the `jose` library (`decodeJwt`,
    `jwtVerify`) are inputs: their answers are passed in as a `Provider`. */
module OidcUser {
  import opened Wrappers
  import opened Text

  /** Client id to roles, as the `resource_access` claim carries it. */
  type ResourceAccess = map<string, seq<string>>

  /** The verified payload, with each claim absent when missing. `scp` is
      `None` also when the claim is present but not a string. */
  datatype Claims = Claims(
    sub: Option<string>,
    exp: Option<int>,
    scp: Option<string>,
    resourceAccess: Option<ResourceAccess>,
    email: Option<string>,
    name: Option<string>)

  datatype Extra = Extra(email: Option<string>, name: Option<string>)

  /** `AuthInfo`. */
  datatype AuthInfo = AuthInfo(
    sub: string,
    exp: int,
    scopes: seq<string>,
    resourceAccess: Option<ResourceAccess>,
    extra: Option<Extra>)

  /** The remote key set `createRemoteJWKSet` builds for a URL. */
  datatype KeySet = RemoteKeySet(url: string)

  /** What the outside world answers. `discovery` is the `jwks_uri` of the
      discovery document, `None` when fetching or parsing it fails;
      `decodes` is whether `decodeJwt` accepts the token; `verifies` is
      `jwtVerify` against a key set and the issuer with RS256 only, giving
      the payload or `None` when it throws. */
  datatype Provider = Provider(
    discovery: Option<string>,
    decodes: string -> bool,
    verifies: (KeySet, string, string) -> Option<Claims>)

  // ---------------------------------------------------------------------
  // extractBearer

  /** `extractBearer`: no header or an empty one gives nothing; otherwise
      the header is split on spaces, the first piece must be `bearer` in any
      letter case, and the token is the second piece (absent when there is
      none, possibly empty). */
  function ExtractBearer(authorization: Option<string>): Option<string> {
    if Blank(authorization) then None
    else
      var parts := Split(authorization.value, ' ');
      if ToLower(parts[0]) != "bearer" then None
      else if |parts| < 2 then None
      else Some(parts[1])
  }

  /** A missing or empty header yields no token. */
  lemma NoHeaderNoBearer(authorization: Option<string>)
    requires Blank(authorization)
    ensures ExtractBearer(authorization).None?
  {
  }

  /** `<scheme> <token>`, with any further space-separated pieces dropped. */
  lemma BearerIsSecondPiece(scheme: string, token: string, rest: string)
    requires ' ' !in scheme && ' ' !in token && ToLower(scheme) == "bearer"
    ensures ExtractBearer(Some(scheme + " " + token)) == Some(token)
    ensures ExtractBearer(Some(scheme + " " + token + " " + rest)) == Some(token)
  {
    SplitCons(scheme, ' ', token);
    assert Split(token, ' ') == [token];
    assert scheme + " " + token + " " + rest == scheme + [' '] + (token + [' '] + rest);
    SplitCons(scheme, ' ', token + [' '] + rest);
    SplitCons(token, ' ', rest);
  }

  /** The scheme alone (`Bearer` with nothing after it) yields no token. */
  lemma SchemeAloneNoBearer(scheme: string)
    requires scheme != "" && ' ' !in scheme
    ensures ExtractBearer(Some(scheme)).None?
  {
  }

  /** Any other scheme yields no token. */
  lemma OtherSchemeNoBearer(scheme: string, rest: string)
    requires ' ' !in scheme && ToLower(scheme) != "bearer"
    ensures ExtractBearer(Some(scheme + " " + rest)).None?
  {
    SplitCons(scheme, ' ', rest);
  }

  /** The scheme is compared without regard to letter case: two schemes that
      lower-case alike give the same answer for the same remainder. */
  lemma SchemeCaseInsensitive(scheme1: string, scheme2: string, rest: string)
    requires ' ' !in scheme1 && ' ' !in scheme2 && ToLower(scheme1) == ToLower(scheme2)
    ensures ExtractBearer(Some(scheme1 + " " + rest)) == ExtractBearer(Some(scheme2 + " " + rest))
  {
    SplitCons(scheme1, ' ', rest);
    SplitCons(scheme2, ' ', rest);
  }

  // ---------------------------------------------------------------------
  // Claims mapping

  /** The object `verifySession` builds from a verified payload. */
  function SessionInfo(c: Claims): AuthInfo {
    AuthInfo(
      c.sub.GetOr("unknown"),
      c.exp.GetOr(0),
      if c.scp.Some? then Split(c.scp.value, ' ') else [],
      c.resourceAccess,
      Some(Extra(c.email, c.name)))
  }

  /** The object `verifyToken` builds: the same, without `resource_access`. */
  function TokenInfo(c: Claims): AuthInfo {
    AuthInfo(
      c.sub.GetOr("unknown"),
      c.exp.GetOr(0),
      if c.scp.Some? then Split(c.scp.value, ' ') else [],
      None,
      Some(Extra(c.email, c.name)))
  }

  /** The defaults of the mapping: `sub` is `"unknown"` and `exp` is 0 when
      absent; the scopes are the space-separated pieces of a string `scp`
      (joined back they give `scp`), none otherwise; `extra` always holds the
      e-mail and name claims; `resource_access` is passed through. */
  lemma SessionInfoDefaults(c: Claims)
    ensures var info := SessionInfo(c);
      && (c.sub.None? ==> info.sub == "unknown")
      && (c.sub.Some? ==> info.sub == c.sub.value)
      && (c.exp.None? ==> info.exp == 0)
      && (c.exp.Some? ==> info.exp == c.exp.value)
      && (c.scp.None? ==> info.scopes == [])
      && (c.scp.Some? ==> |info.scopes| >= 1 && Join(info.scopes, ' ') == c.scp.value && NoneContains(info.scopes, ' '))
      && info.extra == Some(Extra(c.email, c.name))
      && info.resourceAccess == c.resourceAccess
  {
  }

  /** `verifyToken` maps like `verifySession` but never sets
      `resource_access`. */
  lemma TokenInfoIsSessionInfoWithoutResources(c: Claims)
    ensures TokenInfo(c) == SessionInfo(c).(resourceAccess := None)
    ensures TokenInfo(c).resourceAccess.None?
  {
  }

  // ---------------------------------------------------------------------
  // Key set resolution and verification

  function DiscoveryUrl(issuer: string): string {
    issuer + "/.well-known/openid-configuration"
  }

  /** `getJwksUrl`: the discovered `jwks_uri`, or the fallback path under the
      discovery URL when discovery fails. */
  function JwksUrl(issuer: string, discovery: Option<string>): string {
    if discovery.Some? then discovery.value
    else DiscoveryUrl(issuer) + "/discovery/v2.0/keys"
  }

  /** The key set `getJWKS` returns given the current cache. */
  function Resolved(cache: Option<KeySet>, issuer: string, discovery: Option<string>): KeySet {
    if cache.Some? then cache.value else RemoteKeySet(JwksUrl(issuer, discovery))
  }

  /** The bearer gets as far as `getJWKS`: it is non-empty and decodes. */
  predicate Reaches(bearer: Option<string>, idp: Provider) {
    bearer.Some? && bearer.value != "" && idp.decodes(bearer.value)
  }

  /** The verification result for a bearer against the key set. */
  function Verified(bearer: string, keys: KeySet, issuer: string, idp: Provider, withResources: bool): Option<AuthInfo> {
    match idp.verifies(keys, issuer, bearer)
    case None => None
    case Some(c) => Some(if withResources then SessionInfo(c) else TokenInfo(c))
  }

  /** What `verifySession` answers for a header. */
  function SessionFor(authorization: Option<string>, cache: Option<KeySet>, issuer: string, idp: Provider): Option<AuthInfo> {
    var b := ExtractBearer(authorization);
    if !Reaches(b, idp) then None
    else Verified(b.value, Resolved(cache, issuer, idp.discovery), issuer, idp, true)
  }

  /** What `verifyToken` answers for a token. */
  function TokenFor(bearer: string, cache: Option<KeySet>, issuer: string, idp: Provider): Option<AuthInfo> {
    if !Reaches(Some(bearer), idp) then None
    else Verified(bearer, Resolved(cache, issuer, idp.discovery), issuer, idp, false)
  }

  /** No bearer, an empty one, one that does not decode, or one that fails
      verification: no identity, never an error. */
  lemma SessionFailuresAreUndefined(authorization: Option<string>, cache: Option<KeySet>, issuer: string, idp: Provider)
    ensures ExtractBearer(authorization).None? ==> SessionFor(authorization, cache, issuer, idp).None?
    ensures var b := ExtractBearer(authorization);
      b.Some? && (b.value == "" || !idp.decodes(b.value)) ==> SessionFor(authorization, cache, issuer, idp).None?
    ensures var b := ExtractBearer(authorization);
      Reaches(b, idp) && idp.verifies(Resolved(cache, issuer, idp.discovery), issuer, b.value).None? ==>
        SessionFor(authorization, cache, issuer, idp).None?
  {
  }

  /** Every identity `verifySession` produces carries `extra`. */
  lemma SessionHasExtra(authorization: Option<string>, cache: Option<KeySet>, issuer: string, idp: Provider)
    ensures var s := SessionFor(authorization, cache, issuer, idp);
      s.Some? ==> s.value.extra.Some?
  {
  }

  /** `isTokenExpired`'s verdict on what `verifyToken` gave: a failed
      verification or a zero `exp` counts as expired; otherwise `exp` is
      compared with the current whole second. */
  predicate Expired(info: Option<AuthInfo>, nowMs: int) {
    info.None? || info.value.exp == 0 || info.value.exp < nowMs / 1000
  }

  /** The expiry boundary of the comparison `isTokenExpired` makes itself,
      on claims that verification returned: with `exp` set, expired exactly
      from the start of second `exp + 1`, so during second `exp` it is not.
      The verification library's own `exp` check, which comes first, lies
      inside `Provider.verifies`. */
  lemma ExpiryBoundary(info: AuthInfo, nowMs: int)
    requires info.exp != 0
    ensures Expired(Some(info), nowMs) <==> (info.exp + 1) * 1000 <= nowMs
    ensures !Expired(Some(info), info.exp * 1000)
  {
    var q := nowMs / 1000;
    assert q * 1000 <= nowMs < q * 1000 + 1000;
    assert info.exp * 1000 / 1000 == info.exp;
    if info.exp < q {
      assert (info.exp + 1) * 1000 <= q * 1000;
    } else {
      assert q * 1000 <= info.exp * 1000;
    }
  }

  /** The process-wide `JWKS` variable and the functions that read it. */
  class KeySetResolver {
    /** `OAUTH_ISSUER`. */
    const issuer: string
    var jwks: Option<KeySet>

    constructor (issuer: string)
      ensures this.issuer == issuer && jwks.None?
    {
      this.issuer := issuer;
      jwks := None;
    }

    /** `getJWKS`: the cached key set; the first call resolves the JWKS URL
        and fills the cache, which no later call changes. */
    method GetJwks(discovery: Option<string>) returns (keys: KeySet)
      modifies this
      ensures old(jwks).Some? ==> keys == old(jwks).value
      ensures old(jwks).None? ==> keys == RemoteKeySet(JwksUrl(issuer, discovery))
      ensures jwks == Some(keys)
    {
      if jwks.None? {
        var url := JwksUrl(issuer, discovery);
        jwks := Some(RemoteKeySet(url));
      }
      keys := jwks.value;
    }

    /** `verifySession(req)`: the cache is filled only when the bearer gets
        as far as `getJWKS`. */
    method VerifySession(authorization: Option<string>, idp: Provider) returns (info: Option<AuthInfo>)
      modifies this
      ensures info == SessionFor(authorization, old(jwks), issuer, idp)
      ensures jwks == if Reaches(ExtractBearer(authorization), idp)
        then Some(Resolved(old(jwks), issuer, idp.discovery)) else old(jwks)
    {
      var bearer := ExtractBearer(authorization);
      if bearer.Some? && bearer.value != "" {
        if !idp.decodes(bearer.value) {
          return None;
        }
        var keys := GetJwks(idp.discovery);
        var claims := idp.verifies(keys, issuer, bearer.value);
        if claims.None? {
          return None;
        }
        return Some(SessionInfo(claims.value));
      }
      return None;
    }

    /** `verifyToken(bearer)`. */
    method VerifyToken(bearer: string, idp: Provider) returns (info: Option<AuthInfo>)
      modifies this
      ensures info == TokenFor(bearer, old(jwks), issuer, idp)
      ensures jwks == if Reaches(Some(bearer), idp)
        then Some(Resolved(old(jwks), issuer, idp.discovery)) else old(jwks)
    {
      if bearer != "" {
        if !idp.decodes(bearer) {
          return None;
        }
        var keys := GetJwks(idp.discovery);
        var claims := idp.verifies(keys, issuer, bearer);
        if claims.None? {
          return None;
        }
        return Some(TokenInfo(claims.value));
      }
      return None;
    }

    /** `isTokenExpired(token)` at the clock reading `nowMs`. */
    method IsTokenExpired(token: string, nowMs: int, idp: Provider) returns (expired: bool)
      modifies this
      ensures expired == Expired(TokenFor(token, old(jwks), issuer, idp), nowMs)
      ensures jwks == if Reaches(Some(token), idp)
        then Some(Resolved(old(jwks), issuer, idp.discovery)) else old(jwks)
    {
      var decoded := VerifyToken(token, idp);
      if decoded.None? || decoded.value.exp == 0 {
        return true;
      }
      var currentTime := nowMs / 1000;
      return decoded.value.exp < currentTime;
    }
  }
}
