# Auth package: a verified model

This project models the `auth` package of the shared-components
repository. The package joins two sources of identity into one local user
record. The first is a cookie session that the session layer has already
checked. The second is an OIDC bearer token issued by Keycloak. The model
covers these parts:

- **Validators** (`validators.dfy`): the e-mail shape check, e-mail
  sanitising, and the password-strength rule with its scored feedback.
- **Access predicates** (`access.dfy`): the functions that map the
  request's optional user to `true`/`false` or to an owner/member query.
- **Token cipher** (`crypto.dfy`): the `iv:tag:ciphertext` hex format of
  `encryptToken`/`decryptToken`. It covers empty input, legacy plaintext
  passthrough and failure to `null`. AES-256-GCM (NIST SP 800-38D) and
  SHA-256 (FIPS 180-4) are passed in as function values. Their one law
  (`Inverts`) states that decryption inverts encryption under the same key
  and iv.
- **Account ledger** (`configuration.dfy`): `upsertAccount` replaces or
  appends a row keyed by (provider, providerAccountId). `persistTokens`
  reads the stored user, upserts, and writes back.
- **Access-token supplier** (`access_token.dfy`): `getAccessToken` checks
  validity with a 30-second margin. An expired token is refreshed with the
  refresh-token grant (section 6 of RFC 6749), the Keycloak rows are
  rewritten, and the new token is returned.
- **Bearer verification** (`oidc_user.dfy`):
  - `Authorization` parsing (section 2.1 of RFC 6750);
  - the claims-to-`AuthInfo` mapping;
  - the once-only key-set cache, and the JWKS URL it falls back to;
  - `isTokenExpired` (the `exp` claim, section 4.1.4 of RFC 7519).
- **Request normaliser** (`authenticate.dfy`): `authenticateRequest`
  handles the cookie path and the bearer path. On the bearer path it finds
  the user by e-mail or creates one.

Supporting modules are `wrappers.dfy` (Option, Result, JavaScript's `!x`
on optional strings) and `text.dfy` (ASCII whitespace, `toLowerCase`,
`trim`, `split`). `types.dfy` holds the User and Account shapes from
`types.ts`. `store.dfy` is the `users` collection kept in memory. It lets
`find`, `findByID`, `create` and `update` run with access rules bypassed.

The model follows the code, not the intended design, where the two differ:

- No role is read from the token. A user created on a first bearer request
  always gets role `user` (`authenticateRequest.ts:69`). A returning
  user's role is never updated.
- There is no 403 path for a missing `resource_access` entry, and no role
  extractor.
- `upsertAccount` stores tokens as given and does not encrypt them
  (`configuration.ts:17-23`).
- `getAccessToken` returns the stored token as stored and does not decrypt
  it (`getAccessToken.ts:17`). Its refresh re-encrypts nothing.
- A three-part value that fails to decrypt gives `null`. It is not an
  error.
- JavaScript `null` and `undefined` are both `None` wherever the code
  treats them alike (`??`, `!x`, `?.`). The one strict comparison,
  `user?.id === data?.id` in `editOwnProfile`, tells them apart, so there
  the id has three cases: missing, `null`, or a value (`Access.IdValue`).

The clock (`Date.now()`) is an integer parameter in milliseconds.
`getAccessToken` reads it twice, once for the validity check and once after
the refresh request for the new expiry, so it takes two readings. Each
network answer is a parameter:

- the token endpoint's reply, `RefreshReply`;
- the discovery document's `jwks_uri`, in `Provider.discovery`;
- the `jose` verification result, in `Provider.verifies`.

The random iv of `encryptToken` is a parameter too.

## Model

| member | source | states |
|---|---|---|
| Validators.IsValidEmailMatchesPattern | packages/auth/src/validators.ts:5-6 | The scanning check accepts exactly the strings `/^[^\s@]+@[^\s@]+\.[^\s@]+$/` accepts. The pattern is read off directly as an `@` position and a `.` position between non-empty runs of `[^\s@]`. |
| Validators.IsValidEmailParts | packages/auth/src/validators.ts:5-6 | An e-mail is valid exactly when it has no whitespace and exactly one `@`. The local part must be non-empty. The domain must have a `.` that is neither its first nor its last character. |
| Validators.SanitizeEmail | packages/auth/src/validators.ts:12-14 | The result has no upper-case letter and no whitespace at either end. |
| Validators.SanitizeEmailIdempotent | packages/auth/src/validators.ts:12-14 | Sanitising twice gives the same as sanitising once. |
| Validators.StrongIffAllChecks | packages/auth/src/validators.ts:25-32 | A password is strong exactly when all five checks pass: length at least 8, an upper-case letter, a lower-case letter, a digit, and one of `!@#$%^&*`. One failed check makes it weak. |
| Validators.PassedPlusFailed | packages/auth/src/validators.ts:41-74 | Each check either adds a point or adds its message, so passed plus reported equals the number of checks. Every failed check's message is reported. |
| Validators.FailedOnlyFailing | packages/auth/src/validators.ts:41-74 | With distinct messages, a passing check's message is never reported. |
| Validators.FeedbackMeaning | packages/auth/src/validators.ts:37-75 | For every password, passed plus reported is 5. A message is reported exactly when its own check failed. The password is strong exactly when the score is 5, and exactly when nothing is reported. |
| Validators.GetPasswordStrengthFeedback | packages/auth/src/validators.ts:37-75 | 0 <= score <= 5 and score + number of messages == 5. The messages are those of the failed checks, in the order length, upper, lower, digit, special. score == 5 holds exactly when the feedback is empty, and exactly when `isStrongPassword` holds. |
| Access.RolePredicates | packages/auth/src/payload-access/access.ts:10-51 | `isAuthenticated` holds exactly when a user is present. `isUser` holds exactly for roles user and admin, and `isDigitalColleague` exactly for digital-colleague. `isAdmin` holds exactly for admin. With no user, all of them are false. For a present user, exactly one of `isUser` and `isDigitalColleague` holds. `isAdmin` implies `isUser`. |
| Access.EditOwnProfileAnonymous | packages/auth/src/payload-access/access.ts:57-65 | With no user, the as-written `editOwnProfile` allows an update exactly when the data's `id` is missing (or there is no data). An `id` of `null`, or of any user, is refused, because `undefined === null` is false. |
| Access.EditOwnProfileAnonymousAllowed | packages/auth/src/payload-access/access.ts:64 | The concrete case: no user and data `{}` is allowed as written, and refused by the corrected rule. |
| Access.EditOwnProfileChecked | packages/auth/src/payload-access/access.ts:57-65 | The corrected rule allows only requests that have a user. For any present user it agrees with the as-written function. |
| Access.EditOwnProfileCheckedRule | packages/auth/src/payload-access/access.ts:57-65 | Under the corrected rule, anonymous requests are refused and admins are allowed. Any other user is allowed exactly when the data's id is their own. |
| Access.ScopedGrants | packages/auth/src/payload-access/access.ts:70-134 | `isOwned`, `isMember` and `isMemberOrOwner`: no user → false, admin → true. Any other user gets `{owner: {equals: id}}`, `{'members.user': {equals: id}}`, and the `or` of the members clause and the owner clause, in that order, each on that user's id. |
| Access.MemberOrOwnerIsUnion | packages/auth/src/payload-access/access.ts:111-134 | Under the plain reading of the queries, `isMemberOrOwner` reaches exactly the documents that `isMember` or `isOwned` reaches. |
| TokenCrypto.EncryptToken | packages/auth/src/crypto.ts:9-35 | null, undefined and `""` give `null`. Otherwise the result is present exactly when the cipher does not fail, and a cipher failure gives `null`. |
| TokenCrypto.DecryptToken | packages/auth/src/crypto.ts:43-77 | null, undefined and `""` give `null`. A three-part value whose ciphertext field has an odd number of hex digits gives `null`: the decipher's hex input refuses it, and the throw is caught. |
| TokenCrypto.TamperedBlobRejected | packages/auth/src/crypto.ts:64-75 | Appending one digit to any blob makes it decrypt to `null`, whatever the secret and the cipher. |
| TokenCrypto.FromHexOfHex | packages/auth/src/crypto.ts:61-62 | Node's lenient hex decoding reads back exactly the bytes the hex encoding wrote. |
| TokenCrypto.BlobParts | packages/auth/src/crypto.ts:48 | Every blob splits on `:` into exactly its three hex fields, because hex contains no `:`. |
| TokenCrypto.EncryptedFormat | packages/auth/src/crypto.ts:17-30 | The output is three `:`-separated fields: hex(iv), hex(tag), hex(ciphertext). A 12-byte iv gives 24 hex digits. |
| TokenCrypto.RoundTrip | packages/auth/src/crypto.ts:9-77 | For any value that encrypts, decrypting with the same secret gives back the original token. Both directions derive the key from the secret in the same way. |
| TokenCrypto.DistinctIvsDistinctBlobs | packages/auth/src/crypto.ts:17-30 | Different ivs give different blobs for the same token and secret. |
| TokenCrypto.LegacyPassthrough | packages/auth/src/crypto.ts:49-53 | A non-empty value that is not exactly three `:` parts is returned unchanged, whatever the secret. |
| TokenCrypto.FailureIsNotPassthrough | packages/auth/src/crypto.ts:49-76 | A non-empty value that decrypts to `null` always has three parts. A three-part value with an even-length ciphertext field gets the cipher's answer and never the legacy passthrough, so the two cases stay distinguishable. |
| UserStore.Lookup | packages/auth/src/payload-jwt/getAccessToken.ts:10 | `findByID`: returns a stored user with that id when one exists, and not-found exactly when none does. |
| UserStore.SetAccounts | packages/auth/src/payload-jwt/getAccessToken.ts:51-56 | `update` of `accounts`: the user with that id gets the new rows. All other users and all other fields stay the same. |
| UserStore.Store.FindById | packages/auth/src/payload-jwt/configuration.ts:37-41 | The loop finds the same user as `Lookup`. |
| UserStore.Store.FindByEmail | packages/auth/src/payload-jwt/authenticateRequest.ts:60 | Returns some stored user with the given e-mail when one exists, and nothing exactly when none does. |
| UserStore.Store.Create | packages/auth/src/payload-jwt/authenticateRequest.ts:64-79 | Appends exactly one user with a fresh id and the given data. It keeps ids unique. |
| UserStore.Store.UpdateAccounts | packages/auth/src/payload-jwt/configuration.ts:46-51 | The new state is `SetAccounts` of the old one. The id counter and the store invariant are kept. |
| Configuration.FindIndex | packages/auth/src/payload-jwt/configuration.ts:6-8 | Returns the first row matching both provider and providerAccountId, or -1 exactly when no row matches. |
| Configuration.UpsertAccount | packages/auth/src/payload-jwt/configuration.ts:2-32 | The result has the same length as the input or one row more. |
| Configuration.UpsertReplacesFirstMatch | packages/auth/src/payload-jwt/configuration.ts:26-29 | When a row matches, the length is unchanged. Only the first matching row is replaced, and every other row is as it was. |
| Configuration.UpsertAppends | packages/auth/src/payload-jwt/configuration.ts:31 | When no row matches, the result is the existing rows followed by exactly one new row. |
| Configuration.UpsertRowFields | packages/auth/src/payload-jwt/configuration.ts:10-24 | In the written row, provider, providerAccountId and type come from the incoming account. Every token field is the incoming value, or absent when the incoming account lacks it. The old row's `id` is carried forward, and a new row has none. |
| Configuration.UpsertKeepsKeysUnique | packages/auth/src/payload-jwt/configuration.ts:6-31 | If the input has at most one row per (provider, providerAccountId), so does the output. |
| Configuration.UpsertIdempotent | packages/auth/src/payload-jwt/configuration.ts:2-32 | Upserting the same account twice gives the same result as upserting it once. |
| Configuration.PersistTokens | packages/auth/src/payload-jwt/configuration.ts:34-52 | For a stored user, the user's accounts become the upsert of their old accounts. A missing user is the not-found error and nothing is written. |
| AccessToken.FirstKeycloak | packages/auth/src/payload-jwt/getAccessToken.ts:12 | Returns a stored row with provider `keycloak`, and nothing exactly when no such row exists. |
| AccessToken.GetAccessToken | packages/auth/src/payload-jwt/getAccessToken.ts:9-59 | The step-by-step read/check/refresh/update returns what `Supply` decides for the stored user. The validity check uses the first clock reading and the new expiry the second. It writes back exactly the rows `Supply` computes, or nothing. |
| AccessToken.NoTokenGivesNull | packages/auth/src/payload-jwt/getAccessToken.ts:12-13 | No Keycloak row, or an absent or empty access token: `null`, with no refresh and no write. |
| AccessToken.NoExpiryReturnsStored | packages/auth/src/payload-jwt/getAccessToken.ts:15-17 | With `expires_at` absent or 0, the stored token is returned as stored, at any time and whatever the endpoint would reply. Nothing is written. |
| AccessToken.ValidityWindow | packages/auth/src/payload-jwt/getAccessToken.ts:16 | With a recorded expiry e ≠ 0, the token is valid exactly when now < e*1000 − 30000. |
| AccessToken.ValidMakesNoRefresh | packages/auth/src/payload-jwt/getAccessToken.ts:15-17 | While the token is valid, the outcome does not depend on the refresh reply, and nothing is written. |
| AccessToken.RefreshErrorsEscape | packages/auth/src/payload-jwt/getAccessToken.ts:22-35 | An expired token with a refresh token: a rejected request, or an `ok` response whose body is not JSON, makes `getAccessToken` throw, and nothing is written. |
| AccessToken.FailedRefreshGivesNull | packages/auth/src/payload-jwt/getAccessToken.ts:20-33 | An expired token with no refresh token, or with a reply that is not ok: `null`, and the store is unchanged. |
| AccessToken.NoStaleToken | packages/auth/src/payload-jwt/getAccessToken.ts:12-17 | A token returned without a write is the stored Keycloak token, and it is still valid. |
| AccessToken.RefreshRewritesKeycloakRows | packages/auth/src/payload-jwt/getAccessToken.ts:37-58 | After a refresh the row count is unchanged. Each Keycloak row is its old row with exactly three fields replaced: the new access token, `expires_at = floor(now/1000) + expires_in` at the reading taken after the request, and the new refresh token or else its old one. Key, type, id token, token type, scope, session state and id stay. Other rows are unchanged. The returned token is the one written. |
| AccessToken.NewExpiryBounds | packages/auth/src/payload-jwt/getAccessToken.ts:37 | The new expiry, in milliseconds, lies in (now + expires_in·1000 − 1000, now + expires_in·1000]. |
| AccessToken.RefreshedTokenIsValid | packages/auth/src/payload-jwt/getAccessToken.ts:16-37 | A refreshed token whose lifetime is at least 31 s counts as valid at the clock reading its expiry was computed from. |
| OidcUser.NoHeaderNoBearer | packages/auth/src/payload-jwt/user.ts:44-45 | A missing or empty `Authorization` header yields no token. |
| OidcUser.BearerIsSecondPiece | packages/auth/src/payload-jwt/user.ts:46-48 | For `<bearer in any case> <token>`, the token is the second space-separated piece. Later pieces are dropped. |
| OidcUser.SchemeAloneNoBearer | packages/auth/src/payload-jwt/user.ts:46-48 | A header that is a scheme alone, such as `Bearer`, yields no token. |
| OidcUser.OtherSchemeNoBearer | packages/auth/src/payload-jwt/user.ts:47 | A scheme that does not lower-case to `bearer` yields no token. |
| OidcUser.SchemeCaseInsensitive | packages/auth/src/payload-jwt/user.ts:47 | Two schemes that lower-case alike give the same result. |
| OidcUser.SessionInfoDefaults | packages/auth/src/payload-jwt/user.ts:70-76 | `sub` defaults to `"unknown"` and `exp` to 0. A string `scp` becomes its space-separated pieces, which join back to `scp`; otherwise there are no scopes. `extra` holds the e-mail and name, and `resource_access` is passed through. |
| OidcUser.TokenInfoIsSessionInfoWithoutResources | packages/auth/src/payload-jwt/user.ts:104-109 | `verifyToken`'s mapping is `verifySession`'s, except that `resource_access` is never set. |
| OidcUser.SessionFailuresAreUndefined | packages/auth/src/payload-jwt/user.ts:55-85 | No bearer, an empty bearer, one that does not decode, or one that fails verification all give undefined, never an exception. |
| OidcUser.SessionHasExtra | packages/auth/src/payload-jwt/user.ts:75 | Every identity `verifySession` produces carries `extra`. |
| OidcUser.ExpiryBoundary | packages/auth/src/payload-jwt/user.ts:124-127 | For the comparison at line 127 on verified claims with `exp` ≠ 0: expired exactly from second exp + 1 onwards, and not at exp·1000 ms. |
| OidcUser.KeySetResolver.constructor | packages/auth/src/payload-jwt/user.ts:33 | The process starts with an empty key-set cache. |
| OidcUser.KeySetResolver.GetJwks | packages/auth/src/payload-jwt/user.ts:35-41 | A filled cache is returned unchanged. An empty cache is filled once, from the discovered `jwks_uri` or else from the fallback `<discovery URL>/discovery/v2.0/keys`. |
| OidcUser.KeySetResolver.VerifySession | packages/auth/src/payload-jwt/user.ts:53-86 | Returns `SessionFor` of the header. The cache is touched only when the bearer is non-empty and decodes. |
| OidcUser.KeySetResolver.VerifyToken | packages/auth/src/payload-jwt/user.ts:90-116 | Returns `TokenFor` of the token, with the same cache behaviour. |
| OidcUser.KeySetResolver.IsTokenExpired | packages/auth/src/payload-jwt/user.ts:122-128 | Expired when verification fails or `exp` is 0. Otherwise expired exactly when exp < floor(now/1000). |
| Authenticate.AuthenticateRequest | packages/auth/src/payload-jwt/authenticateRequest.ts:44-100 | Cookie path: the session user's id, e-mail, name and role with method cookie; store and cache are untouched. Bearer path: an unusable session or a missing store throws, and nothing is stored. An unknown e-mail creates exactly one user and returns it with method bearer. A known e-mail returns a stored user with that e-mail, and the store is unchanged. |
| Authenticate.SessionCheckedBeforeStore | packages/auth/src/payload-jwt/authenticateRequest.ts:58-59 | An unusable session is refused the same way with or without a store. Only a usable session can fail for a missing store. |
| Authenticate.NewUserShape | packages/auth/src/payload-jwt/authenticateRequest.ts:64-79 | The created user has role `user` and enabled = true. It has exactly one account: provider `keycloak`, type `oidc`, providerAccountId = sub. |
| Authenticate.NoUserFoundUnreachable | packages/auth/src/payload-jwt/authenticateRequest.ts:58-97 | A session that passes the guard has `extra`, so the final `No user found` throw cannot be reached. |

## Left out

- `UserStore.Store.FindByEmail`: does not say which user is returned when several share an e-mail. The store's default sort order is not modelled. Because of this, `Authenticate.AuthenticateRequest` promises only "a stored user with that e-mail".
- `OidcUser.ExpiryBoundary`: is about line 127's comparison only. The verification library's own `exp`/`nbf` check runs earlier, inside `Provider.verifies`, which does not see the clock. In the program, that check already rejects a token at second `exp`, so `isTokenExpired` answers true there.
- `TokenCrypto.DecryptToken`: does not show that a wrong secret or a forged tag fails. The model has no authenticity law for the cipher, only `Inverts`. It states only that any failure gives `null`.
- The cipher internals (AES-256-GCM, SHA-256, `randomBytes`) are foreign calls. UTF-8 encoding and decoding of the plaintext are folded into `seal`/`open`.
- The `jose` calls (`decodeJwt`, `jwtVerify`, `createRemoteJWKSet`) and the discovery `fetch` are foreign code and network. Some of their failure cases are not modelled:
  - `new URL` throwing on an invalid JWKS URL, which leaves the cache empty;
  - a discovery document without `jwks_uri`.
- The refresh POST itself (URL, credentials, form body) is network I/O. Only its reply is an input.
- The Payload API (`depth`, `draft`, `limit`, validation, hooks, and the `Where` query language) is the persistence layer. Queries are plain datatype values, read by `Access.Selects` only to state `MemberOrOwnerIsUnion`. An `equals` filter on `undefined` is modelled as equality of optional values.
- The NextAuth request is reduced to `req.auth.user` and the `Authorization` header.
- Unicode semantics are not modelled: `\s`, `toLowerCase` and `trim` work on ASCII, and `length` counts characters, not UTF-16 code units.
- JSON numbers `exp`, `expires_at` and `expires_in` are integers. The `typeof`-unchecked casts (`payload.sub as string`, `resp.json()` fields) are typed as their declared types.
- Console logging is left out. So is the dead local `type` in `authenticateRequest`, which is assigned and never read.
- Concurrency is left out: two refreshes racing, last writer wins. No locking exists in the code.
- The input array of `upsertAccount` is never changed. This holds by construction, because sequences are values.
- `jwt.ts` (a sign/verify wrapper), `password.ts` (bcrypt) and the UI files are not part of this model.

## Findings

| source | as written | input that shows it | evidently intended | confidence | as-written member | corrected member |
|---|---|---|---|---|---|---|
| packages/auth/src/payload-access/access.ts:64 | `user?.id === (data as User)?.id` is `undefined === undefined`, which is true when there is no user and the data has no id | no user, update data `{}` | a request without a user is never allowed to edit a profile | medium; not executed | Access.EditOwnProfileAnonymousAllowed | Access.EditOwnProfileChecked |
