/** The shapes of the package's records: a user of the `users` collection and
    the linked provider accounts it owns. */
module Types {
  import opened Wrappers

  /** Identifier the user store assigns to a user (a counter in this model). */
  type UserId = nat

  /** `role: 'user' | 'admin' | 'digital-colleague'`. */
  datatype Role = UserRole | AdminRole | DigitalColleagueRole

  /** `type: 'oidc' | 'oauth' | 'email' | 'webauthn'`. */
  datatype AccountType = Oidc | OAuth | Email | WebAuthn

  /** One row of `users.accounts[]`. Optional fields are `None` when absent
      or `null`; `id` is the row id the store keeps for each array row. */
  datatype Account = Account(
    provider: string,
    providerAccountId: string,
    accountType: Option<AccountType>,
    accessToken: Option<string>,
    refreshToken: Option<string>,
    expiresAt: Option<int>,
    idToken: Option<string>,
    tokenType: Option<string>,
    scope: Option<string>,
    sessionState: Option<string>,
    id: Option<string>)

  /** A row of the `users` collection, restricted to the fields the package
      reads or writes. */
  datatype User = User(
    id: UserId,
    email: Option<string>,
    name: Option<string>,
    role: Role,
    enabled: Option<bool>,
    accounts: seq<Account>)
}
