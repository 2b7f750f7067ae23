/** Access-control predicates for the CMS collections: from the request's
    (optional) user to a yes/no answer or to a query that filters documents. */
module Access {
  import opened Wrappers
  import opened Types

  /** The two query shapes the predicates build: `{ owner: { equals: id } }`,
      `{ 'members.user': { equals: id } }`, and their `or`. */
  datatype Where = OwnerEquals(id: UserId) | MembersUserEquals(id: UserId) | Or(clauses: seq<Where>)

  /** `boolean | Where`. */
  datatype Grant = Granted(allowed: bool) | Filter(query: Where)

  /** A JavaScript value as strict equality sees it: `undefined`, `null`,
      or an id. `===` keeps `undefined` and `null` apart. */
  datatype IdValue = Undefined | Null | IdIs(id: UserId)

  /** The incoming document data of an update, as `editOwnProfile` reads it:
      its `id` may be missing (`Undefined`), `null`, or an id. */
  datatype DocData = DocData(id: IdValue)

  function IsAuthenticated(user: Option<User>): bool {
    user.Some?
  }

  function IsUser(user: Option<User>): bool {
    if user.None? then false
    else if user.value.role == UserRole then true
    else if user.value.role == AdminRole then true
    else false
  }

  function IsDigitalColleague(user: Option<User>): bool {
    if user.None? then false
    else if user.value.role == DigitalColleagueRole then true
    else false
  }

  function IsAdmin(user: Option<User>): bool {
    user.Some? && user.value.role == AdminRole
  }

  /** `user?.id`: `undefined` without a user. */
  function IdOf(user: Option<User>): IdValue {
    if user.Some? then IdIs(user.value.id) else Undefined
  }

  /** `data?.id`: `undefined` without data. */
  function DataId(data: Option<DocData>): IdValue {
    if data.Some? then data.value.id else Undefined
  }

  /** `editOwnProfile` as written: admins may edit anything, everyone else
      when `user?.id === data?.id` (strict equality). */
  function EditOwnProfile(user: Option<User>, data: Option<DocData>): bool {
    if IsAdmin(user) then true else IdOf(user) == DataId(data)
  }

  /** `editOwnProfile` as evidently intended: a request without a user is
      never allowed. */
  function EditOwnProfileChecked(user: Option<User>, data: Option<DocData>): (r: bool)
    ensures r ==> user.Some?
    ensures user.Some? ==> r == EditOwnProfile(user, data)
  {
    if user.None? then false
    else if IsAdmin(user) then true
    else IdIs(user.value.id) == DataId(data)
  }

  function IsOwned(user: Option<User>): Grant {
    if user.None? then Granted(false)
    else if IsAdmin(user) then Granted(true)
    else Filter(OwnerEquals(user.value.id))
  }

  function IsMember(user: Option<User>): Grant {
    if user.None? then Granted(false)
    else if IsAdmin(user) then Granted(true)
    else Filter(MembersUserEquals(user.value.id))
  }

  function IsMemberOrOwner(user: Option<User>): Grant {
    if user.None? then Granted(false)
    else if IsAdmin(user) then Granted(true)
    else Filter(Or([MembersUserEquals(user.value.id), OwnerEquals(user.value.id)]))
  }

  /** A document as the two query fields see it. */
  datatype Doc = Doc(owner: Option<UserId>, members: seq<UserId>)

  /** The plain reading of the queries: `equals` on `owner`, membership of
      the id among `members[].user`, and disjunction for `or`. */
  predicate Selects(w: Where, d: Doc)
    decreases w
  {
    match w
    case OwnerEquals(id) => d.owner == Some(id)
    case MembersUserEquals(id) => id in d.members
    case Or(clauses) => exists i | 0 <= i < |clauses| :: Selects(clauses[i], d)
  }

  /** Whether a grant lets the request reach a document. */
  predicate Permits(g: Grant, d: Doc) {
    match g
    case Granted(b) => b
    case Filter(w) => Selects(w, d)
  }

  // ---------------------------------------------------------------------
  // Properties

  /** The role predicates on a present user: exactly one of `isUser` and
      `isDigitalColleague` holds, `isAdmin` implies `isUser`, and each
      is true for exactly its roles; with no user all of them are false. */
  lemma RolePredicates(user: Option<User>)
    ensures IsAuthenticated(user) <==> user.Some?
    ensures user.None? ==> !IsUser(user) && !IsDigitalColleague(user) && !IsAdmin(user)
    ensures user.Some? ==> (IsUser(user) <==> user.value.role in {UserRole, AdminRole})
    ensures user.Some? ==> (IsDigitalColleague(user) <==> user.value.role == DigitalColleagueRole)
    ensures user.Some? ==> (IsAdmin(user) <==> user.value.role == AdminRole)
    ensures user.Some? ==> (IsUser(user) != IsDigitalColleague(user))
    ensures IsAdmin(user) ==> IsUser(user)
  {
  }

  /** With no user, the as-written `editOwnProfile` allows exactly the
      updates whose data has no `id` at all (or no data); an `id` of `null`
      or of any user is refused. */
  lemma EditOwnProfileAnonymous(data: Option<DocData>)
    ensures EditOwnProfile(None, data) <==> DataId(data) == Undefined
    ensures data == Some(DocData(Null)) ==> !EditOwnProfile(None, data)
  {
  }

  /** The concrete request that shows it: no user and update data `{}` is
      allowed. */
  lemma EditOwnProfileAnonymousAllowed()
    ensures EditOwnProfile(None, Some(DocData(Undefined)))
    ensures !EditOwnProfileChecked(None, Some(DocData(Undefined)))
  {
  }

  /** The corrected rule: admins may edit anything, other users exactly the
      record whose id is theirs, anonymous requests nothing. */
  lemma EditOwnProfileCheckedRule(user: Option<User>, data: Option<DocData>)
    ensures user.None? ==> !EditOwnProfileChecked(user, data)
    ensures IsAdmin(user) ==> EditOwnProfileChecked(user, data)
    ensures user.Some? && !IsAdmin(user) ==>
      (EditOwnProfileChecked(user, data) <==> DataId(data) == IdIs(user.value.id))
  {
  }

  /** The three scoped predicates share one pattern: no user is refused, an
      admin is granted everything, and every other user gets a query on
      their own id. */
  lemma ScopedGrants(user: Option<User>)
    ensures user.None? ==> IsOwned(user) == IsMember(user) == IsMemberOrOwner(user) == Granted(false)
    ensures IsAdmin(user) ==> IsOwned(user) == IsMember(user) == IsMemberOrOwner(user) == Granted(true)
    ensures user.Some? && !IsAdmin(user) ==>
      && IsOwned(user).Filter? && IsMember(user).Filter? && IsMemberOrOwner(user).Filter?
      && IsOwned(user).query == OwnerEquals(user.value.id)
      && IsMember(user).query == MembersUserEquals(user.value.id)
      && IsMemberOrOwner(user).query == Or([MembersUserEquals(user.value.id), OwnerEquals(user.value.id)])
  {
  }

  /** `isMemberOrOwner` lets a request reach exactly the documents that
      `isMember` or `isOwned` lets it reach. */
  lemma MemberOrOwnerIsUnion(user: Option<User>, d: Doc)
    ensures Permits(IsMemberOrOwner(user), d) <==> Permits(IsMember(user), d) || Permits(IsOwned(user), d)
  {
    if user.Some? && !IsAdmin(user) {
      var clauses := [MembersUserEquals(user.value.id), OwnerEquals(user.value.id)];
      assert Selects(clauses[0], d) ==> Selects(Or(clauses), d);
      assert Selects(clauses[1], d) ==> Selects(Or(clauses), d);
    }
  }
}
