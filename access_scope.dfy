/** Role-based rewriting of the filter that `findAndCountAll` hands to the
    loan repository, and the repository's query as exact matching. */
module AccessScope {
  import opened LoanModel

  type Role = string

  const MemberRole: Role := "member"
  const LibrarianRole: Role := "librarian"

  /** The current user: an identity and the roles it holds. */
  datatype User = User(id: Id, roles: seq<Role>)

  /** A query filter: field name to the value asked for. */
  type Filter = map<string, string>

  /** The caller holds the member role and not the librarian role. */
  predicate IsMemberOnly(user: User) {
    MemberRole in user.roles && LibrarianRole !in user.roles
  }

  /** The filter after `findAndCountAll` has rewritten it: for a member-only
      caller, the supplied filter (or an empty one when none is supplied) with
      `member` set to the caller's id; for anyone else the filter as given. */
  function ScopedFilter(user: User, filter: Option<Filter>): Option<Filter> {
    if IsMemberOnly(user) then
      var given := if filter.Some? then filter.value else map[];
      Some(given["member" := user.id])
    else
      filter
  }

  /** The repository's reading of a filter: each of the fields it knows must
      equal the value asked for; other keys do not constrain the result. */
  predicate Matches(l: Loan, filter: Option<Filter>) {
    match filter
    case None => true
    case Some(f) =>
      && ("member" in f ==> l.member == f["member"])
      && ("book" in f ==> l.book == f["book"])
      && ("importHash" in f ==> l.importHash == Some(f["importHash"]))
  }

  /** The stored loans a filter selects. */
  function Query(loans: map<nat, Loan>, filter: Option<Filter>): map<nat, Loan>
  {
    map id | id in loans && Matches(loans[id], filter) :: loans[id]
  }

  /** A member-only caller's filter carries the caller's id under `member`,
      whatever `member` it was given, and keeps every other field it was given. */
  lemma ScopedFilterForMember(user: User, filter: Option<Filter>)
    requires IsMemberOnly(user)
    ensures ScopedFilter(user, filter).Some?
    ensures var f := ScopedFilter(user, filter).value;
      && "member" in f && f["member"] == user.id
      && (forall key :: key in f && key != "member" ==>
            filter.Some? && key in filter.value && f[key] == filter.value[key])
      && (filter.Some? ==> forall key :: key in filter.value ==> key in f)
  {
  }

  /** Anyone who is not a member-only caller gets the filter unchanged. */
  lemma ScopedFilterPassThrough(user: User, filter: Option<Filter>)
    requires !IsMemberOnly(user)
    ensures ScopedFilter(user, filter) == filter
  {
  }

  /** A member-only caller only ever sees its own loans, whatever filter it
      supplies; for other callers the query is the one they asked for. */
  lemma ScopeRestriction(user: User, filter: Option<Filter>, loans: map<nat, Loan>)
    ensures IsMemberOnly(user) ==>
      forall id :: id in Query(loans, ScopedFilter(user, filter)) ==> loans[id].member == user.id
    ensures !IsMemberOnly(user) ==> Query(loans, ScopedFilter(user, filter)) == Query(loans, filter)
  {
  }
}
