// The admin user list on the server: formatting stored users, the filter
// predicate with its precedence, validating and applying the sort, the
// per-user storage total, and the status mapping of user registration.
// Database reads arrive as values; a date is an integer timestamp.
module UserListController {
  import opened Wrappers
  import opened Text
  import opened Seqs
  import StableSort
  import DocStorage

  /** The authentication methods; each is one distinct bit of `authFlags`,
      so a flag word is the set of its bits. */
  datatype AuthType = Local | Ldap | Saml | Oidc

  /** The bits the server advertises: LOCAL always, the external ones when
      the EXTERNAL_AUTH setting mentions them. */
  function ServerAuthTypes(externalAuth: string): (r: set<AuthType>)
    ensures Local in r
    ensures Ldap in r <==> Contains(externalAuth, "ldap")
    ensures Saml in r <==> Contains(externalAuth, "saml")
    ensures Oidc in r <==> Contains(externalAuth, "oidc")
  {
    {Local}
    + (if Contains(externalAuth, "ldap") then {Ldap} else {})
    + (if Contains(externalAuth, "saml") then {Saml} else {})
    + (if Contains(externalAuth, "oidc") then {Oidc} else {})
  }

  /** A user document as projected by the listing queries. Deleted users
      come from the deleted-users collection and carry a non-empty
      `deletedId`; "" stands for a missing (falsy) field. */
  datatype StoredUser = StoredUser(
    id: string,
    email: string,
    firstName: string,
    lastName: string,
    isAdmin: bool,
    loginCount: Option<int>,     // None: the field is missing
    signUpDate: Option<int>,
    lastActive: Option<int>,
    hasPassword: bool,           // `hashedPassword` is truthy
    samlIdentifiers: Option<nat>,        // length of the array, None when missing
    thirdPartyIdentifiers: Option<nat>,  // length of the array, None when missing
    suspended: bool,
    deletedId: string,
    deletedAt: Option<int>)

  /** A row of the listing. */
  datatype UserInfo = UserInfo(
    id: string,
    email: string,
    firstName: string,
    lastName: string,
    isAdmin: bool,
    loginCount: Option<int>,
    signUpDate: Option<int>,
    lastActive: Option<int>,
    authFlags: set<AuthType>,
    suspended: bool,
    inactive: bool,
    deletedId: Option<string>,
    deletedAt: Option<int>,
    deleted: bool,
    storageUsed: nat)

  /** Both identifier arrays are present; reading the length of a missing
      one throws a TypeError. */
  predicate HasIdentifierLists(u: StoredUser)
  {
    u.samlIdentifiers.Some? && u.thirdPartyIdentifiers.Some?
  }

  /** The auth bits of a user, set one after another; LDAP is the fallback
      for an account with no other bit that has logged in (or has no login
      count at all). */
  function AuthFlagsOf(u: StoredUser): (flags: set<AuthType>)
    requires HasIdentifierLists(u)
    ensures Local in flags <==> u.hasPassword
    ensures Saml in flags <==> u.samlIdentifiers.value > 0
    ensures Oidc in flags <==> u.thirdPartyIdentifiers.value > 0
    ensures Ldap in flags <==> flags == {Ldap}
    ensures Ldap in flags <==> (!u.hasPassword && u.samlIdentifiers.value == 0
                                && u.thirdPartyIdentifiers.value == 0 && u.loginCount != Some(0))
  {
    var f1 := if u.hasPassword then {Local} else {};
    var f2 := if u.samlIdentifiers.value > 0 then f1 + {Saml} else f1;
    var f3 := if u.thirdPartyIdentifiers.value > 0 then f2 + {Oidc} else f2;
    if f3 == {} && u.loginCount != Some(0) then f3 + {Ldap} else f3
  }

  /** One listing row for a stored user; `maxDate` is the one-year-ago
      cutoff. The storage figure is filled in afterwards. `None` is the
      TypeError of a missing identifier array. */
  function FormatUserInfo(u: StoredUser, maxDate: int): (r: Option<UserInfo>)
    ensures r.None? <==> !HasIdentifierLists(u)
    ensures r.Some? ==> r.value.authFlags == AuthFlagsOf(u)
    ensures r.Some? ==> (r.value.inactive <==> u.lastActive.None? || u.lastActive.value < maxDate)
    ensures r.Some? ==> (r.value.deleted <==> u.deletedId != "")
    ensures r.Some? ==> (r.value.deletedId.Some? <==> r.value.deleted)
    ensures r.Some? ==> r.value.suspended == u.suspended
    ensures r.Some? ==> r.value.id == u.id && r.value.email == u.email && r.value.storageUsed == 0
    ensures r.Some? ==> r.value.firstName == u.firstName && r.value.lastName == u.lastName
                        && r.value.isAdmin == u.isAdmin && r.value.loginCount == u.loginCount
                        && r.value.signUpDate == u.signUpDate && r.value.lastActive == u.lastActive
                        && r.value.deletedAt == u.deletedAt
  {
    if !HasIdentifierLists(u) then None
    else Some(UserInfo(
      u.id, u.email, u.firstName, u.lastName, u.isAdmin, u.loginCount,
      u.signUpDate, u.lastActive, AuthFlagsOf(u), u.suspended,
      u.lastActive.None? || u.lastActive.value < maxDate,
      if u.deletedId != "" then Some(u.deletedId) else None,
      u.deletedAt,
      u.deletedId != "",
      0))
  }

  /** LDAP never appears next to another auth bit. */
  lemma LdapExclusive(u: StoredUser, maxDate: int)
    requires HasIdentifierLists(u)
    ensures Ldap in FormatUserInfo(u, maxDate).value.authFlags
            ==> FormatUserInfo(u, maxDate).value.authFlags == {Ldap}
  {
  }

  /** Storage of one user: nothing for a user without an id, otherwise
      the document total of the projects query. */
  method GetUserStorageUsed(u: StoredUser, q: DocStorage.ProjectsQuery) returns (total: nat)
    ensures u.id == "" && u.deletedId == "" ==> total == 0
    ensures u.id != "" || u.deletedId != "" ==> total == DocStorage.StorageOf(q)
  {
    if u.id == "" && u.deletedId == "" {
      return 0;
    }
    total := DocStorage.SumStorage(q);
  }

  /** The storage figure a row shows: deleted users get 0. */
  function StorageShown(u: StoredUser, q: DocStorage.ProjectsQuery): nat
  {
    if u.deletedId != "" then 0
    else if u.id == "" then 0
    else DocStorage.StorageOf(q)
  }

  /** The rows `_formatUsers` produces: one per stored user, in order,
      each with its storage figure, where `queries[i]` is what the
      database returns for the projects of `users[i]`; `None` when a
      user's identifier arrays are missing. */
  function FormattedRows(users: seq<StoredUser>, queries: seq<DocStorage.ProjectsQuery>, yearAgo: int)
    : (r: Option<seq<UserInfo>>)
    requires |queries| == |users|
    ensures r.None? <==> exists i :: 0 <= i < |users| && !HasIdentifierLists(users[i])
    ensures r.Some? ==> |r.value| == |users|
  {
    if forall i :: 0 <= i < |users| ==> HasIdentifierLists(users[i]) then
      Some(seq(|users|, i requires 0 <= i < |users| =>
        FormatUserInfo(users[i], yearAgo).value.(storageUsed := StorageShown(users[i], queries[i]))))
    else None
  }

  /** `_formatUsers`: the loop over the stored users; it stops at the
      first user whose identifier arrays are missing. */
  method FormatUsers(users: seq<StoredUser>, queries: seq<DocStorage.ProjectsQuery>, yearAgo: int)
    returns (rows: Option<seq<UserInfo>>)
    requires |queries| == |users|
    ensures rows == FormattedRows(users, queries, yearAgo)
  {
    var done: seq<UserInfo> := [];
    var i := 0;
    while i < |users|
      invariant 0 <= i <= |users|
      invariant |done| == i
      invariant forall k :: 0 <= k < i ==> HasIdentifierLists(users[k])
      invariant forall k :: 0 <= k < i ==>
        done[k] == FormatUserInfo(users[k], yearAgo).value.(storageUsed := StorageShown(users[k], queries[k]))
    {
      var formatted := FormatUserInfo(users[i], yearAgo);
      if formatted.None? {
        return None;
      }
      var row := formatted.value;
      if !row.deleted {
        var used := GetUserStorageUsed(users[i], queries[i]);
        row := row.(storageUsed := used);
      } else {
        row := row.(storageUsed := 0);
      }
      done := done + [row];
      i := i + 1;
    }
    var expected := seq(|users|, k requires 0 <= k < |users| =>
      FormatUserInfo(users[k], yearAgo).value.(storageUsed := StorageShown(users[k], queries[k])));
    assert done == expected;
    assert FormattedRows(users, queries, yearAgo) == Some(expected);
    rows := Some(done);
  }

  /** A deleted user's row never shows storage. */
  lemma DeletedUsersUseNoStorage(u: StoredUser, q: DocStorage.ProjectsQuery)
    requires u.deletedId != ""
    ensures StorageShown(u, q) == 0
  {
  }

  // ---------------------------------------------------------------------
  // Filtering
  // ---------------------------------------------------------------------

  /** The filter flags of a listing request; `search` is "" when absent. */
  datatype Filters = Filters(
    all: bool, admin: bool, inactive: bool, suspended: bool, deleted: bool,
    local: bool, saml: bool, oidc: bool, ldap: bool, search: string)

  const NoFilters := Filters(false, false, false, false, false, false, false, false, false, "")

  /** Case-insensitive search over email, first name and last name. */
  predicate SearchHits(u: UserInfo, search: string)
  {
    var needle := ToLower(search);
    Contains(ToLower(u.email), needle) || Contains(ToLower(u.firstName), needle)
    || Contains(ToLower(u.lastName), needle)
  }

  /** `_matchesFilters`, checked in the source's order. */
  predicate MatchesFilters(u: UserInfo, f: Filters)
  {
    if |f.search| > 0 && !SearchHits(u, f.search) then false
    else if u.deleted then f.deleted
    else if f.all then true
    else if f.admin then u.isAdmin
    else if f.inactive && !u.inactive then false
    else if f.suspended && !u.suspended then false
    else if f.local && Local !in u.authFlags then false
    else if f.saml && Saml !in u.authFlags then false
    else if f.oidc && Oidc !in u.authFlags then false
    else if f.ldap && Ldap !in u.authFlags then false
    else true
  }

  /** The same filter written as one formula: the search gate, then the
      deleted/all/admin precedence, then the conjunction of the rest. */
  predicate Admitted(u: UserInfo, f: Filters)
  {
    (|f.search| == 0 || SearchHits(u, f.search))
    && (u.deleted ==> f.deleted)
    && (!u.deleted && !f.all && f.admin ==> u.isAdmin)
    && (!u.deleted && !f.all && !f.admin ==>
          (f.inactive ==> u.inactive) && (f.suspended ==> u.suspended)
          && (f.local ==> Local in u.authFlags) && (f.saml ==> Saml in u.authFlags)
          && (f.oidc ==> Oidc in u.authFlags) && (f.ldap ==> Ldap in u.authFlags))
  }

  lemma MatchesFiltersIffAdmitted(u: UserInfo, f: Filters)
    ensures MatchesFilters(u, f) <==> Admitted(u, f)
  {
  }

  /** A non-empty search that misses every name field rejects the user
      whatever the other flags say. */
  lemma SearchRejectsFirst(u: UserInfo, f: Filters)
    requires |f.search| > 0 && !SearchHits(u, f.search)
    ensures !MatchesFilters(u, f)
  {
  }

  /** A deleted user passes (the search aside) exactly when the deleted
      filter is on. */
  lemma DeletedOnlyWithDeletedFilter(u: UserInfo, f: Filters)
    requires u.deleted && (|f.search| == 0 || SearchHits(u, f.search))
    ensures MatchesFilters(u, f) <==> f.deleted
  {
  }

  /** The admin filter ignores every flag after it. */
  lemma AdminIgnoresRest(u: UserInfo, f: Filters, g: Filters)
    requires !u.deleted && f.admin && !f.all && g == f.(inactive := !f.inactive, suspended := !f.suspended,
               local := !f.local, saml := !f.saml, oidc := !f.oidc, ldap := !f.ldap)
    ensures MatchesFilters(u, f) == MatchesFilters(u, g)
  {
  }

  predicate HasActiveFilter(f: Filters)
  {
    f.deleted || f.all || f.admin || f.inactive || f.suspended || f.local
    || f.saml || f.oidc || f.ldap || |f.search| > 0
  }

  /** `_applyFilters`: the input itself when no filter is active,
      otherwise the order-preserving selection of the matching users. */
  function ApplyFilters(users: seq<UserInfo>, f: Filters): (r: seq<UserInfo>)
    ensures !HasActiveFilter(f) ==> r == users
    ensures Subsequence(r, users)
    ensures HasActiveFilter(f) ==> forall i :: 0 <= i < |r| ==> MatchesFilters(r[i], f)
    ensures forall i :: 0 <= i < |users| && MatchesFilters(users[i], f) ==> users[i] in r
  {
    if !HasActiveFilter(f) then
      SubsequenceRefl(users);
      users
    else
      FilterIsSubsequence(users, u => MatchesFilters(u, f));
      Filter(users, u => MatchesFilters(u, f))
  }

  /** With no active filter, deleted users are listed too. */
  lemma NoFilterListsDeleted(users: seq<UserInfo>, i: nat)
    requires i < |users| && users[i].deleted
    ensures users[i] in ApplyFilters(users, NoFilters)
  {
  }

  // ---------------------------------------------------------------------
  // Sorting
  // ---------------------------------------------------------------------

  /** A sort request; "" stands for a missing (falsy) field. */
  datatype SortRequest = SortRequest(key: string, order: string)

  const DefaultSort := SortRequest("signUpDate", "desc")

  datatype SortField = LastActive | SignUpDate | Email | Name

  predicate ValidSort(s: SortRequest)
  {
    (s.key == "" || s.key in ["lastActive", "signUpDate", "email", "name"])
    && (s.order == "" || s.order in ["asc", "desc"])
  }

  function FieldOf(key: string): SortField
  {
    if key == "lastActive" then LastActive
    else if key == "email" then Email
    else if key == "name" then Name
    else SignUpDate
  }

  /** lodash's ascending comparison of two dates, where a missing date
      sorts after every present one. */
  function CompareDates(a: Option<int>, b: Option<int>): int
  {
    match (a, b)
    case (None, None) => 0
    case (None, Some(_)) => 1
    case (Some(_), None) => -1
    case (Some(x), Some(y)) => if x < y then -1 else if x > y then 1 else 0
  }

  /** Ascending comparison on one field. Rows have no `name` property, so
      every row ties on "name". */
  function CompareAscending(field: SortField, a: UserInfo, b: UserInfo): int
  {
    match field
    case LastActive => CompareDates(a.lastActive, b.lastActive)
    case SignUpDate => CompareDates(a.signUpDate, b.signUpDate)
    case Email => CompareStrings(a.email, b.email)
    case Name => 0
  }

  /** `orderBy` with one key: "desc" negates the comparison, it does not
      reverse the result. */
  function OrderComparator(field: SortField, desc: bool): (UserInfo, UserInfo) -> int
  {
    (a: UserInfo, b: UserInfo) =>
      if desc then -CompareAscending(field, a, b) else CompareAscending(field, a, b)
  }

  lemma CompareAscendingAntisymmetric(field: SortField, a: UserInfo, b: UserInfo)
    ensures CompareAscending(field, a, b) == -CompareAscending(field, b, a)
  {
    if field == Email {
      CompareAntisymmetric(a.email, b.email);
    }
  }

  lemma CompareAscendingTransitive(field: SortField, a: UserInfo, b: UserInfo, c: UserInfo)
    requires CompareAscending(field, a, b) <= 0 && CompareAscending(field, b, c) <= 0
    ensures CompareAscending(field, a, c) <= 0
  {
    if field == Email {
      CompareTransitive(a.email, b.email, c.email);
    }
  }

  /** Every order comparator is consistent, so the stable sort is well
      defined. */
  lemma OrderComparatorIsTotalPreorder(field: SortField, desc: bool)
    ensures StableSort.IsTotalPreorder(OrderComparator(field, desc))
  {
    var cmp := OrderComparator(field, desc);
    forall a, b
      ensures StableSort.Le(cmp, a, b) || StableSort.Le(cmp, b, a)
    {
      CompareAscendingAntisymmetric(field, a, b);
    }
    forall a, b, c | StableSort.Le(cmp, a, b) && StableSort.Le(cmp, b, c)
      ensures StableSort.Le(cmp, a, c)
    {
      if desc {
        CompareAscendingAntisymmetric(field, a, b);
        CompareAscendingAntisymmetric(field, b, c);
        CompareAscendingAntisymmetric(field, a, c);
        CompareAscendingTransitive(field, c, b, a);
      } else {
        CompareAscendingTransitive(field, a, b, c);
      }
    }
  }

  /** `_sortAndPaginate`: rejects unknown criteria; otherwise a stable sort
      of the whole list (no page is cut). */
  function SortAndPaginate(users: seq<UserInfo>, sort: SortRequest): (r: Result<seq<UserInfo>>)
    ensures r.Failure? <==> !ValidSort(sort)
    ensures r.Success? ==> multiset(r.value) == multiset(users) && |r.value| == |users|
    ensures r.Success? ==> StableSort.Sorted(
              OrderComparator(FieldOf(if sort.key == "" then "signUpDate" else sort.key),
                              sort.order != "asc"), r.value)
  {
    if !ValidSort(sort) then Failure("Invalid sorting criteria")
    else
      var field := FieldOf(if sort.key == "" then "signUpDate" else sort.key);
      var cmp := OrderComparator(field, sort.order != "asc");
      OrderComparatorIsTotalPreorder(field, sort.order != "asc");
      StableSort.SortSorted(cmp, users);
      Success(StableSort.Sort(cmp, users))
  }

  /** Ties keep their listing order. */
  lemma SortAndPaginateStable(users: seq<UserInfo>, sort: SortRequest, k: UserInfo)
    requires ValidSort(sort)
    ensures var cmp := OrderComparator(FieldOf(if sort.key == "" then "signUpDate" else sort.key),
                                       sort.order != "asc");
            StableSort.TiedWith(cmp, SortAndPaginate(users, sort).value, k)
            == StableSort.TiedWith(cmp, users, k)
  {
    var field := FieldOf(if sort.key == "" then "signUpDate" else sort.key);
    OrderComparatorIsTotalPreorder(field, sort.order != "asc");
    StableSort.SortStable(OrderComparator(field, sort.order != "asc"), users, k);
  }

  /** Sorting by "name" keeps the listing order, since every row ties. */
  lemma SortByNameKeepsOrder(users: seq<UserInfo>, order: string)
    requires order == "" || order == "asc" || order == "desc"
    ensures SortAndPaginate(users, SortRequest("name", order)) == Success(users)
  {
    var cmp := OrderComparator(Name, order != "asc");
    OrderComparatorIsTotalPreorder(Name, order != "asc");
    StableSort.SortOfSorted(cmp, users);
  }

  /** The JSON page: `totalSize` is the length of the filtered list. */
  datatype UsersPage = UsersPage(totalSize: nat, users: seq<UserInfo>)

  /** `_getUsers`: active users then deleted users, formatted, filtered
      and sorted; missing filters and sort take their defaults. It fails
      when a row cannot be formatted or the sort is invalid; otherwise the
      page holds the sorted filtered rows and counts the filtered rows. */
  method GetUsers(active: seq<StoredUser>, deleted: seq<StoredUser>,
                  queries: seq<DocStorage.ProjectsQuery>, yearAgo: int,
                  filters: Option<Filters>, sort: Option<SortRequest>)
    returns (r: Result<UsersPage>)
    requires |queries| == |active| + |deleted|
    ensures r.Failure? <==> FormattedRows(active + deleted, queries, yearAgo).None?
                            || !ValidSort(sort.UnwrapOr(DefaultSort))
    ensures r.Success? ==>
              var filtered := ApplyFilters(FormattedRows(active + deleted, queries, yearAgo).value,
                                           filters.UnwrapOr(NoFilters));
              r.value.users == SortAndPaginate(filtered, sort.UnwrapOr(DefaultSort)).value
              && r.value.totalSize == |filtered| == |r.value.users|
    ensures r.Success? ==> forall i :: 0 <= i < |r.value.users| ==> r.value.users[i].deleted ==>
              (!HasActiveFilter(filters.UnwrapOr(NoFilters)) || filters.UnwrapOr(NoFilters).deleted)
  {
    var formatted := FormatUsers(active + deleted, queries, yearAgo);
    if formatted.None? {
      return Failure("Cannot read properties of undefined (reading 'length')");
    }
    var rows := formatted.value;
    var f := filters.UnwrapOr(NoFilters);
    var filtered := ApplyFilters(rows, f);
    var sorted := SortAndPaginate(filtered, sort.UnwrapOr(DefaultSort));
    match sorted {
      case Failure(e) => r := Failure(e);
      case Success(users) =>
        forall i | 0 <= i < |users| && users[i].deleted
          ensures !HasActiveFilter(f) || f.deleted
        {
          assert users[i] in multiset(filtered);
        }
        r := Success(UsersPage(|filtered|, users));
    }
  }

  // ---------------------------------------------------------------------
  // Registration
  // ---------------------------------------------------------------------

  /** What the registration handler gives back: the account, or the
      message of the error it threw. */
  datatype Registration =
    | Registered(id: string, email: string, firstName: string, lastName: string,
                 signUpDate: Option<int>, lastActive: Option<int>, suspended: bool)
    | RegistrationFailed(message: string)

  /** The new user as sent back to the admin page. */
  datatype NewUser = NewUser(id: string, email: string, firstName: string, lastName: string,
                             isAdmin: bool, signUpDate: Option<int>, lastActive: Option<int>,
                             suspended: bool, inactive: bool, deleted: bool,
                             authFlags: set<AuthType>)

  /** The update written to the new user's record. */
  datatype UserUpdate = UserUpdate(isAdmin: bool, email: string, reversedHostname: string,
                                   unsetPassword: bool)

  datatype RegisterResponse =
    | JsonError(status: int, error: string, message: string)
    | Created(user: NewUser, update: UserUpdate, sendsActivation: bool)
    | Thrown   // passed on to the error handler

  /** `email.split('@')[1]` reversed; `None` when there is no '@' (the
      handler throws on the missing piece). */
  function ReversedHostname(email: string): (r: Option<string>)
    ensures r.Some? <==> Contains(email, "@")
  {
    var parts := Split(email, "@");
    if |parts| < 2 then
      assert parts == [email];
      None
    else
      SplitFindsSeparator(email, "@");
      Some(Reverse(parts[1]))
  }

  lemma SplitFindsSeparator(s: string, sep: string)
    requires |sep| > 0 && |Split(s, sep)| >= 2
    ensures Contains(s, sep)
  {
  }

  /** For a plain `local@host` address, the reversed hostname is the host
      written backwards. */
  lemma ReversedHostnameOfAddress(local: string, host: string)
    requires !Contains(local, "@") && !Contains(host, "@")
    ensures ReversedHostname(local + "@" + host) == Some(Reverse(host))
  {
    var email := local + "@" + host;
    FirstAtAfterLocal(local, host);
    assert email[|local| + 1..] == host;
    SplitNoSeparator(host, "@");
    assert Split(email, "@") == [local] + Split(host, "@") by {
      assert email[..|local|] == local;
    }
  }

  /** The first '@' of `local@host` is the one after `local`. */
  lemma FirstAtAfterLocal(local: string, host: string)
    requires !Contains(local, "@")
    ensures IndexOf(local + "@" + host, "@") == Some(|local|)
  {
    var email := local + "@" + host;
    assert OccursAt(email, "@", |local|);
    forall j | 0 <= j < |local|
      ensures !OccursAt(email, "@", j)
    {
      if OccursAt(email, "@", j) {
        assert email[j] == '@' && local[j] == '@';
        assert OccursAt(local, "@", j);
      }
    }
  }

  /** `registerNewUser`: the request's email, flags and the outcome of
      each effect are inputs; `followUpFails` says whether sending the
      activation mail or writing the update threw. */
  method RegisterNewUser(email: Option<string>, isExternal: bool, isAdmin: bool,
                         registration: Registration, followUpFails: bool)
    returns (resp: RegisterResponse)
    ensures (email.None? || email.value == "") <==> resp == JsonError(422, "", "Email address is empty")
    ensures resp.JsonError? && resp.status == 409
            <==> email.Some? && email.value != "" && registration == RegistrationFailed("EmailAlreadyRegistered")
    ensures resp.JsonError? && resp.status == 400
            <==> email.Some? && email.value != "" && registration.RegistrationFailed?
                 && registration.message in {"InvalidEmailError", "InvalidPasswordError"}
    ensures resp.JsonError? && resp.status == 500
            <==> email.Some? && email.value != "" && registration.RegistrationFailed?
                 && registration.message !in {"EmailAlreadyRegistered", "InvalidEmailError", "InvalidPasswordError"}
    ensures resp.Created? <==> (email.Some? && email.value != "" && registration.Registered?
              && !followUpFails && ReversedHostname(registration.email).Some?)
    ensures resp.Created? ==> (registration.Registered? && email.Some?
              && resp.user.email == email.value && resp.user.inactive && !resp.user.deleted
              && resp.user.authFlags == (if isExternal then {} else {Local})
              && resp.user.isAdmin == isAdmin
              && resp.user.id == registration.id
              && resp.user.firstName == registration.firstName && resp.user.lastName == registration.lastName
              && resp.user.signUpDate == registration.signUpDate && resp.user.lastActive == registration.lastActive
              && resp.user.suspended == registration.suspended
              && resp.update.isAdmin == isAdmin && resp.update.email == email.value
              && resp.update.unsetPassword == isExternal && resp.sendsActivation == !isExternal
              && ReversedHostname(registration.email) == Some(resp.update.reversedHostname))
    ensures resp.JsonError? ==> resp.status in {422, 409, 400, 500}
    ensures resp.Thrown? <==> (email.Some? && email.value != "" && registration.Registered?
              && (followUpFails || ReversedHostname(registration.email).None?))
  {
    if email.None? || email.value == "" {
      return JsonError(422, "", "Email address is empty");
    }
    var address := email.value;
    match registration {
      case RegistrationFailed(message) =>
        if message == "EmailAlreadyRegistered" {
          resp := JsonError(409, "email_registered", "email_already_registered");
        } else if message == "InvalidEmailError" {
          resp := JsonError(400, "request_invalid", "email_address_is_invalid");
        } else if message == "InvalidPasswordError" {
          resp := JsonError(400, "request_invalid", "try_again");
        } else {
          resp := JsonError(500, "internal_server_error", "Internal Server Error");
        }
      case Registered(id, userEmail, first, last, signUpDate, lastActive, suspended) =>
        var hostname := ReversedHostname(userEmail);
        if hostname.None? {
          return Thrown;
        }
        var update := UserUpdate(isAdmin, address, hostname.value, false);
        var sendsActivation := false;
        if isExternal {
          update := update.(unsetPassword := true);
        } else {
          sendsActivation := true;
        }
        if followUpFails {
          return Thrown;
        }
        var authFlags := if isExternal then {} else {Local};
        var user := NewUser(id, address, first, last, isAdmin, signUpDate, lastActive,
                            suspended, true, false, authFlags);
        resp := Created(user, update, sendsActivation);
    }
  }
}
