// The state behind the admin user list page: the loaded records, the
// filter, search and sort applied to them, the visible window and the set
// of selected ids. The state setters become methods of `UserList`; the
// effect that recomputes the visible window is the method `Refresh`.
module UserListContext {
  import opened Wrappers
  import opened Text
  import opened Seqs
  import opened UserApi
  import UserListController
  import SortUsers

  const MaxUserPerPage: nat := 10

  datatype UserFilter =
    All | Admin | Suspended | Inactive | LocalAuth | LdapAuth | SamlAuth | OidcAuth | DeletedUsers

  /** The `filters` table: a partial record to match or a predicate. */
  predicate FilterMatches(f: UserFilter, u: User)
    ensures FilterMatches(f, u) ==> (u.deleted <==> f == DeletedUsers)
  {
    match f
    case All => !u.deleted
    case Admin => u.isAdmin && !u.deleted
    case Suspended => u.suspended && !u.deleted
    case Inactive => u.inactive && !u.deleted
    case LocalAuth => UserListController.Local in u.authFlags && !u.deleted
    case LdapAuth => UserListController.Ldap in u.authFlags && !u.deleted
    case SamlAuth => UserListController.Saml in u.authFlags && !u.deleted
    case OidcAuth => UserListController.Oidc in u.authFlags && !u.deleted
    case DeletedUsers => u.deleted
  }

  /** Deleted users appear under the deleted filter and under no other;
      `all` is every user that is not deleted. */
  lemma DeletedOnlyUnderDeleted(f: UserFilter, u: User)
    ensures FilterMatches(DeletedUsers, u) <==> u.deleted
    ensures f != DeletedUsers && FilterMatches(f, u) ==> !u.deleted && FilterMatches(All, u)
    ensures FilterMatches(All, u) || FilterMatches(DeletedUsers, u)
  {
  }

  /** `filterKeys`: the filters offered for the configured auth types. */
  function FilterKeys(authTypes: set<UserListController.AuthType>): (r: seq<UserFilter>)
    ensures |r| >= 5 && r[..4] == [All, Admin, Suspended, Inactive] && r[|r| - 1] == DeletedUsers
    ensures LocalAuth in r <==> authTypes != {UserListController.Local}
    ensures LdapAuth in r <==> authTypes != {UserListController.Local} && UserListController.Ldap in authTypes
    ensures SamlAuth in r <==> authTypes != {UserListController.Local} && UserListController.Saml in authTypes
    ensures OidcAuth in r <==> authTypes != {UserListController.Local} && UserListController.Oidc in authTypes
    ensures forall i, j :: 0 <= i < j < |r| ==> r[i] != r[j]
  {
    var external := ExternalFilters(authTypes);
    KeysAround(external);
    [All, Admin, Suspended, Inactive] + external + [DeletedUsers]
  }

  /** The fixed filters around distinct auth filters: each filter once, and
      an auth filter present exactly when it is among them. */
  lemma KeysAround(external: seq<UserFilter>)
    requires forall i :: 0 <= i < |external| ==> IsAuthFilter(external[i])
    requires forall i, j :: 0 <= i < j < |external| ==> external[i] != external[j]
    ensures var r := [All, Admin, Suspended, Inactive] + external + [DeletedUsers];
            && (forall f :: IsAuthFilter(f) ==> (f in r <==> f in external))
            && (forall i, j :: 0 <= i < j < |r| ==> r[i] != r[j])
  {
    var fixed := [All, Admin, Suspended, Inactive];
    var r := fixed + external + [DeletedUsers];
    forall f | IsAuthFilter(f)
      ensures f in r <==> f in external
    {
      assert f !in fixed && f != DeletedUsers;
    }
    forall i, j | 0 <= i < j < |r|
      ensures r[i] != r[j]
    {
      if j < 4 {
      } else if j < |r| - 1 {
        assert r[j] == external[j - 4];
        if i >= 4 {
          assert r[i] == external[i - 4];
        }
      } else {
        assert r[j] == DeletedUsers;
        if i >= 4 {
          assert r[i] == external[i - 4];
        }
      }
    }
  }

  /** The auth-type filters of `filterKeys`, in their order. */
  function ExternalFilters(authTypes: set<UserListController.AuthType>): (e: seq<UserFilter>)
    ensures forall i :: 0 <= i < |e| ==> IsAuthFilter(e[i])
    ensures LocalAuth in e <==> authTypes != {UserListController.Local}
    ensures LdapAuth in e <==> authTypes != {UserListController.Local} && UserListController.Ldap in authTypes
    ensures SamlAuth in e <==> authTypes != {UserListController.Local} && UserListController.Saml in authTypes
    ensures OidcAuth in e <==> authTypes != {UserListController.Local} && UserListController.Oidc in authTypes
    ensures forall i, j :: 0 <= i < j < |e| ==> e[i] != e[j]
  {
    if authTypes == {UserListController.Local} then []
    else
      var oidc := if UserListController.Oidc in authTypes then [OidcAuth] else [];
      var saml := (if UserListController.Saml in authTypes then [SamlAuth] else []) + oidc;
      var ldap := (if UserListController.Ldap in authTypes then [LdapAuth] else []) + saml;
      [LocalAuth] + ldap
  }

  predicate IsAuthFilter(f: UserFilter)
  {
    f.LocalAuth? || f.LdapAuth? || f.SamlAuth? || f.OidcAuth?
  }

  /** A record the lower-cased search text occurs in. */
  predicate SearchHit(u: User, lowered: string)
  {
    Contains(ToLower(u.email), lowered) || Contains(ToLower(u.firstName), lowered)
    || Contains(ToLower(u.lastName), lowered)
  }

  /** The records the lower-cased search text occurs in, in their order. */
  function Hits(users: seq<User>, lowered: string): (r: seq<User>)
    ensures forall u :: u in r <==> u in users && SearchHit(u, lowered)
    ensures Subsequence(r, users)
  {
    if users == [] then []
    else
      var rest := Hits(users[1..], lowered);
      assert users == [users[0]] + users[1..];
      if SearchHit(users[0], lowered) then
        assert ([users[0]] + rest)[1..] == rest;
        [users[0]] + rest
      else
        SubsequenceSkip(rest, users);
        rest
  }

  /** The search step of the view effect. */
  function Search(users: seq<User>, text: string): (r: seq<User>)
    ensures text == [] ==> r == users
    ensures text != [] ==> forall u :: u in r <==> u in users && SearchHit(u, ToLower(text))
    ensures Subsequence(r, users)
  {
    if |text| > 0 then
      Hits(users, ToLower(text))
    else
      SubsequenceRefl(users);
      users
  }

  lemma LowerCharIdempotent(c: char)
    ensures LowerChar(LowerChar(c)) == LowerChar(c)
  {
  }

  /** The search does not depend on the case of the search text. */
  lemma SearchIgnoresCase(users: seq<User>, text: string)
    ensures Search(users, ToLower(text)) == Search(users, text)
  {
    var once := ToLower(text);
    assert ToLower(once) == once by {
      forall i | 0 <= i < |once|
        ensures ToLower(once)[i] == once[i]
      {
        LowerCharIdempotent(text[i]);
      }
    }
  }

  /** The filter step of the view effect (lodash `filter`). */
  function ApplyFilter(users: seq<User>, f: UserFilter): (r: seq<User>)
    ensures forall u :: u in r <==> u in users && FilterMatches(f, u)
    ensures Subsequence(r, users)
  {
    if users == [] then []
    else
      var rest := ApplyFilter(users[1..], f);
      assert users == [users[0]] + users[1..];
      if FilterMatches(f, users[0]) then
        assert ([users[0]] + rest)[1..] == rest;
        [users[0]] + rest
      else
        SubsequenceSkip(rest, users);
        rest
  }

  /** The visible window over the filtered list. */
  datatype Paging = Paging(visible: seq<User>, hidden: nat, loadMore: nat)

  /** The paging step of the view effect. */
  function Page(filtered: seq<User>, maxVisible: nat): (r: Paging)
    ensures |r.visible| <= |filtered| && |r.visible| <= maxVisible
    ensures r.visible == filtered[..|r.visible|]
    ensures |r.visible| + r.hidden == |filtered|
    ensures r.loadMore == if r.hidden > MaxUserPerPage then MaxUserPerPage else r.hidden
    ensures |filtered| <= maxVisible ==> r.visible == filtered && r.hidden == 0 && r.loadMore == 0
    ensures |filtered| > maxVisible ==> |r.visible| == maxVisible
  {
    if |filtered| > maxVisible then
      var hidden := |filtered[maxVisible..]|;
      Paging(filtered[..maxVisible], hidden, if hidden > MaxUserPerPage then MaxUserPerPage else hidden)
    else
      Paging(filtered, 0, 0)
  }

  /** Loading more keeps the window's users and appends `loadMore` more. */
  lemma LoadMoreExtendsWindow(filtered: seq<User>, maxVisible: nat)
    ensures var p := Page(filtered, maxVisible);
            var q := Page(filtered, maxVisible + p.loadMore);
            |q.visible| == |p.visible| + p.loadMore && q.visible[..|p.visible|] == p.visible
  {
  }

  /** Showing all makes the whole filtered list visible. */
  lemma ShowAllShowsEverything(filtered: seq<User>, maxVisible: nat)
    ensures var p := Page(filtered, maxVisible);
            var q := Page(filtered, maxVisible + p.hidden);
            q.visible == filtered && q.hidden == 0 && q.loadMore == 0
  {
  }

  /** `users.map(u => u.id === user.id ? { ...user } : u)`. */
  function ReplaceById(users: seq<User>, user: User): (r: seq<User>)
    ensures |r| == |users|
    ensures forall i :: 0 <= i < |users| ==> r[i].id == users[i].id
    ensures forall i :: 0 <= i < |users| && users[i].id != user.id ==> r[i] == users[i]
    ensures forall i :: 0 <= i < |users| && users[i].id == user.id ==> r[i] == user
  {
    seq(|users|, i requires 0 <= i < |users| => if users[i].id == user.id then user else users[i])
  }

  /** Replacing twice with the same record changes nothing more. */
  lemma ReplaceByIdIdempotent(users: seq<User>, user: User)
    ensures ReplaceById(ReplaceById(users, user), user) == ReplaceById(users, user)
  {
  }

  /** `users.filter(u => u.id !== user.id)`. */
  function RemoveById(users: seq<User>, id: string): (r: seq<User>)
    ensures forall u :: u in r <==> u in users && u.id != id
    ensures Subsequence(r, users)
  {
    FilterIsSubsequence(users, (u: User) => u.id != id);
    Filter(users, (u: User) => u.id != id)
  }

  /** The ids of the given records. */
  function Ids(users: seq<User>): set<string>
  {
    set u | u in users :: u.id
  }

  /** The list the view effect pages: the searched and filtered loaded
      users, sorted again when `resort` carries a changed sort. */
  function Filtered(loaded: seq<User>, searchText: string, f: UserFilter,
                    resort: Option<UserListController.SortRequest>): seq<User>
  {
    Resorted(ApplyFilter(Search(loaded, searchText), f), resort)
  }

  /** Every listed user is loaded, matches the filter and, for a non-empty
      search, the search text. */
  lemma FilteredMembers(loaded: seq<User>, searchText: string, f: UserFilter,
                        resort: Option<UserListController.SortRequest>, u: User)
    requires u in Filtered(loaded, searchText, f, resort)
    ensures u in loaded && FilterMatches(f, u)
    ensures searchText != [] ==> SearchHit(u, ToLower(searchText))
  {
    var kept := ApplyFilter(Search(loaded, searchText), f);
    assert u in multiset(Resorted(kept, resort));
  }

  /** `users` sorted again by `resort`, if it carries a sort. */
  function Resorted(users: seq<User>, resort: Option<UserListController.SortRequest>): (r: seq<User>)
    ensures multiset(r) == multiset(users)
  {
    match resort
    case None => users
    case Some(sort) => SortUsers.SortUsers(users, sort)
  }

  /** The window the view effect shows. */
  function View(loaded: seq<User>, searchText: string, f: UserFilter,
                resort: Option<UserListController.SortRequest>, maxVisible: nat): Paging
  {
    Page(Filtered(loaded, searchText, f, resort), maxVisible)
  }

  /** The sort to apply again: the current one when it differs from the
      one last applied. */
  function ResortFor(prev: UserListController.SortRequest, sort: UserListController.SortRequest)
    : Option<UserListController.SortRequest>
  {
    if prev != sort then Some(sort) else None
  }

  class UserList {
    var loadedUsers: seq<User>
    var visibleUsers: seq<User>
    var maxVisibleUsers: nat
    var hiddenUsersCount: nat
    var loadMoreCount: nat
    var sort: UserListController.SortRequest
    var prevSort: UserListController.SortRequest
    var filter: UserFilter
    var searchText: string
    var selectedUserIds: set<string>
    const selfId: string

    /** The provider's initial state: the prefetched users, one page,
        newest sign-ups first, nothing selected. */
    constructor (prefetched: seq<User>, self: string, savedFilter: UserFilter)
      ensures loadedUsers == prefetched && visibleUsers == []
      ensures maxVisibleUsers == MaxUserPerPage && hiddenUsersCount == 0 && loadMoreCount == 0
      ensures sort == UserListController.SortRequest("signUpDate", "desc") && prevSort == sort
      ensures filter == savedFilter && searchText == [] && selectedUserIds == {}
      ensures selfId == self
    {
      loadedUsers := prefetched;
      visibleUsers := [];
      maxVisibleUsers := MaxUserPerPage;
      hiddenUsersCount := 0;
      loadMoreCount := 0;
      sort := UserListController.SortRequest("signUpDate", "desc");
      prevSort := UserListController.SortRequest("signUpDate", "desc");
      filter := savedFilter;
      searchText := [];
      selectedUserIds := {};
      selfId := self;
    }

    /** The view effect: search, filter, re-sort when the sort changed
        (the loaded list too), then page; afterwards the sort is the one
        last applied. */
    method Refresh()
      modifies this`loadedUsers, this`visibleUsers, this`hiddenUsersCount, this`loadMoreCount, this`prevSort
      ensures Paging(visibleUsers, hiddenUsersCount, loadMoreCount)
              == View(old(loadedUsers), searchText, filter, ResortFor(old(prevSort), sort), maxVisibleUsers)
      ensures loadedUsers == Resorted(old(loadedUsers), ResortFor(old(prevSort), sort))
      ensures prevSort == sort
    {
      var resort := ResortFor(prevSort, sort);
      var paging := View(loadedUsers, searchText, filter, resort, maxVisibleUsers);
      var loaded := Resorted(loadedUsers, resort);
      visibleUsers, hiddenUsersCount, loadMoreCount := paging.visible, paging.hidden, paging.loadMore;
      loadedUsers, prevSort := loaded, sort;
    }

    /** `showAllUsers`. */
    method ShowAllUsers()
      modifies this`loadMoreCount, this`hiddenUsersCount, this`maxVisibleUsers
      ensures loadMoreCount == 0 && hiddenUsersCount == 0
      ensures maxVisibleUsers == old(maxVisibleUsers) + old(hiddenUsersCount)
    {
      var hidden := hiddenUsersCount;
      loadMoreCount := 0;
      hiddenUsersCount := 0;
      maxVisibleUsers := maxVisibleUsers + hidden;
    }

    /** `loadMoreUsers`. */
    method LoadMoreUsers()
      modifies this`maxVisibleUsers
      ensures maxVisibleUsers == old(maxVisibleUsers) + loadMoreCount
    {
      maxVisibleUsers := maxVisibleUsers + loadMoreCount;
    }

    /** `toggleSelectedUser`: `selected` is absent, true or false. */
    method ToggleSelectedUser(id: string, selected: Option<bool>)
      modifies this`selectedUserIds
      ensures selected == Some(true) ==> selectedUserIds == old(selectedUserIds) + {id}
      ensures selected == Some(false) ==> selectedUserIds == old(selectedUserIds) - {id}
      ensures selected == None ==> (id in selectedUserIds <==> id !in old(selectedUserIds))
      ensures forall other :: other != id ==> (other in selectedUserIds <==> other in old(selectedUserIds))
    {
      var ids := selectedUserIds;
      if selected == Some(true) {
        ids := ids + {id};
      } else if selected == Some(false) {
        ids := ids - {id};
      } else if id in ids {
        ids := ids - {id};
      } else {
        ids := ids + {id};
      }
      selectedUserIds := ids;
    }

    /** `selectedUsers`: the visible records whose id is selected. */
    function SelectedUsers(): (r: seq<User>)
      reads this
      ensures forall u :: u in r <==> u in visibleUsers && u.id in selectedUserIds
      ensures Subsequence(r, visibleUsers)
    {
      var ids := selectedUserIds;
      FilterIsSubsequence(visibleUsers, (u: User) => u.id in ids);
      Filter(visibleUsers, (u: User) => u.id in ids)
    }

    /** `selfVisibleCount`: one when the current user is on the page. */
    function SelfVisibleCount(): (r: nat)
      reads this
      ensures r <= 1
      ensures r == 1 <==> selfId in Ids(visibleUsers)
    {
      if exists i :: 0 <= i < |visibleUsers| && visibleUsers[i].id == selfId then 1 else 0
    }

    /** The load effect's outcome when nothing was prefetched: the fetched
        users, or the list unchanged when the request failed. */
    method ReceiveUsers(fetched: Option<seq<User>>)
      modifies this`loadedUsers
      ensures loadedUsers == if fetched.Some? then fetched.value else old(loadedUsers)
    {
      if fetched.Some? {
        loadedUsers := fetched.value;
      }
    }

    /** `selectOrUnselectAllUsers`: every visible id but the current
        user's is set to `checked`; the current user ends unselected. */
    method SelectOrUnselectAll(checked: bool)
      modifies this`selectedUserIds
      ensures forall id :: id in selectedUserIds <==>
                if id in Ids(visibleUsers) then checked && id != selfId else id in old(selectedUserIds)
      ensures forall u :: u in SelectedUsers() <==> u in visibleUsers && checked && u.id != selfId
    {
      var ids := selectedUserIds;
      var i := 0;
      while i < |visibleUsers|
        invariant 0 <= i <= |visibleUsers|
        invariant forall id :: id in ids <==>
                    if id in Ids(visibleUsers[..i]) then checked && id != selfId else id in old(selectedUserIds)
      {
        var user := visibleUsers[i];
        assert Ids(visibleUsers[..i + 1]) == Ids(visibleUsers[..i]) + {user.id} by {
          assert visibleUsers[..i + 1] == visibleUsers[..i] + [user];
        }
        if user.id == selfId {
          ids := ids - {user.id};
        } else if checked {
          ids := ids + {user.id};
        } else {
          ids := ids - {user.id};
        }
        i := i + 1;
      }
      assert visibleUsers[..i] == visibleUsers;
      selectedUserIds := ids;
    }

    /** `selectFilter`: switch the filter and clear the visible selection. */
    method SelectFilter(f: UserFilter)
      modifies this`filter, this`selectedUserIds
      ensures filter == f
      ensures forall id :: id in selectedUserIds <==> id in old(selectedUserIds) && id !in Ids(visibleUsers)
      ensures SelectedUsers() == []
    {
      filter := f;
      SelectOrUnselectAll(false);
    }

    /** `updateUserViewData`. */
    method UpdateUserViewData(user: User)
      modifies this`loadedUsers
      ensures loadedUsers == ReplaceById(old(loadedUsers), user)
    {
      loadedUsers := ReplaceById(loadedUsers, user);
    }

    /** `removeUserFromView`. */
    method RemoveUserFromView(user: User)
      modifies this`loadedUsers
      ensures loadedUsers == RemoveById(old(loadedUsers), user.id)
      ensures user.id !in Ids(loadedUsers)
    {
      loadedUsers := RemoveById(loadedUsers, user.id);
    }

    /** `addUserToView`: the new record joins the loaded users, sorted by
        the sort last applied. */
    method AddUserToView(user: User)
      modifies this`loadedUsers
      ensures loadedUsers == SortUsers.SortUsers([user] + old(loadedUsers), prevSort)
      ensures multiset(loadedUsers) == multiset(old(loadedUsers)) + multiset{user}
    {
      loadedUsers := SortUsers.SortUsers([user] + loadedUsers, prevSort);
    }
  }
}
