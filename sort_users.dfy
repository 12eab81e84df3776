// Client-side sorting of the admin user list: the comparators, the stable
// `Array.prototype.sort` on a copy, and descending order as the reversal
// of the ascending result.
module SortUsers {
  import opened Wrappers
  import opened Text
  import opened Seqs
  import StableSort
  import opened UserApi
  import UserListController

  /** `cmp`: empty strings sort after non-empty ones; other strings by
      `localeCompare`, taken here as character-code order. */
  function Cmp(a: string, b: string): (r: int)
    ensures -1 <= r <= 1
    ensures r == 0 <==> a == b
    ensures a == "" && b != "" ==> r == 1
    ensures a != "" && b == "" ==> r == -1
  {
    var aEmpty := a == "";
    var bEmpty := b == "";
    if aEmpty && bEmpty then 0
    else if aEmpty != bEmpty then (if aEmpty then 1 else -1)
    else CompareStrings(a, b)
  }

  lemma CmpAntisymmetric(a: string, b: string)
    ensures Cmp(a, b) == -Cmp(b, a)
  {
    CompareAntisymmetric(a, b);
  }

  lemma CmpTransitive(a: string, b: string, c: string)
    requires Cmp(a, b) <= 0 && Cmp(b, c) <= 0
    ensures Cmp(a, c) <= 0
  {
    if a != "" && b != "" && c != "" {
      CompareTransitive(a, b, c);
    }
  }

  /** `userNameComparator`: by last name, first name breaking ties. */
  function UserNameComparator(v1: User, v2: User): (r: int)
    ensures r == 0 <==> v1.lastName == v2.lastName && v1.firstName == v2.firstName
    ensures v1.lastName != v2.lastName ==> r == Cmp(v1.lastName, v2.lastName)
  {
    var res := Cmp(v1.lastName, v2.lastName);
    if res != 0 then res else Cmp(v1.firstName, v2.firstName)
  }

  /** The keys `defaultComparator` serves. */
  datatype ValueKey = LastActiveKey | SignUpDateKey | EmailKey

  /** `v[key]?.toLowerCase()`. */
  function KeyValue(v: User, key: ValueKey): Option<string>
  {
    match key
    case LastActiveKey => if v.lastActive.Some? then Some(ToLower(v.lastActive.value)) else None
    case SignUpDateKey => if v.signUpDate.Some? then Some(ToLower(v.signUpDate.value)) else None
    case EmailKey => Some(ToLower(v.email))
  }

  /** `defaultComparator`: case-insensitive, a missing value first, equal
      values tied. */
  function DefaultComparator(v1: User, v2: User, key: ValueKey): (r: int)
    ensures r == 0 <==> KeyValue(v1, key) == KeyValue(v2, key)
    ensures KeyValue(v1, key).None? && KeyValue(v2, key).Some? ==> r == -1
    ensures KeyValue(v1, key).Some? && KeyValue(v2, key).None? ==> r == 1
  {
    var value1 := KeyValue(v1, key);
    var value2 := KeyValue(v2, key);
    if value1 != value2 then
      if value1.None? then -1
      else if value2.None? then 1
      else if CompareStrings(value1.value, value2.value) < 0 then -1 else 1
    else 0
  }

  lemma DefaultComparatorAntisymmetric(v1: User, v2: User, key: ValueKey)
    ensures DefaultComparator(v1, v2, key) == -DefaultComparator(v2, v1, key)
  {
    var value1 := KeyValue(v1, key);
    var value2 := KeyValue(v2, key);
    if value1.Some? && value2.Some? {
      CompareAntisymmetric(value1.value, value2.value);
    }
  }

  lemma DefaultComparatorTransitive(a: User, b: User, c: User, key: ValueKey)
    requires DefaultComparator(a, b, key) <= 0 && DefaultComparator(b, c, key) <= 0
    ensures DefaultComparator(a, c, key) <= 0
  {
    var x, y, z := KeyValue(a, key), KeyValue(b, key), KeyValue(c, key);
    if x.Some? && y.Some? && z.Some? {
      CompareAntisymmetric(x.value, y.value);
      CompareAntisymmetric(y.value, z.value);
      CompareTransitive(x.value, y.value, z.value);
    }
  }

  /** The comparator `sortUsers` picks for a sort key, if any. */
  function ComparatorOf(key: string): (r: Option<(User, User) -> int>)
    ensures r.Some? <==> key in {"lastActive", "signUpDate", "email", "name"}
  {
    if key == "lastActive" then Some((a: User, b: User) => DefaultComparator(a, b, LastActiveKey))
    else if key == "signUpDate" then Some((a: User, b: User) => DefaultComparator(a, b, SignUpDateKey))
    else if key == "email" then Some((a: User, b: User) => DefaultComparator(a, b, EmailKey))
    else if key == "name" then Some(UserNameComparator)
    else None
  }

  /** Each comparator is consistent, so the stable sort is well defined. */
  lemma ComparatorIsTotalPreorder(key: string)
    requires ComparatorOf(key).Some?
    ensures StableSort.IsTotalPreorder(ComparatorOf(key).value)
  {
    var cmp := ComparatorOf(key).value;
    if key == "name" {
      forall a, b
        ensures StableSort.Le(cmp, a, b) || StableSort.Le(cmp, b, a)
      {
        CmpAntisymmetric(a.lastName, b.lastName);
        CmpAntisymmetric(a.firstName, b.firstName);
      }
      forall a, b, c | StableSort.Le(cmp, a, b) && StableSort.Le(cmp, b, c)
        ensures StableSort.Le(cmp, a, c)
      {
        NameTransitive(a, b, c);
      }
    } else {
      var k := if key == "lastActive" then LastActiveKey else if key == "signUpDate" then SignUpDateKey else EmailKey;
      assert forall a, b :: cmp(a, b) == DefaultComparator(a, b, k);
      forall a, b
        ensures StableSort.Le(cmp, a, b) || StableSort.Le(cmp, b, a)
      {
        DefaultComparatorAntisymmetric(a, b, k);
      }
      forall a, b, c | StableSort.Le(cmp, a, b) && StableSort.Le(cmp, b, c)
        ensures StableSort.Le(cmp, a, c)
      {
        DefaultComparatorTransitive(a, b, c, k);
      }
    }
  }

  lemma NameTransitive(a: User, b: User, c: User)
    requires UserNameComparator(a, b) <= 0 && UserNameComparator(b, c) <= 0
    ensures UserNameComparator(a, c) <= 0
  {
    if a.lastName == b.lastName == c.lastName {
      CmpTransitive(a.firstName, b.firstName, c.firstName);
    } else if a.lastName == b.lastName {
      assert UserNameComparator(a, c) == Cmp(b.lastName, c.lastName);
    } else if b.lastName == c.lastName {
      assert UserNameComparator(a, c) == Cmp(a.lastName, b.lastName);
    } else {
      CmpTransitive(a.lastName, b.lastName, c.lastName);
      CmpAntisymmetric(a.lastName, c.lastName);
      if a.lastName == c.lastName {
        CmpAntisymmetric(a.lastName, b.lastName);
      }
    }
  }

  /** The ascending pass: the stable sort by the key's comparator, or the
      copy unchanged for a key without one. */
  function SortAscending(users: seq<User>, key: string): (r: seq<User>)
    ensures multiset(r) == multiset(users)
  {
    match ComparatorOf(key)
    case None => users
    case Some(cmp) => StableSort.Sort(cmp, users)
  }

  /** `sortUsers`: a sorted copy; any order but "asc" reverses it. */
  function SortUsers(users: seq<User>, sort: UserListController.SortRequest): (r: seq<User>)
    ensures multiset(r) == multiset(users) && |r| == |users|
  {
    var sorted := SortAscending(users, sort.key);
    assert |sorted| == |multiset(sorted)| == |users|;
    if sort.order == "asc" then sorted else Reverse(sorted)
  }

  /** Ascending with a known key: sorted by its comparator, ties in their
      input order. */
  lemma AscendingIsStableSort(users: seq<User>, key: string, k: User)
    requires ComparatorOf(key).Some?
    ensures StableSort.Sorted(ComparatorOf(key).value, SortUsers(users, UserListController.SortRequest(key, "asc")))
    ensures StableSort.TiedWith(ComparatorOf(key).value, SortUsers(users, UserListController.SortRequest(key, "asc")), k)
            == StableSort.TiedWith(ComparatorOf(key).value, users, k)
  {
    var cmp := ComparatorOf(key).value;
    ComparatorIsTotalPreorder(key);
    StableSort.SortSorted(cmp, users);
    StableSort.SortStable(cmp, users, k);
  }

  /** Descending is exactly the reversal of ascending. */
  lemma DescendingReversesAscending(users: seq<User>, key: string, order: string)
    requires order != "asc"
    ensures SortUsers(users, UserListController.SortRequest(key, order))
            == Reverse(SortUsers(users, UserListController.SortRequest(key, "asc")))
  {
  }

  /** A key without a comparator keeps the order, or reverses it. */
  lemma UnknownKeyKeepsOrder(users: seq<User>, key: string)
    requires ComparatorOf(key).None?
    ensures SortUsers(users, UserListController.SortRequest(key, "asc")) == users
    ensures SortUsers(users, UserListController.SortRequest(key, "desc")) == Reverse(users)
  {
  }
}
