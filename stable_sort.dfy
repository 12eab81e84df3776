// A stable sort under a three-way comparator, the behaviour both
// `Array.prototype.sort` and lodash `orderBy` guarantee. The comparator
// returns a negative number, zero or a positive number; `a` may stay in
// front of `b` when `cmp(a, b) <= 0`.
module StableSort {
  predicate Le<T>(cmp: (T, T) -> int, a: T, b: T)
  {
    cmp(a, b) <= 0
  }

  /** `a` and `b` are tied: the comparator keeps their input order. */
  predicate Tied<T>(cmp: (T, T) -> int, a: T, b: T)
  {
    Le(cmp, a, b) && Le(cmp, b, a)
  }

  /** The comparator is consistent: any two values are comparable and
      "may come first" is transitive. */
  ghost predicate IsTotalPreorder<T(!new)>(cmp: (T, T) -> int)
  {
    (forall a, b :: Le(cmp, a, b) || Le(cmp, b, a))
    && (forall a, b, c :: Le(cmp, a, b) && Le(cmp, b, c) ==> Le(cmp, a, c))
  }

  ghost predicate Sorted<T>(cmp: (T, T) -> int, s: seq<T>)
  {
    forall i, j :: 0 <= i < j < |s| ==> Le(cmp, s[i], s[j])
  }

  /** `x` placed in front of the first element it may precede. */
  function Insert<T>(cmp: (T, T) -> int, x: T, s: seq<T>): (r: seq<T>)
    ensures multiset(r) == multiset(s) + multiset{x}
    ensures |r| == |s| + 1
  {
    if s == [] || Le(cmp, x, s[0]) then [x] + s
    else
      assert s == [s[0]] + s[1..];
      [s[0]] + Insert(cmp, x, s[1..])
  }

  /** The stable sort of `s`: each element is inserted in front of the
      elements after it that it ties with. */
  function Sort<T>(cmp: (T, T) -> int, s: seq<T>): (r: seq<T>)
    ensures multiset(r) == multiset(s)
    ensures |r| == |s|
  {
    if s == [] then []
    else
      assert s == [s[0]] + s[1..];
      Insert(cmp, s[0], Sort(cmp, s[1..]))
  }

  /** The elements of `s` tied with `k`, in order. */
  function TiedWith<T>(cmp: (T, T) -> int, s: seq<T>, k: T): seq<T>
  {
    if s == [] then []
    else (if Tied(cmp, s[0], k) then [s[0]] else []) + TiedWith(cmp, s[1..], k)
  }

  lemma {:induction false} InsertSorted<T(!new)>(cmp: (T, T) -> int, x: T, s: seq<T>)
    requires IsTotalPreorder(cmp) && Sorted(cmp, s)
    ensures Sorted(cmp, Insert(cmp, x, s))
  {
    if s == [] || Le(cmp, x, s[0]) {
      var r := [x] + s;
      forall i, j | 0 <= i < j < |r|
        ensures Le(cmp, r[i], r[j])
      {
        if i == 0 && j > 1 {
          assert Le(cmp, s[0], s[j - 1]);
        }
      }
    } else {
      var rest := Insert(cmp, x, s[1..]);
      InsertSorted(cmp, x, s[1..]);
      var r := [s[0]] + rest;
      forall j | 0 <= j < |rest|
        ensures Le(cmp, s[0], rest[j])
      {
        assert rest[j] in multiset(rest);
        assert rest[j] == x || rest[j] in multiset(s[1..]);
        if rest[j] != x {
          assert rest[j] in s[1..];
        }
      }
      forall i, j | 0 <= i < j < |r|
        ensures Le(cmp, r[i], r[j])
      {
        if i == 0 {
          assert r[j] == rest[j - 1];
        } else {
          assert r[i] == rest[i - 1] && r[j] == rest[j - 1];
        }
      }
    }
  }

  /** The sort orders its result. */
  lemma {:induction false} SortSorted<T(!new)>(cmp: (T, T) -> int, s: seq<T>)
    requires IsTotalPreorder(cmp)
    ensures Sorted(cmp, Sort(cmp, s))
  {
    if s != [] {
      SortSorted(cmp, s[1..]);
      InsertSorted(cmp, s[0], Sort(cmp, s[1..]));
    }
  }

  lemma {:induction false} InsertStable<T(!new)>(cmp: (T, T) -> int, x: T, s: seq<T>, k: T)
    requires IsTotalPreorder(cmp) && Sorted(cmp, s)
    ensures TiedWith(cmp, Insert(cmp, x, s), k)
            == (if Tied(cmp, x, k) then [x] else []) + TiedWith(cmp, s, k)
  {
    if s == [] || Le(cmp, x, s[0]) {
      assert ([x] + s)[1..] == s;
    } else {
      var rest := Insert(cmp, x, s[1..]);
      assert Sorted(cmp, s[1..]) by {
        forall i, j | 0 <= i < j < |s| - 1
          ensures Le(cmp, s[1..][i], s[1..][j])
        {
          assert s[1..][i] == s[i + 1] && s[1..][j] == s[j + 1];
        }
      }
      InsertStable(cmp, x, s[1..], k);
      assert ([s[0]] + rest)[1..] == rest;
      assert TiedWith(cmp, Insert(cmp, x, s), k)
             == (if Tied(cmp, s[0], k) then [s[0]] else []) + TiedWith(cmp, rest, k);
      if Tied(cmp, x, k) {
        // s[0] comes strictly before x, so it is not tied with k.
        NotBothTied(cmp, x, s[0], k);
      }
    }
  }

  /** Two elements tied with the same `k` may come in either order. */
  lemma NotBothTied<T(!new)>(cmp: (T, T) -> int, x: T, y: T, k: T)
    requires IsTotalPreorder(cmp) && !Le(cmp, x, y) && Tied(cmp, x, k)
    ensures !Tied(cmp, y, k)
  {
  }

  /** Stability: among elements the comparator ties, the sorted output
      keeps the input order. */
  lemma {:induction false} SortStable<T(!new)>(cmp: (T, T) -> int, s: seq<T>, k: T)
    requires IsTotalPreorder(cmp)
    ensures TiedWith(cmp, Sort(cmp, s), k) == TiedWith(cmp, s, k)
  {
    if s != [] {
      SortStable(cmp, s[1..], k);
      SortSorted(cmp, s[1..]);
      InsertStable(cmp, s[0], Sort(cmp, s[1..]), k);
    }
  }

  /** `s` and `t` hold the elements of every tie class in the same order:
      what a stable sort keeps of its input. */
  ghost predicate SameTies<T(!new)>(cmp: (T, T) -> int, s: seq<T>, t: seq<T>)
  {
    forall k :: TiedWith(cmp, s, k) == TiedWith(cmp, t, k)
  }

  lemma {:induction false} TiedWithAppend<T>(cmp: (T, T) -> int, s: seq<T>, t: seq<T>, k: T)
    ensures TiedWith(cmp, s + t, k) == TiedWith(cmp, s, k) + TiedWith(cmp, t, k)
  {
    if s == [] {
      assert s + t == t;
    } else {
      TiedWithAppend(cmp, s[1..], t, k);
      assert (s + t)[0] == s[0] && (s + t)[1..] == s[1..] + t;
      var head := if Tied(cmp, s[0], k) then [s[0]] else [];
      var rs, rt := TiedWith(cmp, s[1..], k), TiedWith(cmp, t, k);
      assert TiedWith(cmp, s + t, k) == head + (rs + rt);
      assert head + (rs + rt) == (head + rs) + rt;
    }
  }

  /** Swapping two neighbours the comparator does not tie keeps every
      tie class in order: at most one of them is tied with any `k`. */
  lemma SwapKeepsTies<T(!new)>(cmp: (T, T) -> int, s: seq<T>, j: int)
    requires IsTotalPreorder(cmp)
    requires 0 < j < |s| && !Tied(cmp, s[j - 1], s[j])
    ensures SameTies(cmp, s[..j - 1] + [s[j], s[j - 1]] + s[j + 1..], s)
  {
    var p, q := s[..j - 1], s[j + 1..];
    assert s == p + [s[j - 1], s[j]] + q;
    forall k
      ensures TiedWith(cmp, p + [s[j], s[j - 1]] + q, k) == TiedWith(cmp, s, k)
    {
      if Tied(cmp, s[j - 1], k) {
        OneTiedOnly(cmp, s[j - 1], s[j], k);
      }
      SwapKeepsTiesOf(cmp, p, s[j - 1], s[j], q, k);
    }
  }

  /** Two elements the comparator does not tie are not both tied with `k`. */
  lemma OneTiedOnly<T(!new)>(cmp: (T, T) -> int, a: T, b: T, k: T)
    requires IsTotalPreorder(cmp) && !Tied(cmp, a, b) && Tied(cmp, a, k)
    ensures !Tied(cmp, b, k)
  {
  }

  lemma SwapKeepsTiesOf<T>(cmp: (T, T) -> int, p: seq<T>, a: T, b: T, q: seq<T>, k: T)
    requires !(Tied(cmp, a, k) && Tied(cmp, b, k))
    ensures TiedWith(cmp, p + [b, a] + q, k) == TiedWith(cmp, p + [a, b] + q, k)
  {
    TiedWithAppend(cmp, p + [b, a], q, k);
    TiedWithAppend(cmp, p, [b, a], k);
    TiedWithAppend(cmp, p + [a, b], q, k);
    TiedWithAppend(cmp, p, [a, b], k);
    assert [b, a][1..] == [a] && [a, b][1..] == [b];
    assert [a][1..] == [] && [b][1..] == [];
  }

  /** An already ordered sequence is left as it is. */
  lemma {:induction false} SortOfSorted<T(!new)>(cmp: (T, T) -> int, s: seq<T>)
    requires IsTotalPreorder(cmp) && Sorted(cmp, s)
    ensures Sort(cmp, s) == s
  {
    if s != [] {
      SortOfSorted(cmp, s[1..]);
      assert s == [s[0]] + s[1..];
      if s[1..] != [] {
        assert Le(cmp, s[0], s[1]);
      }
    }
  }
}
