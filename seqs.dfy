// Sequence operations the source takes from `Array.prototype`: `filter`,
// counting and `reverse`.
module Seqs {
  /** The elements of `s` satisfying `p`, in their original order. */
  function Filter<T>(s: seq<T>, p: T -> bool): (r: seq<T>)
    ensures |r| <= |s|
    ensures forall i :: 0 <= i < |r| ==> r[i] in s && p(r[i])
    ensures forall i :: 0 <= i < |s| && p(s[i]) ==> s[i] in r
    ensures multiset(r) <= multiset(s)
    ensures (forall i :: 0 <= i < |s| ==> p(s[i])) ==> r == s
  {
    if s == [] then []
    else
      var rest := Filter(s[1..], p);
      FilterCons(s, p, rest);
      if p(s[0]) then [s[0]] + rest else rest
  }

  /** What `Filter` promises of `r`, as one predicate. */
  ghost predicate Filtered<T>(s: seq<T>, p: T -> bool, r: seq<T>)
  {
    && |r| <= |s|
    && (forall i :: 0 <= i < |r| ==> r[i] in s && p(r[i]))
    && (forall i :: 0 <= i < |s| && p(s[i]) ==> s[i] in r)
    && multiset(r) <= multiset(s)
    && ((forall i :: 0 <= i < |s| ==> p(s[i])) ==> r == s)
  }

  /** One step of `Filter`: keeping or dropping the head of `s`. */
  lemma FilterCons<T>(s: seq<T>, p: T -> bool, rest: seq<T>)
    requires s != [] && Filtered(s[1..], p, rest)
    ensures Filtered(s, p, if p(s[0]) then [s[0]] + rest else rest)
  {
    assert s == [s[0]] + s[1..];
    assert multiset(s) == multiset{s[0]} + multiset(s[1..]);
    if p(s[0]) {
      FilterKeep(s, p, rest);
    } else {
      FilterDrop(s, p, rest);
    }
  }

  lemma FilterKeep<T>(s: seq<T>, p: T -> bool, rest: seq<T>)
    requires s != [] && p(s[0]) && Filtered(s[1..], p, rest)
    requires multiset(s) == multiset{s[0]} + multiset(s[1..])
    ensures Filtered(s, p, [s[0]] + rest)
  {
    var r := [s[0]] + rest;
    forall i | 0 <= i < |r|
      ensures r[i] in s && p(r[i])
    {
      if i > 0 {
        assert r[i] == rest[i - 1];
        assert rest[i - 1] in s[1..];
      }
    }
    forall i | 0 <= i < |s| && p(s[i])
      ensures s[i] in r
    {
      if i > 0 {
        assert s[i] == s[1..][i - 1];
      }
    }
    assert multiset(r) == multiset{s[0]} + multiset(rest);
    if forall i :: 0 <= i < |s| ==> p(s[i]) {
      assert forall i :: 0 <= i < |s[1..]| ==> p(s[1..][i]) by {
        forall i | 0 <= i < |s[1..]| ensures p(s[1..][i]) {
          assert s[1..][i] == s[i + 1];
        }
      }
      assert rest == s[1..];
      assert r == s;
    }
  }

  lemma FilterDrop<T>(s: seq<T>, p: T -> bool, rest: seq<T>)
    requires s != [] && !p(s[0]) && Filtered(s[1..], p, rest)
    requires multiset(s) == multiset{s[0]} + multiset(s[1..])
    ensures Filtered(s, p, rest)
  {
    forall i | 0 <= i < |rest|
      ensures rest[i] in s
    {
      assert rest[i] in s[1..];
    }
    forall i | 0 <= i < |s| && p(s[i])
      ensures s[i] in rest
    {
      assert i > 0 && s[i] == s[1..][i - 1];
    }
    assert !(forall i :: 0 <= i < |s| ==> p(s[i]));
  }

  /** `a` is obtained from `b` by deleting elements. */
  predicate Subsequence<T(==)>(a: seq<T>, b: seq<T>)
    decreases |b|
  {
    if a == [] then true
    else if b == [] then false
    else if a[0] == b[0] then Subsequence(a[1..], b[1..])
    else Subsequence(a, b[1..])
  }

  lemma {:induction false} FilterIsSubsequence<T>(s: seq<T>, p: T -> bool)
    ensures Subsequence(Filter(s, p), s)
  {
    if s != [] {
      FilterIsSubsequence(s[1..], p);
      var rest := Filter(s[1..], p);
      if !p(s[0]) {
        SubsequenceSkip(rest, s);
      }
    }
  }

  /** Every sequence is a subsequence of itself. */
  lemma {:induction false} SubsequenceRefl<T>(s: seq<T>)
    ensures Subsequence(s, s)
  {
    if s != [] {
      SubsequenceRefl(s[1..]);
    }
  }

  /** An element prepended to the larger sequence can be skipped. */
  lemma {:induction false} SubsequenceSkip<T>(a: seq<T>, b: seq<T>)
    requires b != [] && Subsequence(a, b[1..])
    ensures Subsequence(a, b)
    decreases |b|, 0
  {
    if a != [] && a[0] == b[0] {
      SubsequenceTail(a, b[1..]);
    }
  }

  /** Dropping the first element of the smaller sequence keeps it a
      subsequence. */
  lemma {:induction false} SubsequenceTail<T>(a: seq<T>, c: seq<T>)
    requires a != [] && Subsequence(a, c)
    ensures Subsequence(a[1..], c)
    decreases |c|, 1
  {
    if a[0] == c[0] {
      if a[1..] != [] {
        SubsequenceSkip(a[1..], c);
      }
    } else {
      SubsequenceTail(a, c[1..]);
      if a[1..] != [] {
        SubsequenceSkip(a[1..], c);
      }
    }
  }

  /** Number of elements of `s` satisfying `p`. */
  function Count<T>(s: seq<T>, p: T -> bool): (n: nat)
    ensures n == |Filter(s, p)|
  {
    if s == [] then 0 else (if p(s[0]) then 1 else 0) + Count(s[1..], p)
  }

  /** `Array.prototype.reverse`: the elements in the opposite order. */
  function Reverse<T>(s: seq<T>): (r: seq<T>)
    ensures |r| == |s|
    ensures forall i :: 0 <= i < |s| ==> r[i] == s[|s| - 1 - i]
    ensures multiset(r) == multiset(s)
  {
    if s == [] then []
    else
      assert s == [s[0]] + s[1..];
      Reverse(s[1..]) + [s[0]]
  }

  /** Reversal undoes itself. */
  lemma ReverseInvolutive<T>(s: seq<T>)
    ensures Reverse(Reverse(s)) == s
  {
    assert forall i :: 0 <= i < |s| ==> Reverse(Reverse(s))[i] == s[i];
  }
}
