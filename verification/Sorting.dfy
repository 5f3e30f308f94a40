// Sorting by a total order: the one ordering step every deterministic output rests on.
module Sorting {

  ghost predicate TotalOrder<T(!new)>(le: (T, T) -> bool) {
    && (forall a, b :: le(a, b) || le(b, a))
    && (forall a, b, c {:trigger le(a, b), le(b, c)} :: le(a, b) && le(b, c) ==> le(a, c))
  }

  /** No ties between different values of `s`. */
  ghost predicate Strict<T(!new)>(s: seq<T>, le: (T, T) -> bool) {
    forall a <- s, b <- s :: le(a, b) && le(b, a) ==> a == b
  }

  predicate Sorted<T>(s: seq<T>, le: (T, T) -> bool) {
    forall i, j :: 0 <= i < j < |s| ==> le(s[i], s[j])
  }

  /** Inserts a value in its place. */
  method Insert<T(==, !new)>(s: seq<T>, v: T, le: (T, T) -> bool) returns (r: seq<T>)
    requires TotalOrder(le) && Sorted(s, le)
    ensures Sorted(r, le) && multiset(r) == multiset(s) + multiset{v}
  {
    var k := |s|;
    while k > 0 && !le(s[k - 1], v)
      invariant 0 <= k <= |s| && (k < |s| ==> le(v, s[k]))
    {
      k := k - 1;
    }
    r := s[..k] + [v] + s[k..];
    InsertedOrder(s, v, k, le);
    InsertedContents(s, v, k);
  }

  lemma {:induction false} InsertedOrder<T(!new)>(s: seq<T>, v: T, k: nat, le: (T, T) -> bool)
    requires TotalOrder(le) && Sorted(s, le) && k <= |s| && (k > 0 ==> le(s[k - 1], v)) && (k < |s| ==> le(v, s[k]))
    ensures Sorted(s[..k] + [v] + s[k..], le)
  {
    var r := s[..k] + [v] + s[k..];
    assert forall i :: 0 <= i < k - 1 ==> le(s[i], s[k - 1]);
    assert forall j :: k < j < |s| ==> le(s[k], s[j]);
    forall i, j | 0 <= i < j < |r| ensures le(r[i], r[j]) {
      assert r[i] == if i < k then s[i] else if i == k then v else s[i - 1];
      assert r[j] == if j < k then s[j] else if j == k then v else s[j - 1];
    }
  }

  lemma {:induction false} InsertedContents<T>(s: seq<T>, v: T, k: nat)
    requires k <= |s|
    ensures multiset(s[..k] + [v] + s[k..]) == multiset(s) + multiset{v}
  {
    assert s == s[..k] + s[k..];
  }

  method Sort<T(==, !new)>(s: seq<T>, le: (T, T) -> bool) returns (r: seq<T>)
    requires TotalOrder(le)
    ensures Sorted(r, le) && multiset(r) == multiset(s)
  {
    r := [];
    for i := 0 to |s|
      invariant Sorted(r, le) && multiset(r) == multiset(s[..i])
    {
      r := Insert(r, s[i], le);
      assert s[..i + 1] == s[..i] + [s[i]];
    }
    assert s[..|s|] == s;
  }

  lemma {:induction false} SameMembers<T>(a: seq<T>, b: seq<T>, v: T)
    requires multiset(a) == multiset(b)
    ensures v in a <==> v in b
  {
    assert v in multiset(a) <==> v in multiset(b);
  }

  /** A sorted arrangement is unique: whatever order values arrive in, sorting them by an
      order with no ties between different values gives one sequence. */
  lemma {:induction false} SortedUnique<T(!new)>(a: seq<T>, b: seq<T>, le: (T, T) -> bool)
    requires Strict(a, le) && TotalOrder(le)
    requires Sorted(a, le) && Sorted(b, le) && multiset(a) == multiset(b)
    ensures a == b
    decreases |a|
  {
    hide TotalOrder, Sorted, Strict;
    SameLength(a, b);
    if a != [] {
      var n := |a| - 1;
      SameLast(a, b, le);
      WithoutLast(a);
      WithoutLast(b);
      PrefixSorted(a, n, le);
      PrefixSorted(b, n, le);
      SortedUnique(a[..n], b[..n], le);
      LastBack(a);
      LastBack(b);
    }
  }

  lemma {:induction false} LastBack<T>(a: seq<T>)
    requires a != []
    ensures a == a[..|a| - 1] + [a[|a| - 1]]
  {
  }

  lemma {:induction false} PrefixSorted<T(!new)>(a: seq<T>, n: nat, le: (T, T) -> bool)
    requires Sorted(a, le) && n <= |a|
    ensures Sorted(a[..n], le) && (Strict(a, le) ==> Strict(a[..n], le))
  {
    assert forall x <- a[..n] :: x in a;
  }

  lemma {:induction false} SameLength<T>(a: seq<T>, b: seq<T>)
    requires multiset(a) == multiset(b)
    ensures |a| == |b|
  {
    assert |a| == |multiset(a)| && |b| == |multiset(b)|;
  }

  lemma {:induction false} WithoutLast<T>(a: seq<T>)
    requires a != []
    ensures multiset(a[..|a| - 1]) == multiset(a) - multiset{a[|a| - 1]}
  {
    assert a == a[..|a| - 1] + [a[|a| - 1]];
  }

  lemma {:induction false} SameLast<T(!new)>(a: seq<T>, b: seq<T>, le: (T, T) -> bool)
    requires Strict(a, le) && TotalOrder(le) && a != [] && b != []
    requires Sorted(a, le) && Sorted(b, le) && multiset(a) == multiset(b)
    ensures a[|a| - 1] == b[|b| - 1]
  {
    var x, y := a[|a| - 1], b[|b| - 1];
    SameMembers(a, b, x);
    SameMembers(a, b, y);
    BelowLast(a, y, le);
    BelowLast(b, x, le);
  }

  lemma {:induction false} BelowLast<T(!new)>(a: seq<T>, v: T, le: (T, T) -> bool)
    requires TotalOrder(le) && Sorted(a, le) && v in a
    ensures le(v, a[|a| - 1])
  {
    var i :| 0 <= i < |a| && a[i] == v;
    assert le(v, v);
  }
}
