// `sorted` and `list.sort`: a stable sort by a key, given as "may stand before", with the comprehensions that go with
// it: mapping, filtering and counting. Sorting permutes, sorts and is stable; filtering and counting look at the
// members only; and a change the key does not see may be made before or after sorting.
module Sorting {

  ghost predicate Total<T(!new)>(le: (T, T) -> bool) {
    && (forall a, b :: le(a, b) || le(b, a))
    && (forall a, b, c :: le(a, b) && le(b, c) ==> le(a, c))
  }

  function Insert<T>(le: (T, T) -> bool, x: T, s: seq<T>): seq<T> {
    if s == [] || le(x, s[0]) then [x] + s else [s[0]] + Insert(le, x, s[1..])
  }

  function Sort<T>(le: (T, T) -> bool, s: seq<T>): seq<T> {
    if s == [] then [] else Insert(le, s[0], Sort(le, s[1..]))
  }

  predicate Sorted<T>(le: (T, T) -> bool, s: seq<T>) {
    forall i, j :: 0 <= i < j < |s| ==> le(s[i], s[j])
  }

  function Filter<T>(p: T -> bool, s: seq<T>): seq<T> {
    if s == [] then []
    else if p(s[0]) then [s[0]] + Filter(p, s[1..])
    else Filter(p, s[1..])
  }

  function Map<T, U>(f: T -> U, s: seq<T>): (r: seq<U>)
    ensures |r| == |s| && forall k :: 0 <= k < |s| ==> r[k] == f(s[k])
  {
    seq(|s|, k requires 0 <= k < |s| => f(s[k]))
  }

  lemma MapNext<T, U>(f: T -> U, s: seq<T>, k: nat)
    requires k < |s|
    ensures Map(f, s[..k + 1]) == Map(f, s[..k]) + [f(s[k])]
  {
  }

  // --- permutation, order, stability ---

  lemma {:induction false} InsertPermutes<T>(le: (T, T) -> bool, x: T, s: seq<T>)
    ensures multiset(Insert(le, x, s)) == multiset{x} + multiset(s)
  {
    if s != [] && !le(x, s[0]) {
      InsertPermutes(le, x, s[1..]);
      assert s == [s[0]] + s[1..];
    }
  }

  lemma {:induction false} SortPermutes<T>(le: (T, T) -> bool, s: seq<T>)
    ensures multiset(Sort(le, s)) == multiset(s)
  {
    if s != [] {
      SortPermutes(le, s[1..]);
      InsertPermutes(le, s[0], Sort(le, s[1..]));
      assert s == [s[0]] + s[1..];
    }
  }

  lemma SameMembers<T>(a: seq<T>, b: seq<T>)
    requires multiset(a) == multiset(b)
    ensures |a| == |b|
    ensures forall x :: x in a <==> x in b
  {
    assert |multiset(a)| == |a| && |multiset(b)| == |b|;
    forall x: T
      ensures x in a <==> x in b
    {
      assert x in a <==> x in multiset(a);
      assert x in b <==> x in multiset(b);
    }
  }

  lemma {:induction false} InsertSorts<T(!new)>(le: (T, T) -> bool, x: T, s: seq<T>)
    requires Total(le) && Sorted(le, s)
    ensures Sorted(le, Insert(le, x, s))
  {
    if s != [] && !le(x, s[0]) {
      var rest := Insert(le, x, s[1..]);
      InsertSorts(le, x, s[1..]);
      InsertPermutes(le, x, s[1..]);
      forall j | 0 <= j < |rest|
        ensures le(s[0], rest[j])
      {
        assert rest[j] in multiset(rest);
        assert rest[j] == x || rest[j] in s[1..];
      }
    }
  }

  lemma {:induction false} SortSorts<T(!new)>(le: (T, T) -> bool, s: seq<T>)
    requires Total(le)
    ensures Sorted(le, Sort(le, s))
  {
    if s != [] {
      SortSorts(le, s[1..]);
      InsertSorts(le, s[0], Sort(le, s[1..]));
    }
  }

  /** All members satisfying `p` may stand in either order. */
  ghost predicate Alike<T(!new)>(le: (T, T) -> bool, p: T -> bool) {
    forall a, b :: p(a) && p(b) ==> le(a, b)
  }

  lemma {:induction false} InsertIsStable<T(!new)>(le: (T, T) -> bool, p: T -> bool, x: T, s: seq<T>)
    requires Alike(le, p)
    ensures Filter(p, Insert(le, x, s)) == Filter(p, [x] + s)
  {
    assert ([x] + s)[1..] == s;
    if s != [] && !le(x, s[0]) {
      InsertIsStable(le, p, x, s[1..]);
      assert ([x] + s[1..])[1..] == s[1..];
      assert ([s[0]] + Insert(le, x, s[1..]))[1..] == Insert(le, x, s[1..]);
    }
  }

  /** Members that compare equal keep the order they came in. */
  lemma {:induction false} SortIsStable<T(!new)>(le: (T, T) -> bool, p: T -> bool, s: seq<T>)
    requires Alike(le, p)
    ensures Filter(p, Sort(le, s)) == Filter(p, s)
  {
    if s != [] {
      SortIsStable(le, p, s[1..]);
      InsertIsStable(le, p, s[0], Sort(le, s[1..]));
      assert ([s[0]] + Sort(le, s[1..]))[1..] == Sort(le, s[1..]);
    }
  }

  // --- sorting, filtering and mapping commute ---

  lemma {:induction false} InsertMaps<T(!new)>(le: (T, T) -> bool, f: T -> T, x: T, s: seq<T>)
    requires forall a, b :: le(f(a), f(b)) == le(a, b)
    ensures Insert(le, f(x), Map(f, s)) == Map(f, Insert(le, x, s))
  {
    if s != [] {
      assert Map(f, s)[0] == f(s[0]) && Map(f, s)[1..] == Map(f, s[1..]);
      if !le(x, s[0]) {
        InsertMaps(le, f, x, s[1..]);
      }
    }
  }

  /** A change the key does not see may be made before or after sorting. */
  lemma {:induction false} SortMaps<T(!new)>(le: (T, T) -> bool, f: T -> T, s: seq<T>)
    requires forall a, b :: le(f(a), f(b)) == le(a, b)
    ensures Sort(le, Map(f, s)) == Map(f, Sort(le, s))
  {
    if s != [] {
      SortMaps(le, f, s[1..]);
      InsertMaps(le, f, s[0], Sort(le, s[1..]));
      assert Map(f, s)[1..] == Map(f, s[1..]);
    }
  }

  lemma {:induction false} FilterMaps<T(!new)>(p: T -> bool, f: T -> T, s: seq<T>)
    requires forall a :: p(f(a)) == p(a)
    ensures Filter(p, Map(f, s)) == Map(f, Filter(p, s))
  {
    if s != [] {
      FilterMaps(p, f, s[1..]);
      assert Map(f, s)[1..] == Map(f, s[1..]);
    }
  }

  lemma {:induction false} FilterTwice<T>(p: T -> bool, q: T -> bool, both: T -> bool, s: seq<T>)
    requires forall x :: x in s ==> (both(x) <==> p(x) && q(x))
    ensures Filter(q, Filter(p, s)) == Filter(both, s)
  {
    if s != [] {
      FilterTwice(p, q, both, s[1..]);
      assert both(s[0]) <==> p(s[0]) && q(s[0]);
      assert ([s[0]] + Filter(p, s[1..]))[1..] == Filter(p, s[1..]);
    }
  }

  lemma {:induction false} FilterConcat<T>(p: T -> bool, a: seq<T>, b: seq<T>)
    ensures Filter(p, a + b) == Filter(p, a) + Filter(p, b)
  {
    if a == [] {
      assert a + b == b;
    } else {
      assert (a + b)[1..] == a[1..] + b;
      FilterConcat(p, a[1..], b);
    }
  }

  lemma FilterNext<T>(p: T -> bool, s: seq<T>, k: nat)
    requires k < |s|
    ensures Filter(p, s[..k + 1]) == if p(s[k]) then Filter(p, s[..k]) + [s[k]] else Filter(p, s[..k])
  {
    assert s[..k + 1] == s[..k] + [s[k]];
    FilterConcat(p, s[..k], [s[k]]);
  }

  lemma {:induction false} FilterAll<T>(p: T -> bool, s: seq<T>)
    ensures (forall k :: 0 <= k < |s| ==> p(s[k])) ==> Filter(p, s) == s
    ensures (forall k :: 0 <= k < |s| ==> !p(s[k])) ==> Filter(p, s) == []
  {
    if s != [] {
      FilterAll(p, s[1..]);
    }
  }

  lemma {:induction false} FilterMembers<T>(p: T -> bool, s: seq<T>)
    ensures forall k :: 0 <= k < |Filter(p, s)| ==> p(Filter(p, s)[k]) && Filter(p, s)[k] in s
    ensures forall x :: x in s && p(x) ==> x in Filter(p, s)
  {
    if s != [] {
      FilterMembers(p, s[1..]);
    }
  }

  /** Strictly increasing. */
  predicate Climbs(from: seq<nat>) {
    forall i, j :: 0 <= i < j < |from| ==> from[i] < from[j]
  }

  /** The places of the members satisfying `p`, in order. */
  ghost function Places<T>(p: T -> bool, s: seq<T>): seq<nat> {
    if s == [] then []
    else if p(s[|s| - 1]) then Places(p, s[..|s| - 1]) + [|s| - 1]
    else Places(p, s[..|s| - 1])
  }

  lemma {:induction false} PlacesClimb<T>(p: T -> bool, s: seq<T>)
    ensures |Places(p, s)| == |Filter(p, s)| && Climbs(Places(p, s))
    ensures forall k :: 0 <= k < |Places(p, s)| ==> Places(p, s)[k] < |s|
  {
    if s != [] {
      PlacesClimb(p, s[..|s| - 1]);
      FilterNext(p, s, |s| - 1);
      assert s[..|s|] == s;
    }
  }

  lemma {:induction false} PlacesOf<T>(p: T -> bool, s: seq<T>, i: nat)
    ensures i in Places(p, s) <==> i < |s| && p(s[i])
  {
    if s != [] {
      PlacesOf(p, s[..|s| - 1], i);
    }
  }

  lemma {:induction false} PlacesHold<T>(p: T -> bool, s: seq<T>, k: nat)
    requires k < |Places(p, s)| == |Filter(p, s)| && Places(p, s)[k] < |s|
    ensures Filter(p, s)[k] == s[Places(p, s)[k]]
  {
    var front := s[..|s| - 1];
    PlacesClimb(p, front);
    FilterNext(p, s, |s| - 1);
    assert s[..|s|] == s;
    if k < |Places(p, front)| {
      PlacesHold(p, front, k);
    }
  }

  /** A filtered list holds the members standing in those places. */
  lemma FilterFrom<T>(p: T -> bool, s: seq<T>)
    ensures |Places(p, s)| == |Filter(p, s)| && Climbs(Places(p, s))
    ensures forall k :: 0 <= k < |Places(p, s)| ==> Places(p, s)[k] < |s| && Filter(p, s)[k] == s[Places(p, s)[k]]
    ensures forall i: nat :: i in Places(p, s) <==> i < |s| && p(s[i])
  {
    hide Places, Filter, Climbs;
    PlacesClimb(p, s);
    forall k | 0 <= k < |Places(p, s)|
      ensures Filter(p, s)[k] == s[Places(p, s)[k]]
    {
      PlacesHold(p, s, k);
    }
    forall i: nat
      ensures i in Places(p, s) <==> i < |s| && p(s[i])
    {
      PlacesOf(p, s, i);
    }
  }

  lemma {:induction false} FilterCount<T>(p: T -> bool, s: seq<T>, x: T)
    ensures multiset(Filter(p, s))[x] == if p(x) then multiset(s)[x] else 0
  {
    if s != [] {
      FilterCount(p, s[1..], x);
      assert s == [s[0]] + s[1..];
    }
  }

  /** Filtering looks at the members only, up to order. */
  lemma FilterPermutation<T(!new)>(p: T -> bool, a: seq<T>, b: seq<T>)
    requires multiset(a) == multiset(b)
    ensures multiset(Filter(p, a)) == multiset(Filter(p, b))
  {
    forall x: T
      ensures multiset(Filter(p, a))[x] == multiset(Filter(p, b))[x]
    {
      FilterCount(p, a, x);
      FilterCount(p, b, x);
    }
    assert multiset(Filter(p, a)) == multiset(Filter(p, b));
  }

  // --- counting looks at the members only ---

  function Count<T>(p: T -> bool, s: seq<T>): nat {
    |Filter(p, s)|
  }

  lemma TakeOut<T>(p: T -> bool, s: seq<T>, k: nat)
    requires k < |s|
    ensures Count(p, s) == (if p(s[k]) then 1 else 0) + Count(p, s[..k] + s[k + 1..])
  {
    var behind := [s[k]] + s[k + 1..];
    assert s == s[..k] + behind && behind[1..] == s[k + 1..];
    FilterConcat(p, s[..k], s[k + 1..]);
    FilterConcat(p, s[..k], behind);
  }

  /** Where in a permutation of `a` its first member went. */
  lemma Partner<T>(a: seq<T>, b: seq<T>) returns (k: nat)
    requires multiset(a) == multiset(b) && a != []
    ensures k < |b| && b[k] == a[0] && multiset(a[1..]) == multiset(b[..k] + b[k + 1..])
  {
    SameMembers(a, b);
    assert a[0] in b;
    k :| 0 <= k < |b| && b[k] == a[0];
    assert a == [a[0]] + a[1..] && b == b[..k] + [b[k]] + b[k + 1..];
    assert multiset(a[1..]) == multiset(a) - multiset{a[0]};
  }

  lemma {:induction false} CountPermutation<T>(p: T -> bool, a: seq<T>, b: seq<T>)
    requires multiset(a) == multiset(b)
    ensures Count(p, a) == Count(p, b)
    decreases |a|
  {
    if a == [] {
      SameMembers(a, b);
    } else {
      var k := Partner(a, b);
      CountPermutation(p, a[1..], b[..k] + b[k + 1..]);
      TakeOut(p, b, k);
    }
  }
}
