/**
 Stable sorting by a strict order, and why its result does not depend on the order of its input.

 `SortBy` is an insertion sort that stands for the library's stable sort: its result is a permutation of
 its input, and in order when the order is strict and total on the input's elements. There is only one
 way to put given elements in order (`OrderIsUnique`), so sorting distinct elements gives one result
 whatever order they come in (`SortIgnoresOrder`), and two lists in order with the same members are the
 same list (`SameList`). Strings are compared character by character, and sets of strings can be listed
 in that order.
 */
module Sorting {

  /** `less` is a strict total order on the members of `s`. */
  ghost predicate Orders<T>(less: (T, T) -> bool, s: set<T>) {
    && (forall a | a in s :: !less(a, a))
    && (forall a, b | a in s && b in s && a != b :: less(a, b) || less(b, a))
    && (forall a, b, c | a in s && b in s && c in s && less(a, b) && less(b, c) :: less(a, c))
  }

  ghost function Members<T>(s: seq<T>): set<T> {
    set x | x in s
  }

  lemma MembersAppend<T>(s: seq<T>, x: T)
    ensures Members(s + [x]) == Members(s) + {x}
  {
  }

  ghost predicate Distinct<T>(s: seq<T>) {
    forall i, j | 0 <= i < j < |s| :: s[i] != s[j]
  }

  ghost predicate InOrder<T>(less: (T, T) -> bool, s: seq<T>) {
    forall i, j | 0 <= i < j < |s| :: less(s[i], s[j])
  }

  /** `x` goes after everything that is not greater. */
  function Insert<T>(less: (T, T) -> bool, s: seq<T>, x: T): (r: seq<T>)
    ensures multiset(r) == multiset(s) + multiset{x}
  {
    if s == [] then [x]
    else
      var last := s[|s| - 1];
      assert s == s[..|s| - 1] + [last];
      if less(x, last) then Insert(less, s[..|s| - 1], x) + [last] else s + [x]
  }

  function SortBy<T>(less: (T, T) -> bool, s: seq<T>): (r: seq<T>)
    ensures multiset(r) == multiset(s)
  {
    if s == [] then []
    else
      assert s == s[..|s| - 1] + [s[|s| - 1]];
      Insert(less, SortBy(less, s[..|s| - 1]), s[|s| - 1])
  }

  lemma SameElements<T>(a: seq<T>, b: seq<T>)
    requires multiset(a) == multiset(b)
    ensures |a| == |b| && Members(a) == Members(b)
  {
    assert |multiset(a)| == |a| && |multiset(b)| == |b|;
    assert forall x :: x in a <==> x in multiset(a);
    assert forall x :: x in b <==> x in multiset(b);
  }

  lemma {:induction false} InsertInOrder<T>(less: (T, T) -> bool, s: seq<T>, x: T, all: set<T>)
    requires InOrder(less, s) && x !in s && Members(s) + {x} <= all && Orders(less, all)
    ensures InOrder(less, Insert(less, s, x))
  {
    if s != [] {
      var last, init := s[|s| - 1], s[..|s| - 1];
      assert last in Members(s);
      if less(x, last) {
        InsertInOrder(less, init, x, all);
        var r := Insert(less, init, x);
        forall i | 0 <= i < |r|
          ensures less(r[i], last)
        {
          assert r[i] in multiset(r);
          assert r[i] in multiset(init) || r[i] == x;
          assert r[i] in init || r[i] == x;
        }
      } else {
        forall i | 0 <= i < |s|
          ensures less(s[i], x)
        {
          assert s[i] in Members(s) && less(last, x);
        }
      }
    }
  }

  lemma {:induction false} SortInOrder<T>(less: (T, T) -> bool, s: seq<T>, all: set<T>)
    requires Distinct(s) && Members(s) <= all && Orders(less, all)
    ensures InOrder(less, SortBy(less, s))
  {
    if s != [] {
      var init := s[..|s| - 1];
      assert forall x | x in Members(init) :: x in Members(s);
      SortInOrder(less, init, all);
      SameElements(SortBy(less, init), init);
      var x := s[|s| - 1];
      assert x in Members(s);
      assert x !in init;
      assert x !in SortBy(less, init) by {
        assert x in SortBy(less, init) ==> x in Members(SortBy(less, init));
      }
      InsertInOrder(less, SortBy(less, init), x, all);
    }
  }

  /** The least member of a sequence in order is its first. */
  lemma SameFirst<T>(less: (T, T) -> bool, a: seq<T>, b: seq<T>, all: set<T>)
    requires InOrder(less, a) && InOrder(less, b) && multiset(a) == multiset(b) && a != [] && b != []
    requires Members(a) <= all && Orders(less, all)
    ensures a[0] == b[0]
  {
    SameElements(a, b);
    assert a[0] in Members(a) && b[0] in Members(b);
    var i :| 0 <= i < |b| && b[i] == a[0];
    var j :| 0 <= j < |a| && a[j] == b[0];
  }

  /** There is only one way to put given elements in order. */
  lemma {:induction false} OrderIsUnique<T>(less: (T, T) -> bool, a: seq<T>, b: seq<T>, all: set<T>)
    requires InOrder(less, a) && InOrder(less, b) && multiset(a) == multiset(b)
    requires Members(a) <= all && Orders(less, all)
    ensures a == b
  {
    SameElements(a, b);
    if a != [] {
      SameFirst(less, a, b, all);
      TailMultiset(a);
      TailMultiset(b);
      TailInOrder(less, a);
      TailInOrder(less, b);
      OrderIsUnique(less, a[1..], b[1..], all);
      assert a == [a[0]] + a[1..] && b == [b[0]] + b[1..];
    }
  }

  lemma TailInOrder<T>(less: (T, T) -> bool, a: seq<T>)
    requires a != [] && InOrder(less, a)
    ensures InOrder(less, a[1..])
  {
  }

  lemma TailMultiset<T>(a: seq<T>)
    requires a != []
    ensures multiset(a[1..]) == multiset(a) - multiset{a[0]} && Members(a[1..]) <= Members(a)
  {
    assert a == [a[0]] + a[1..];
  }

  lemma DistinctIfPermuted<T>(a: seq<T>, b: seq<T>)
    requires Distinct(a) && multiset(a) == multiset(b)
    ensures Distinct(b)
  {
    forall i, j | 0 <= i < j < |b|
      ensures b[i] != b[j]
    {
      if b[i] == b[j] {
        assert b == b[..i] + [b[i]] + b[i + 1..j] + [b[j]] + b[j + 1..];
        assert multiset(b)[b[i]] >= 2;
        OncePerMember(a, b[i]);
      }
    }
  }

  lemma {:induction false} OncePerMember<T>(a: seq<T>, x: T)
    requires Distinct(a)
    ensures multiset(a)[x] <= 1
  {
    if a != [] {
      OncePerMember(a[1..], x);
      assert a == [a[0]] + a[1..];
      if a[0] == x {
        assert x !in a[1..];
      }
    }
  }

  /** Sorting distinct elements gives the same result whatever their order. */
  lemma SortIgnoresOrder<T>(less: (T, T) -> bool, a: seq<T>, b: seq<T>)
    requires Distinct(a) && multiset(a) == multiset(b) && Orders(less, Members(a))
    ensures SortBy(less, a) == SortBy(less, b)
  {
    DistinctIfPermuted(a, b);
    SameElements(a, b);
    SortInOrder(less, a, Members(a));
    SortInOrder(less, b, Members(a));
    SameElements(SortBy(less, a), a);
    OrderIsUnique(less, SortBy(less, a), SortBy(less, b), Members(a));
  }

  lemma InOrderDistinct<T>(less: (T, T) -> bool, s: seq<T>, all: set<T>)
    requires InOrder(less, s) && Members(s) <= all && Orders(less, all)
    ensures Distinct(s)
  {
    forall i, j | 0 <= i < j < |s|
      ensures s[i] != s[j]
    {
      assert s[i] in Members(s);
      assert less(s[i], s[j]);
    }
  }

  lemma OnceEach<T>(a: seq<T>, x: T)
    requires Distinct(a)
    ensures multiset(a)[x] == if x in a then 1 else 0
  {
    OncePerMember(a, x);
    assert x in a <==> x in multiset(a);
  }

  /** Two lists in order with the same members are the same list. */
  lemma SameList<T>(less: (T, T) -> bool, a: seq<T>, b: seq<T>)
    requires InOrder(less, a) && InOrder(less, b) && Members(a) == Members(b) && Orders(less, Members(a))
    ensures a == b
  {
    InOrderDistinct(less, a, Members(a));
    InOrderDistinct(less, b, Members(a));
    forall x
      ensures multiset(a)[x] == multiset(b)[x]
    {
      OnceEach(a, x);
      OnceEach(b, x);
      assert x in a <==> x in Members(a);
      assert x in b <==> x in Members(b);
    }
    OrderIsUnique(less, a, b, Members(a));
  }

  /** A finite set can be listed in order. */
  lemma {:induction false} Enumerate<T>(s: set<T>) returns (list: seq<T>)
    ensures Distinct(list) && Members(list) == s
  {
    list := [];
    if s != {} {
      var x :| x in s;
      var rest := Enumerate(s - {x});
      assert x !in Members(rest);
      MembersAppend(rest, x);
      list := rest + [x];
    }
  }

  // ---- Strings ----

  function StringLess(a: string, b: string): bool {
    if b == "" then false
    else if a == "" then true
    else if a[0] != b[0] then a[0] < b[0]
    else StringLess(a[1..], b[1..])
  }

  /** The first difference of two strings decides their order. */
  lemma {:induction false} FirstDifferenceDecides(a: string, b: string, n: nat)
    requires n < |a| && n < |b| && a[..n] == b[..n] && a[n] != b[n]
    ensures StringLess(a, b) <==> a[n] < b[n]
  {
    if n > 0 {
      assert a[0] == a[..n][0] == b[..n][0] == b[0];
      assert a[1..][..n - 1] == a[..n][1..] == b[..n][1..] == b[1..][..n - 1];
      FirstDifferenceDecides(a[1..], b[1..], n - 1);
    }
  }

  /** A proper prefix comes first. */
  lemma {:induction false} PrefixComesFirst(a: string, n: nat)
    requires n < |a|
    ensures StringLess(a[..n], a) && !StringLess(a, a[..n])
  {
    if n > 0 {
      PrefixComesFirst(a[1..], n - 1);
      assert a[..n][1..] == a[1..][..n - 1];
    }
  }

  /** The order of strings as a value. */
  function ByString(): (string, string) -> bool {
    StringLess
  }

  lemma {:induction false} StringIrreflexive(a: string)
    ensures !StringLess(a, a)
  {
    if a != "" {
      StringIrreflexive(a[1..]);
    }
  }

  lemma {:induction false} StringConnected(a: string, b: string)
    requires a != b
    ensures StringLess(a, b) || StringLess(b, a)
  {
    if a != "" && b != "" && a[0] == b[0] {
      assert a == [a[0]] + a[1..] && b == [b[0]] + b[1..];
      StringConnected(a[1..], b[1..]);
    }
  }

  lemma {:induction false} StringTransitive(a: string, b: string, c: string)
    requires StringLess(a, b) && StringLess(b, c)
    ensures StringLess(a, c)
  {
    if a != "" && a[0] == b[0] == c[0] {
      StringTransitive(a[1..], b[1..], c[1..]);
    }
  }

  lemma StringsOrdered(s: set<string>)
    ensures Orders(ByString(), s)
  {
    forall a | a in s
      ensures !StringLess(a, a)
    {
      StringIrreflexive(a);
    }
    forall a, b | a in s && b in s && a != b
      ensures StringLess(a, b) || StringLess(b, a)
    {
      StringConnected(a, b);
    }
    forall a, b, c | a in s && b in s && c in s && StringLess(a, b) && StringLess(b, c)
      ensures StringLess(a, c)
    {
      StringTransitive(a, b, c);
    }
  }

  /** The members of a set of strings in their order. */
  ghost predicate Lists(keys: seq<string>, s: set<string>) {
    InOrder(ByString(), keys) && Members(keys) == s
  }

  lemma OneMore(keys: seq<string>, key: string)
    requires Distinct(keys) && key !in Members(keys)
    ensures Distinct(keys + [key]) && Members(keys + [key]) == Members(keys) + {key}
  {
    MembersAppend(keys, key);
  }

  lemma SortedLists(keys: seq<string>, s: set<string>)
    requires Distinct(keys) && Members(keys) == s
    ensures Lists(SortBy(ByString(), keys), s)
  {
    StringsOrdered(s);
    SortInOrder(ByString(), keys, s);
    SameElements(SortBy(ByString(), keys), keys);
  }

  /** Lists a set of strings, in whatever order it yields them, and then sorts the list. */
  method SortedKeys(s: set<string>) returns (keys: seq<string>)
    ensures Lists(keys, s)
  {
    keys := [];
    var rest := s;
    while rest != {}
      invariant rest <= s && Distinct(keys) && Members(keys) == s - rest
      decreases |rest|
    {
      var key :| key in rest;
      OneMore(keys, key);
      keys := keys + [key];
      rest := rest - {key};
    }
    SortedLists(keys, s);
    keys := SortBy(ByString(), keys);
  }
}
