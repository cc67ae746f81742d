/** Sorting records by a string key (sort.Slice on a form or an ID). */
module KeyedSort {
  import opened Ordering

  ghost predicate SortedBy<T>(s: seq<T>, key: T -> string) {
    forall i, j :: 0 <= i < j < |s| ==> AtMost(key(s[i]), key(s[j]))
  }

  // Records with the same key are the same.
  ghost predicate KeyedApart<T>(s: seq<T>, key: T -> string) {
    forall i, j :: 0 <= i < j < |s| ==> key(s[i]) != key(s[j])
  }

  lemma KeyDecides<T>(s: seq<T>, key: T -> string, i: nat, j: nat)
    requires KeyedApart(s, key) && i < |s| && j < |s| && key(s[i]) == key(s[j])
    ensures i == j
  {
  }

  lemma KeysDiffer<T>(s: seq<T>, key: T -> string, i: nat, j: nat)
    requires KeyedApart(s, key) && i < |s| && j < |s| && i != j
    ensures key(s[i]) != key(s[j])
  {
  }

  function Map<T, U>(f: T -> U, s: seq<T>): (r: seq<U>)
    ensures |r| == |s| && forall i :: 0 <= i < |s| ==> r[i] == f(s[i])
  {
    if s == [] then [] else Map(f, s[..|s| - 1]) + [f(s[|s| - 1])]
  }

  function InsertBy<T>(x: T, s: seq<T>, key: T -> string): seq<T> {
    if s == [] || AtMost(key(x), key(s[0])) then [x] + s else [s[0]] + InsertBy(x, s[1..], key)
  }

  function SortBy<T>(s: seq<T>, key: T -> string): seq<T> {
    if s == [] then [] else InsertBy(s[|s| - 1], SortBy(s[..|s| - 1], key), key)
  }

  lemma InsertFront<T>(x: T, s: seq<T>, key: T -> string)
    requires SortedBy(s, key) && (s != [] ==> AtMost(key(x), key(s[0])))
    ensures SortedBy([x] + s, key)
  {
    forall j | 0 <= j < |s|
      ensures AtMost(key(x), key(s[j]))
    {
      if j > 0 { AtMostTransitive(key(x), key(s[0]), key(s[j])); }
    }
  }

  lemma InsertBehind<T>(x: T, s: seq<T>, t: seq<T>, key: T -> string)
    requires s != [] && SortedBy(s, key) && !AtMost(key(x), key(s[0]))
    requires SortedBy(t, key) && multiset(t) == multiset(s[1..]) + multiset{x}
    ensures SortedBy([s[0]] + t, key) && multiset([s[0]] + t) == multiset(s) + multiset{x}
  {
    LessTotal(key(x), key(s[0]));
    assert s == [s[0]] + s[1..];
    forall j | 0 <= j < |t|
      ensures AtMost(key(s[0]), key(t[j]))
    {
      assert t[j] in multiset(t);
      if t[j] != x { assert t[j] in s[1..]; }
    }
  }

  lemma {:induction false} InsertBySorts<T>(x: T, s: seq<T>, key: T -> string)
    requires SortedBy(s, key)
    ensures SortedBy(InsertBy(x, s, key), key)
    ensures multiset(InsertBy(x, s, key)) == multiset(s) + multiset{x}
  {
    if s == [] || AtMost(key(x), key(s[0])) {
      InsertFront(x, s, key);
    } else {
      InsertBySorts(x, s[1..], key);
      InsertBehind(x, s, InsertBy(x, s[1..], key), key);
    }
  }

  lemma LastSplit<T>(s: seq<T>)
    requires s != []
    ensures multiset(s) == multiset(s[..|s| - 1]) + multiset{s[|s| - 1]}
  {
    assert s == s[..|s| - 1] + [s[|s| - 1]];
  }

  lemma FirstSplit<T>(s: seq<T>)
    requires s != []
    ensures multiset(s[1..]) == multiset(s) - multiset{s[0]}
  {
    assert s == [s[0]] + s[1..];
  }

  lemma {:induction false} SortBySorts<T>(s: seq<T>, key: T -> string)
    ensures SortedBy(SortBy(s, key), key) && multiset(SortBy(s, key)) == multiset(s)
  {
    if s != [] {
      var last, rest := s[|s| - 1], s[..|s| - 1];
      SortBySorts(rest, key);
      InsertBySorts(last, SortBy(rest, key), key);
      LastSplit(s);
    }
  }

  lemma SameMembers<T>(s: seq<T>, t: seq<T>)
    requires multiset(s) == multiset(t)
    ensures |s| == |t| && forall x :: x in s <==> x in t
  {
    assert |multiset(s)| == |multiset(t)|;
    assert forall x :: x in s <==> x in multiset(s);
    assert forall x :: x in t <==> x in multiset(t);
  }

  lemma SortByKeeps<T>(s: seq<T>, key: T -> string)
    ensures |SortBy(s, key)| == |s| && forall x :: x in SortBy(s, key) <==> x in s
  {
    SortBySorts(s, key);
    SameMembers(SortBy(s, key), s);
  }

  // Records apart by key have one sorted arrangement.
  lemma {:induction false} SortedByUnique<T>(s: seq<T>, t: seq<T>, key: T -> string)
    requires SortedBy(s, key) && SortedBy(t, key) && multiset(s) == multiset(t)
    requires forall x, y :: x in s && y in s && key(x) == key(y) ==> x == y
    ensures s == t
  {
    SameMembers(s, t);
    if s != [] {
      FirstOfSorted(s, t, key);
      FirstSplit(s);
      FirstSplit(t);
      SortedByUnique(s[1..], t[1..], key);
      assert s == [s[0]] + s[1..] && t == [t[0]] + t[1..];
    }
  }

  lemma ApartMultiset<T>(s: seq<T>, key: T -> string)
    requires KeyedApart(s, key)
    ensures forall x :: multiset(s)[x] == if x in s then 1 else 0
  {
    assert Distinct(s);
    DistinctIsMultiset(s);
    forall x
      ensures multiset(s)[x] == if x in s then 1 else 0
    {
      assert x in s <==> x in multiset(s);
    }
  }

  lemma OneArrangement<T>(s: seq<T>, t: seq<T>, key: T -> string)
    requires SortedBy(s, key) && KeyedApart(s, key) && SortedBy(t, key) && KeyedApart(t, key)
    requires forall x :: x in s <==> x in t
    ensures s == t
  {
    ApartMultiset(s, key);
    ApartMultiset(t, key);
    assert multiset(s) == multiset(t);
    forall x, y | x in s && y in s && key(x) == key(y)
      ensures x == y
    {
      var i :| 0 <= i < |s| && s[i] == x;
      var j :| 0 <= j < |s| && s[j] == y;
      KeyDecides(s, key, i, j);
    }
    SortedByUnique(s, t, key);
  }

  lemma FirstOfSorted<T>(s: seq<T>, t: seq<T>, key: T -> string)
    requires s != [] && t != [] && SortedBy(s, key) && SortedBy(t, key) && forall x :: x in s <==> x in t
    requires forall x, y :: x in s && y in s && key(x) == key(y) ==> x == y
    ensures s[0] == t[0]
  {
    assert s[0] in t && t[0] in s;
    if Less(key(s[0]), key(t[0])) {
      LessAsymmetric(key(s[0]), key(t[0]));
    }
  }

  // Sorting commutes with a mapping that keeps the keys.
  lemma {:induction false} InsertCommutes<T, U>(f: T -> U, x: T, s: seq<T>, key: T -> string, image: U -> string)
    requires forall y :: image(f(y)) == key(y)
    ensures InsertBy(f(x), Map(f, s), image) == Map(f, InsertBy(x, s, key))
  {
    if s != [] && !AtMost(key(x), key(s[0])) {
      InsertCommutes(f, x, s[1..], key, image);
      assert Map(f, s)[1..] == Map(f, s[1..]);
    }
  }

  lemma {:induction false} SortCommutes<T, U>(f: T -> U, s: seq<T>, key: T -> string, image: U -> string)
    requires forall y :: image(f(y)) == key(y)
    ensures SortBy(Map(f, s), image) == Map(f, SortBy(s, key))
  {
    if s != [] {
      SortCommutes(f, s[..|s| - 1], key, image);
      assert Map(f, s)[..|s| - 1] == Map(f, s[..|s| - 1]);
      InsertCommutes(f, s[|s| - 1], SortBy(s[..|s| - 1], key), key, image);
    }
  }

  // Being apart does not depend on the arrangement.
  lemma KeyedApartKept<T>(s: seq<T>, t: seq<T>, key: T -> string)
    requires KeyedApart(s, key) && multiset(s) == multiset(t)
    ensures KeyedApart(t, key)
  {
    SameMembers(s, t);
    assert Distinct(s);
    DistinctIsMultiset(s);
    MultisetIsDistinct(t);
    forall i, j | 0 <= i < j < |t|
      ensures key(t[i]) != key(t[j])
    {
      assert t[i] in s && t[j] in s && t[i] != t[j];
    }
  }
}
