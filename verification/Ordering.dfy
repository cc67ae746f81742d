/** The byte-wise order of strings and the sorting of string slices. */
module Ordering {

  // Strings are compared element by element from the left; a proper prefix comes first.
  predicate Less(a: string, b: string) {
    LessFrom(a, b, 0)
  }

  // The comparison of what follows the first i elements.
  predicate LessFrom(a: string, b: string, i: nat)
    decreases |b| - i
  {
    i < |b| && (i >= |a| || a[i] < b[i] || (a[i] == b[i] && LessFrom(a, b, i + 1)))
  }

  predicate AtMost(a: string, b: string) {
    a == b || Less(a, b)
  }

  lemma {:induction false} TotalFrom(a: string, b: string, i: nat)
    requires i <= |a| && i <= |b| && a[..i] == b[..i]
    ensures LessFrom(a, b, i) || a == b || LessFrom(b, a, i)
    decreases |b| - i
  {
    if i < |a| && i < |b| && a[i] == b[i] {
      assert a[..i + 1] == a[..i] + [a[i]] && b[..i + 1] == b[..i] + [b[i]];
      TotalFrom(a, b, i + 1);
    } else if i == |a| == |b| {
      assert a == a[..i] && b == b[..i];
    }
  }

  lemma LessTotal(a: string, b: string)
    ensures Less(a, b) || a == b || Less(b, a)
  {
    TotalFrom(a, b, 0);
  }

  lemma {:induction false} TransitiveFrom(a: string, b: string, c: string, i: nat)
    requires LessFrom(a, b, i) && LessFrom(b, c, i)
    ensures LessFrom(a, c, i)
    decreases |c| - i
  {
    if i < |a| && a[i] == b[i] && b[i] == c[i] {
      TransitiveFrom(a, b, c, i + 1);
    }
  }

  lemma LessTransitive(a: string, b: string, c: string)
    requires Less(a, b) && Less(b, c)
    ensures Less(a, c)
  {
    TransitiveFrom(a, b, c, 0);
  }

  lemma {:induction false} IrreflexiveFrom(a: string, i: nat)
    ensures !LessFrom(a, a, i)
    decreases |a| - i
  {
    if i < |a| {
      IrreflexiveFrom(a, i + 1);
    }
  }

  lemma LessIrreflexive(a: string)
    ensures !Less(a, a)
  {
    IrreflexiveFrom(a, 0);
  }

  lemma LessAsymmetric(a: string, b: string)
    requires Less(a, b)
    ensures a != b && !Less(b, a)
  {
    LessIrreflexive(a);
    if Less(b, a) {
      LessTransitive(a, b, a);
    }
  }

  lemma AtMostTransitive(a: string, b: string, c: string)
    requires AtMost(a, b) && AtMost(b, c)
    ensures AtMost(a, c)
  {
    if Less(a, b) && Less(b, c) {
      LessTransitive(a, b, c);
    }
  }

  // a and b part at k: a ends there before b does, or has the smaller element there.
  predicate PartsAt(a: string, b: string, k: nat) {
    && k <= |a| && k < |b| && (forall i :: 0 <= i < k ==> a[i] == b[i])
    && (k < |a| ==> a[k] < b[k])
  }

  lemma {:induction false} LessFromIff(a: string, b: string, i: nat)
    requires i <= |a| && i <= |b| && forall m :: 0 <= m < i ==> a[m] == b[m]
    ensures LessFrom(a, b, i) <==> exists k :: i <= k && PartsAt(a, b, k)
    decreases |b| - i
  {
    if i < |a| && i < |b| && a[i] == b[i] {
      LessFromIff(a, b, i + 1);
      assert !PartsAt(a, b, i);
    } else if i < |b| && (i == |a| || a[i] < b[i]) {
      assert PartsAt(a, b, i);
    }
  }

  // The order of strings, by the first position where they part.
  lemma LessIff(a: string, b: string)
    ensures Less(a, b) <==> exists k :: 0 <= k && PartsAt(a, b, k)
  {
    LessFromIff(a, b, 0);
  }

  ghost predicate Sorted(s: seq<string>) {
    forall i, j :: 0 <= i < j < |s| ==> AtMost(s[i], s[j])
  }

  ghost predicate Distinct<T>(s: seq<T>) {
    forall i, j :: 0 <= i < j < |s| ==> s[i] != s[j]
  }

  ghost function Elems<T>(s: seq<T>): set<T> {
    set x | x in s
  }

  // A sorted sequence with x put in its place.
  function Insert(x: string, s: seq<string>): (r: seq<string>)
    requires Sorted(s)
    ensures Sorted(r) && multiset(r) == multiset(s) + multiset{x}
  {
    if s == [] then [x]
    else if AtMost(x, s[0]) then
      InsertFront(x, s);
      assert [x] + s == [x] + s[..];
      [x] + s
    else
      var t := Insert(x, s[1..]);
      InsertBehind(x, s, t);
      assert s == [s[0]] + s[1..];
      [s[0]] + t
  }

  lemma InsertFront(x: string, s: seq<string>)
    requires Sorted(s) && (s != [] ==> AtMost(x, s[0]))
    ensures Sorted([x] + s)
  {
    forall j | 0 <= j < |s|
      ensures AtMost(x, s[j])
    {
      if j > 0 { AtMostTransitive(x, s[0], s[j]); }
    }
  }

  lemma InsertBehind(x: string, s: seq<string>, t: seq<string>)
    requires Sorted(s) && s != [] && !AtMost(x, s[0])
    requires Sorted(t) && multiset(t) == multiset(s[1..]) + multiset{x}
    ensures Sorted([s[0]] + t)
  {
    LessTotal(x, s[0]);
    forall j | 0 <= j < |t|
      ensures AtMost(s[0], t[j])
    {
      assert t[j] in multiset(t);
      if t[j] != x {
        assert t[j] in s[1..];
      }
    }
  }

  // sort.Strings: the sorted rearrangement.
  function SortStrings(s: seq<string>): (r: seq<string>)
    ensures Sorted(r) && multiset(r) == multiset(s)
    ensures |r| == |s|
  {
    if s == [] then []
    else
      assert s == [s[0]] + s[1..];
      var r := Insert(s[0], SortStrings(s[1..]));
      assert |multiset(r)| == |multiset(s)|;
      r
  }

  lemma SortKeepsElements(s: seq<string>)
    ensures forall x :: x in SortStrings(s) <==> x in s
    ensures Distinct(s) ==> Distinct(SortStrings(s))
  {
    var r := SortStrings(s);
    forall x ensures x in r <==> x in s {
      assert x in multiset(r) <==> x in multiset(s);
    }
    if Distinct(s) {
      DistinctIsMultiset(s);
      MultisetIsDistinct(r);
    }
  }

  lemma {:induction false} DistinctIsMultiset<T>(s: seq<T>)
    requires Distinct(s)
    ensures forall x :: multiset(s)[x] <= 1
  {
    if s != [] {
      var t := s[..|s| - 1];
      DistinctIsMultiset(t);
      assert s == t + [s[|s| - 1]];
      assert s[|s| - 1] !in t;
    }
  }

  lemma MultisetIsDistinct<T>(s: seq<T>)
    requires forall x :: multiset(s)[x] <= 1
    ensures Distinct(s)
  {
    forall i, j | 0 <= i < j < |s|
      ensures s[i] != s[j]
    {
      CountedTwice(s, i, j);
    }
  }

  lemma CountedTwice<T>(s: seq<T>, i: nat, j: nat)
    requires i < j < |s|
    ensures s[i] == s[j] ==> multiset(s)[s[i]] >= 2
  {
    assert s == s[..j] + s[j..];
    assert s[i] in s[..j] && s[j] in s[j..];
  }

  // Two sorted repetition-free sequences with the same elements are equal.
  lemma {:induction false} SortedUnique(s: seq<string>, t: seq<string>)
    requires Sorted(s) && Distinct(s) && Sorted(t) && Distinct(t)
    requires forall x :: x in s <==> x in t
    ensures s == t
  {
    assert s != [] ==> s[0] in t;
    assert t != [] ==> t[0] in s;
    if s != [] {
      if Less(s[0], t[0]) {
        LessAsymmetric(s[0], t[0]);
      }
      forall x
        ensures x in s[1..] <==> x in t[1..]
      {
        if x in s[1..] { assert x in t && x != t[0]; }
        if x in t[1..] { assert x in s && x != s[0]; }
      }
      SortedUnique(s[1..], t[1..]);
    }
  }

  lemma {:induction false} DistinctSize<T>(s: seq<T>)
    requires Distinct(s)
    ensures |Elems(s)| == |s|
  {
    if s != [] {
      var t := s[..|s| - 1];
      DistinctSize(t);
      assert Elems(s) == Elems(t) + {s[|s| - 1]};
      assert s[|s| - 1] !in t;
    }
  }

  // Taking x out of what is left to visit adds it to what has been visited.
  lemma Visited<T>(all: set<T>, todo: set<T>, x: T)
    requires x in todo && todo <= all
    ensures all - (todo - {x}) == (all - todo) + {x}
  {
  }

  ghost predicate IsLeast(s: set<string>, m: string) {
    m in s && forall x :: x in s ==> AtMost(m, x)
  }

  lemma {:induction false} LeastExists(s: set<string>) returns (m: string)
    requires s != {}
    ensures IsLeast(s, m)
  {
    m :| m in s;
    if s != {m} {
      var n := LeastExists(s - {m});
      LessTotal(m, n);
      var least := if Less(m, n) then m else n;
      forall x | x in s
        ensures AtMost(least, x)
      {
        if x != m { AtMostTransitive(least, n, x); }
      }
      m := least;
    }
  }

  ghost function Least(s: set<string>): (m: string)
    requires s != {}
    ensures IsLeast(s, m)
  {
    assert exists m :: IsLeast(s, m) by { var n := LeastExists(s); }
    var m :| IsLeast(s, m);
    m
  }

  // The elements of a set in ascending order.
  ghost function Ascending(s: set<string>): (r: seq<string>)
    ensures forall x :: x in r <==> x in s
  {
    if s == {} then [] else
    var rest := Ascending(s - {Least(s)});
    assert forall x :: x in rest <==> x in s - {Least(s)};
    [Least(s)] + rest
  }

  lemma {:induction false} AscendingIsSorted(s: set<string>)
    ensures Sorted(Ascending(s)) && Distinct(Ascending(s))
  {
    if s != {} {
      var t := Ascending(s - {Least(s)});
      AscendingIsSorted(s - {Least(s)});
    }
  }

  lemma SortedIsAscending(q: seq<string>, s: set<string>)
    requires Sorted(q) && Distinct(q) && forall x :: x in q <==> x in s
    ensures q == Ascending(s)
  {
    AscendingIsSorted(s);
    SortedUnique(q, Ascending(s));
  }
}
