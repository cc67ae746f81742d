/** The order of the units of a loaded snapshot: by directory, and when that is the order by form
    (exchange/snapshot.go, exchange/serialize.go, exchange/model.go). */
module SnapshotOrder {
  import opened Ordering
  import opened Taxonomy
  import opened Text
  import opened References
  import opened KeyedSort
  import opened RsfModel
  import opened RsfAssemble
  import opened RsfRoundTrip
  import opened SnapshotSource

  // ---- comparing behind a common prefix ----

  lemma {:induction false} LessSkips(p: string, a: string, b: string, i: nat)
    ensures LessFrom(p + a, p + b, |p| + i) <==> LessFrom(a, b, i)
    decreases |b| - i
  {
    if i < |a| && i < |b| && a[i] == b[i] {
      LessSkips(p, a, b, i + 1);
    }
  }

  lemma {:induction false} LessReaches(p: string, a: string, b: string, i: nat)
    requires i <= |p|
    ensures LessFrom(p + a, p + b, i) <==> LessFrom(p + a, p + b, |p|)
    decreases |p| - i
  {
    if i < |p| { LessReaches(p, a, b, i + 1); }
  }

  lemma SamePrefixLess(p: string, a: string, b: string)
    ensures Less(p + a, p + b) <==> Less(a, b)
  {
    LessReaches(p, a, b, 0);
    LessSkips(p, a, b, 0);
  }

  // The first difference decides, whatever follows.
  lemma FirstDecides(p: string, x: char, a: string, y: char, b: string)
    requires x != y
    ensures Less(p + [x] + a, p + [y] + b) <==> x < y
  {
    Regroup(p, [x], a);
    Regroup(p, [y], b);
    SamePrefixLess(p, [x] + a, [y] + b);
  }

  // Where a and b first differ, or where one of them ends.
  lemma {:induction false} Diverge(a: string, b: string, i: nat) returns (k: nat)
    requires i <= |a| && i <= |b| && a[..i] == b[..i]
    ensures k <= |a| && k <= |b| && a[..k] == b[..k] && (k == |a| || k == |b| || a[k] != b[k])
    decreases |a| - i
  {
    if i < |a| && i < |b| && a[i] == b[i] {
      assert a[..i + 1] == a[..i] + [a[i]] && b[..i + 1] == b[..i] + [b[i]];
      k := Diverge(a, b, i + 1);
    } else {
      k := i;
    }
  }

  // Neither string is a prefix of the other: their comparison does not depend on what follows.
  lemma TailsDoNotMatter(a: string, r: string, s: string, b: string, r': string, s': string)
    requires !(a <= b) && !(b <= a)
    ensures Less(a + r, b + r') <==> Less(a + s, b + s')
  {
    var k := Diverge(a, b, 0);
    Unfolded(a, k, r);
    Unfolded(a, k, s);
    Unfolded(b, k, r');
    Unfolded(b, k, s');
    FirstDecides(a[..k], a[k], a[k + 1..] + r, b[k], b[k + 1..] + r');
    FirstDecides(a[..k], a[k], a[k + 1..] + s, b[k], b[k + 1..] + s');
  }

  lemma Unfolded(a: string, k: nat, r: string)
    requires k < |a|
    ensures a + r == a[..k] + [a[k]] + (a[k + 1..] + r)
  {
  }

  // Strings that a separator closes are never prefixes of each other.
  lemma ClosedApart(a: string, b: string, sep: char)
    requires sep !in a && sep !in b
    ensures a + [sep] <= b + [sep] ==> a == b
  {
    var x, y := a + [sep], b + [sep];
    assert x[|a|] == sep && forall k :: 0 <= k < |a| ==> x[k] == a[k];
    assert forall k :: 0 <= k < |b| ==> y[k] == b[k] && b[k] in b;
    if |a| < |b| {
      assert b[|a|] in b && y[|a|] == b[|a|];
    } else if |a| == |b| && x <= y {
      assert x == y && a == x[..|a|] && b == y[..|b|];
    }
  }

  // ---- directories against forms ----

  // What follows the type in a directory, and in a form.
  function DirTail(id: string, version: int): string {
    id + "-v" + Itoa(version)
  }

  function FormTail(id: string, version: int): string {
    id + ":" + Itoa(version)
  }

  lemma DirShape(i: Identity)
    ensures UnitDirName(i) == "units/" + ((i.ns + "/") + (Spelling(i.typ) + ("-" + DirTail(i.id, i.version))))
  {
  }

  lemma FormShape(i: Identity)
    ensures CanonicalForm(i) == (i.ns + "/") + (Spelling(i.typ) + (":" + FormTail(i.id, i.version)))
  {
  }

  // j's ID continues i's with a character between '-' and ':', or with a '-' behind which the directories still
  // put i first.
  predicate Overtakes(i: RawIdentity, j: RawIdentity) {
    && i.ns == j.ns && i.typ == j.typ && |i.id| < |j.id| && i.id <= j.id
    && var c, t := j.id[|i.id|], j.id[|i.id| + 1..];
       '-' < c < ':' || (c == '-' && Less("v" + Itoa(i.version), t + "-v" + Itoa(j.version)))
  }

  predicate OrdersAgree(i: Identity, j: Identity) {
    Less(UnitDirName(i), UnitDirName(j)) <==> Less(CanonicalForm(i), CanonicalForm(j))
  }

  // The directory puts i first, the form j.
  predicate Swapped(i: Identity, j: Identity) {
    Less(UnitDirName(i), UnitDirName(j)) && Less(CanonicalForm(j), CanonicalForm(i))
  }

  lemma OtherNamespace(i: Identity, j: Identity)
    requires WellFormed(i) && WellFormed(j) && i.ns != j.ns
    ensures OrdersAgree(i, j)
  {
    ClosedApart(i.ns, j.ns, '/');
    ClosedApart(j.ns, i.ns, '/');
    DirShape(i);
    DirShape(j);
    FormShape(i);
    FormShape(j);
    var r, r' := Spelling(i.typ) + ("-" + DirTail(i.id, i.version)), Spelling(j.typ) + ("-" + DirTail(j.id, j.version));
    var s, s' := Spelling(i.typ) + (":" + FormTail(i.id, i.version)), Spelling(j.typ) + (":" + FormTail(j.id, j.version));
    SamePrefixLess("units/", (i.ns + "/") + r, (j.ns + "/") + r');
    TailsDoNotMatter(i.ns + "/", r, s, j.ns + "/", r', s');
  }

  lemma OtherType(i: Identity, j: Identity)
    requires i.ns == j.ns && i.typ != j.typ
    ensures OrdersAgree(i, j)
  {
    if Spelling(i.typ) <= Spelling(j.typ) { SpellingsPrefixFree(i.typ, j.typ); }
    if Spelling(j.typ) <= Spelling(i.typ) { SpellingsPrefixFree(j.typ, i.typ); }
    SameNamespace(i, j);
    TailsDoNotMatter(Spelling(i.typ), "-" + DirTail(i.id, i.version), ":" + FormTail(i.id, i.version),
                     Spelling(j.typ), "-" + DirTail(j.id, j.version), ":" + FormTail(j.id, j.version));
  }

  lemma SameNamespace(i: Identity, j: Identity)
    requires i.ns == j.ns
    ensures Less(UnitDirName(i), UnitDirName(j)) <==>
            Less(Spelling(i.typ) + ("-" + DirTail(i.id, i.version)), Spelling(j.typ) + ("-" + DirTail(j.id, j.version)))
    ensures Less(CanonicalForm(i), CanonicalForm(j)) <==>
            Less(Spelling(i.typ) + (":" + FormTail(i.id, i.version)), Spelling(j.typ) + (":" + FormTail(j.id, j.version)))
  {
    DirShape(i);
    DirShape(j);
    FormShape(i);
    FormShape(j);
    var r, r' := Spelling(i.typ) + ("-" + DirTail(i.id, i.version)), Spelling(j.typ) + ("-" + DirTail(j.id, j.version));
    SamePrefixLess("units/", (i.ns + "/") + r, (j.ns + "/") + r');
    SamePrefixLess(i.ns + "/", r, r');
    SamePrefixLess(i.ns + "/", Spelling(i.typ) + (":" + FormTail(i.id, i.version)),
                   Spelling(j.typ) + (":" + FormTail(j.id, j.version)));
  }

  lemma SameType(i: Identity, j: Identity)
    requires i.ns == j.ns && i.typ == j.typ
    ensures Less(UnitDirName(i), UnitDirName(j)) <==> Less(DirTail(i.id, i.version), DirTail(j.id, j.version))
    ensures Less(CanonicalForm(i), CanonicalForm(j)) <==> Less(FormTail(i.id, i.version), FormTail(j.id, j.version))
  {
    SameNamespace(i, j);
    SamePrefixLess(Spelling(i.typ), "-" + DirTail(i.id, i.version), "-" + DirTail(j.id, j.version));
    SamePrefixLess(Spelling(i.typ), ":" + FormTail(i.id, i.version), ":" + FormTail(j.id, j.version));
    SamePrefixLess("-", DirTail(i.id, i.version), DirTail(j.id, j.version));
    SamePrefixLess(":", FormTail(i.id, i.version), FormTail(j.id, j.version));
  }

  // IDs of which neither continues the other.
  lemma ApartIds(a: string, n: int, b: string, n': int)
    requires !(a <= b) && !(b <= a)
    ensures Less(DirTail(a, n), DirTail(b, n')) <==> Less(FormTail(a, n), FormTail(b, n'))
  {
    Regroup(a, "-v", Itoa(n));
    Regroup(b, "-v", Itoa(n'));
    Regroup(a, ":", Itoa(n));
    Regroup(b, ":", Itoa(n'));
    TailsDoNotMatter(a, "-v" + Itoa(n), ":" + Itoa(n), b, "-v" + Itoa(n'), ":" + Itoa(n'));
  }

  lemma SameIds(a: string, n: int, n': int)
    ensures Less(DirTail(a, n), DirTail(a, n')) <==> Less(FormTail(a, n), FormTail(a, n'))
  {
    SamePrefixLess(a + "-v", Itoa(n), Itoa(n'));
    SamePrefixLess(a + ":", Itoa(n), Itoa(n'));
  }

  lemma DirTailSplits(p: string, t: string, n: int)
    ensures DirTail(p + t, n) == p + (t + "-v" + Itoa(n))
  {
    Regroup(p, t, "-v");
    Regroup(p, t + "-v", Itoa(n));
  }

  lemma FormTailSplits(p: string, t: string, n: int)
    ensures FormTail(p + t, n) == p + (t + ":" + Itoa(n))
  {
    Regroup(p, t, ":");
    Regroup(p, t + ":", Itoa(n));
  }

  lemma DirTailHyphen(a: string, n: int)
    ensures DirTail(a, n) == a + ['-'] + ("v" + Itoa(n))
  {
    assert "-v" == ['-'] + "v";
    Regroup(a, ['-'], "v");
    Regroup(a + ['-'], "v", Itoa(n));
  }

  // b continues a with c: the directory compares '-' with c, the form ':'.
  lemma ContinuedIds(a: string, n: int, c: char, t: string, n': int)
    requires c != ':'
    ensures var b := a + [c] + t;
            && (Less(FormTail(a, n), FormTail(b, n')) <==> ':' < c)
            && (Less(DirTail(a, n), DirTail(b, n')) <==>
                  if c == '-' then Less("v" + Itoa(n), t + "-v" + Itoa(n')) else '-' < c)
  {
    ContinuedForm(a, n, c, t, n');
    ContinuedDir(a, n, c, t, n');
  }

  lemma ContinuedForm(a: string, n: int, c: char, t: string, n': int)
    requires c != ':'
    ensures Less(FormTail(a, n), FormTail(a + [c] + t, n')) <==> ':' < c
  {
    FormTailSplits(a + [c], t, n');
    assert ":" == [':'];
    FirstDecides(a, ':', Itoa(n), c, t + ":" + Itoa(n'));
  }

  lemma ContinuedDir(a: string, n: int, c: char, t: string, n': int)
    ensures Less(DirTail(a, n), DirTail(a + [c] + t, n')) <==>
            if c == '-' then Less("v" + Itoa(n), t + "-v" + Itoa(n')) else '-' < c
  {
    DirTailSplits(a + [c], t, n');
    DirTailHyphen(a, n);
    if c == '-' {
      SamePrefixLess(a + ['-'], "v" + Itoa(n), t + "-v" + Itoa(n'));
    } else {
      FirstDecides(a, '-', "v" + Itoa(n), c, t + "-v" + Itoa(n'));
    }
  }

  lemma PlainIdentity(i: Identity)
    requires WellFormed(i)
    ensures ':' !in i.id && '/' !in i.id && '/' !in i.ns
  {
  }

  lemma LessDecides(a: string, b: string)
    requires a != b
    ensures Less(a, b) <==> !Less(b, a)
  {
    LessTotal(a, b);
    if Less(a, b) { LessAsymmetric(a, b); }
  }

  // j's ID properly continues i's.
  lemma ContinuedSwapIff(i: Identity, j: Identity)
    requires WellFormed(i) && WellFormed(j) && i.ns == j.ns && i.typ == j.typ && |i.id| < |j.id| && i.id <= j.id
    ensures OrdersAgree(i, j) <==> !Overtakes(Raw(i), Raw(j))
    ensures Overtakes(Raw(i), Raw(j)) ==> Less(UnitDirName(i), UnitDirName(j)) && !Less(CanonicalForm(i), CanonicalForm(j))
  {
    var c, t := j.id[|i.id|], j.id[|i.id| + 1..];
    PlainIdentity(j);
    assert c in j.id;
    assert j.id == i.id + [c] + t;
    SameType(i, j);
    ContinuedIds(i.id, i.version, c, t, j.version);
  }

  lemma DistinctIdentities(i: Identity, j: Identity)
    requires WellFormed(i) && WellFormed(j) && i != j
    ensures UnitDirName(i) != UnitDirName(j) && CanonicalForm(i) != CanonicalForm(j)
  {
    PlainIdentity(i);
    PlainIdentity(j);
    if UnitDirName(i) == UnitDirName(j) { UnitDirInjective(i, j); }
    WellFormedIsPrintable(i);
    WellFormedIsPrintable(j);
    if CanonicalForm(i) == CanonicalForm(j) { CanonicalFormInjective(i, j); }
  }

  // The two orders disagree on well-formed identities exactly when one overtakes the other.
  lemma SwappedIff(i: Identity, j: Identity)
    requires WellFormed(i) && WellFormed(j) && i != j
    ensures Swapped(i, j) <==> Overtakes(Raw(i), Raw(j))
  {
    DistinctIdentities(i, j);
    LessDecides(UnitDirName(i), UnitDirName(j));
    LessDecides(CanonicalForm(i), CanonicalForm(j));
    if i.ns != j.ns {
      OtherNamespace(i, j);
    } else if i.typ != j.typ {
      OtherType(i, j);
      if Spelling(i.typ) == Spelling(j.typ) { SpellingInjective(i.typ, j.typ); }
    } else {
      SameTypeSwapIff(i, j);
    }
  }

  lemma SameTypeSwapIff(i: Identity, j: Identity)
    requires WellFormed(i) && WellFormed(j) && i != j && i.ns == j.ns && i.typ == j.typ
    requires UnitDirName(i) != UnitDirName(j) && CanonicalForm(i) != CanonicalForm(j)
    ensures Swapped(i, j) <==> Overtakes(Raw(i), Raw(j))
  {
    LessDecides(UnitDirName(i), UnitDirName(j));
    LessDecides(CanonicalForm(i), CanonicalForm(j));
    if i.id == j.id {
      SameType(i, j);
      SameIds(i.id, i.version, j.version);
    } else if i.id <= j.id {
      ContinuedSwapIff(i, j);
    } else if j.id <= i.id {
      ContinuedSwapIff(j, i);
    } else {
      SameType(i, j);
      ApartIds(i.id, i.version, j.id, j.version);
    }
  }

  // ---- whole snapshots ----

  ghost predicate NoneOvertakes(units: seq<PackedUnit>) {
    forall u, v :: u in units && v in units ==> !Overtakes(u.doc.identity, v.doc.identity)
  }

  lemma UnitsSwapIff(u: PackedUnit, v: PackedUnit)
    requires IsProper(u) && IsProper(v) && u.doc.identity != v.doc.identity
    ensures UnitDir()(u) != UnitDir()(v) && FormOf()(u) != FormOf()(v)
    ensures Less(UnitDir()(u), UnitDir()(v)) && Less(FormOf()(v), FormOf()(u)) <==>
            Overtakes(u.doc.identity, v.doc.identity)
  {
    var i :| IsUnitOf(u, i);
    var j :| IsUnitOf(v, j);
    RawIsCanonical(i);
    RawIsCanonical(j);
    DistinctIdentities(i, j);
    SwappedIff(i, j);
  }

  lemma LaterUnit(units: seq<PackedUnit>, p: nat, q: nat)
    requires SortedBy(units, UnitDir()) && WellFormedUnits(units) && NoneOvertakes(units) && p < q < |units|
    ensures AtMost(FormOf()(units[p]), FormOf()(units[q]))
  {
    assert units[p] in units && units[q] in units;
    UnitsSwapIff(units[p], units[q]);
    assert AtMost(UnitDir()(units[p]), UnitDir()(units[q]));
    LessTotal(FormOf()(units[p]), FormOf()(units[q]));
  }

  lemma SortedBefore(units: seq<PackedUnit>, key: PackedUnit -> string, p: nat, q: nat)
    requires SortedBy(units, key) && p < |units| && q < |units| && Less(key(units[p]), key(units[q]))
    ensures p < q
  {
    LessAsymmetric(key(units[p]), key(units[q]));
  }

  lemma OvertakenUnit(units: seq<PackedUnit>, u: PackedUnit, v: PackedUnit)
    requires SortedBy(units, UnitDir()) && WellFormedUnits(units) && u in units && v in units
    requires Overtakes(u.doc.identity, v.doc.identity)
    ensures !SortedBy(units, FormOf())
  {
    var p :| 0 <= p < |units| && units[p] == u;
    var q :| 0 <= q < |units| && units[q] == v;
    UnitsSwapIff(u, v);
    SortedBefore(units, UnitDir(), p, q);
    LessAsymmetric(FormOf()(v), FormOf()(u));
    assert !AtMost(FormOf()(units[p]), FormOf()(units[q]));
  }

  // Units in the order of their directories are in the order of their forms exactly when no identity overtakes
  // another.
  lemma DirectoryOrderIsFormOrderIff(units: seq<PackedUnit>)
    requires SortedBy(units, UnitDir()) && WellFormedUnits(units)
    ensures SortedBy(units, FormOf()) <==> NoneOvertakes(units)
  {
    if NoneOvertakes(units) {
      forall p, q | 0 <= p < q < |units|
        ensures AtMost(FormOf()(units[p]), FormOf()(units[q]))
      {
        LaterUnit(units, p, q);
      }
    } else {
      var u, v :| u in units && v in units && Overtakes(u.doc.identity, v.doc.identity);
      OvertakenUnit(units, u, v);
    }
  }

  lemma ApartByDirectory(units: seq<PackedUnit>)
    requires KeyedApart(units, UnitDir())
    ensures IdentitiesApart(units)
  {
    forall i, j | 0 <= i < j < |units|
      ensures units[i].doc.identity != units[j].doc.identity
    {
      assert UnitDir()(units[i]) != UnitDir()(units[j]);
    }
  }

  // Any snapshot that loads, of units as the exporter writes them.
  lemma LoadedInFormOrderIff(c: Codec, m: Entries, s: SourceSnapshot)
    requires LoadsSource(c, m, s) && forall u :: u in s.units ==> IsProper(u)
    ensures SortedBy(s.units, FormOf()) <==> NoneOvertakes(s.units)
  {
    ApartByDirectory(s.units);
    DirectoryOrderIsFormOrderIff(s.units);
  }

  // ---- what an emitted snapshot loads as ----

  // A snapshot loads in one way.
  lemma LoadedOnce(c: Codec, m: Entries, s: SourceSnapshot, t: SourceSnapshot)
    requires LoadsSource(c, m, s) && LoadsSource(c, m, t)
    ensures s == t
  {
    assert forall u :: u in s.units <==> u in t.units;
    assert forall a :: a in s.attachments <==> a in t.attachments;
    OneArrangement(s.units, t.units, UnitDir());
    OneArrangement(s.attachments, t.attachments, IdOf());
  }

  // What the exporter emitted comes back in the order of the forms exactly when no identity overtakes another.
  lemma EmittedInFormOrderIff(c: Codec, hash: Hash, b: Built, s: SourceSnapshot)
    requires Lossless(c) && WellFormedBuilt(b) && b.scope != "" && forall a :: a in b.attachments ==> a.id != ""
    requires LoadsSource(c, SourceEntries(c, hash, b), s)
    ensures s == BuiltSnapshot(c, hash, b)
    ensures SortedBy(s.units, FormOf()) <==> NoneOvertakes(b.units)
  {
    SourceRoundTripIff(c, hash, b);
    LoadedOnce(c, SourceEntries(c, hash, b), s, BuiltSnapshot(c, hash, b));
    ByDirectoryKeeps(b);
    DirectoryOrderIsFormOrderIff(ByDirectory(b));
  }

  lemma ByDirectoryKeeps(b: Built)
    requires WellFormedUnits(b.units)
    ensures SortedBy(ByDirectory(b), UnitDir()) && WellFormedUnits(ByDirectory(b))
    ensures NoneOvertakes(ByDirectory(b)) <==> NoneOvertakes(b.units)
  {
    UnitsApart(b.units);
    SortBySorts(b.units, UnitDir());
    SortByKeeps(b.units, UnitDir());
    KeyedApartKept(b.units, ByDirectory(b), UnitDir());
    ApartByDirectory(ByDirectory(b));
  }

  // ---- a snapshot out of order ----

  const SHORT := RawIdentity("n", "sto", "a", 1)
  const LONGER := RawIdentity("n", "sto", "a0", 1)

  // A package of two stories, a and a0: it loads with a before a0, although the form of a0 is the lesser.
  function TwoStories(): Built {
    Built("full", Label("full", "n", SERIALIZATION), "n", [], [StoryUnit(SHORT), StoryUnit(LONGER)], [], [])
  }

  function StoryUnit(i: RawIdentity): PackedUnit {
    PackedUnit(UnitDoc(i, RawForm(i), 1, STRUCTURED_TEXT, "content", ""), "")
  }

  lemma StoryIsProper(i: Identity)
    requires WellFormed(i)
    ensures IsUnitOf(StoryUnit(Raw(i)), i)
  {
    RawIsCanonical(i);
  }

  lemma ProperPair(u: PackedUnit, v: PackedUnit)
    requires IsProper(u) && IsProper(v) && u.doc.identity != v.doc.identity
    ensures WellFormedUnits([u, v])
  {
  }

  lemma BothProper()
    ensures IsProper(StoryUnit(SHORT)) && IsProper(StoryUnit(LONGER))
  {
    var i, j := Identity("n", Sto, "a", 1), Identity("n", Sto, "a0", 1);
    assert WellFormed(i) && WellFormed(j);
    StoryIsProper(i);
    StoryIsProper(j);
  }

  lemma TwoStoriesWellFormed()
    ensures WellFormedBuilt(TwoStories()) && AttachmentsPlain(TwoStories())
  {
    BothProper();
    assert SHORT.id != LONGER.id;
    ProperPair(StoryUnit(SHORT), StoryUnit(LONGER));
  }

  // Every well-formed package with these two identities comes back out of order.
  lemma HoldingBothIsOutOfOrder(c: Codec, hash: Hash, b: Built, u: PackedUnit, v: PackedUnit)
    requires WellFormedBuilt(b) && u in b.units && v in b.units
    requires u.doc.identity == SHORT && v.doc.identity == LONGER
    ensures !SortedBy(BuiltSnapshot(c, hash, b).units, FormOf())
  {
    assert Overtakes(SHORT, LONGER);
    ByDirectoryKeeps(b);
    DirectoryOrderIsFormOrderIff(ByDirectory(b));
  }

  lemma DirectoryOrderIsNotFormOrder(c: Codec, hash: Hash)
    requires Lossless(c)
    ensures LoadsSource(c, SourceEntries(c, hash, TwoStories()), BuiltSnapshot(c, hash, TwoStories()))
    ensures !SortedBy(BuiltSnapshot(c, hash, TwoStories()).units, FormOf())
  {
    var b := TwoStories();
    TwoStoriesWellFormed();
    assert b.scope == "full" && b.attachments == [] && StoryUnit(SHORT) in b.units && StoryUnit(LONGER) in b.units;
    SourceRoundTripIff(c, hash, b);
    HoldingBothIsOutOfOrder(c, hash, b, StoryUnit(SHORT), StoryUnit(LONGER));
  }
}
