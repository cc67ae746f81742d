/** Loading what was assembled gives back the package (exchange/serialize.go, exchange/deserialize.go). */
module RsfRoundTrip {
  import opened Ordering
  import opened Taxonomy
  import opened References
  import opened KeyedSort
  import opened RsfModel
  import opened RsfAssemble
  import opened RsfLoad

  // ---- well-formed packages ----

  ghost predicate IsUnitOf(u: PackedUnit, i: Identity) {
    && WellFormed(i) && u.doc.identity == Raw(i) && u.doc.form == CanonicalForm(i)
    && u.doc.file == "content" && (u.doc.representation == STRUCTURED_TEXT || u.doc.representation == STRUCTURED_JSON)
  }

  ghost predicate IsProper(u: PackedUnit) {
    exists i :: IsUnitOf(u, i)
  }

  ghost predicate IdentitiesApart(units: seq<PackedUnit>) {
    forall i, j :: 0 <= i < j < |units| ==> units[i].doc.identity != units[j].doc.identity
  }

  ghost predicate WellFormedUnits(units: seq<PackedUnit>) {
    IdentitiesApart(units) && forall u :: u in units ==> IsProper(u)
  }

  ghost predicate WellFormedBuilt(b: Built) {
    WellFormedUnits(b.units) && KeyedApart(b.attachments, IdOf()) && b.packageLabel == Label(b.scope, b.ns, SERIALIZATION)
  }

  function UnitDir(): PackedUnit -> string {
    (u: PackedUnit) => RawDir(u.doc.identity)
  }

  lemma RawIsCanonical(i: Identity)
    ensures RawForm(Raw(i)) == CanonicalForm(i) && RawDir(Raw(i)) == UnitDirName(i)
  {
  }

  lemma ProperUnitsApart(u: PackedUnit, v: PackedUnit)
    requires IsProper(u) && IsProper(v) && u.doc.identity != v.doc.identity
    ensures UnitDir()(u) != UnitDir()(v) && u.doc.form != v.doc.form
  {
    var i :| IsUnitOf(u, i);
    var j :| IsUnitOf(v, j);
    RawIsCanonical(i);
    RawIsCanonical(j);
    if UnitDirName(i) == UnitDirName(j) {
      NamespaceHasNoSlash(i);
      NamespaceHasNoSlash(j);
      UnitDirInjective(i, j);
    }
    if CanonicalForm(i) == CanonicalForm(j) {
      WellFormedIsPrintable(i);
      WellFormedIsPrintable(j);
      CanonicalFormInjective(i, j);
    }
  }

  lemma NamespaceHasNoSlash(i: Identity)
    requires WellFormed(i)
    ensures '/' !in i.ns
  {
  }

  // Directories and forms tell the units of a well-formed package apart.
  lemma UnitsApart(units: seq<PackedUnit>)
    requires WellFormedUnits(units)
    ensures KeyedApart(units, UnitDir()) && KeyedApart(units, FormOf())
  {
    forall i, j | 0 <= i < j < |units|
      ensures UnitDir()(units[i]) != UnitDir()(units[j]) && FormOf()(units[i]) != FormOf()(units[j])
    {
      assert units[i] in units && units[j] in units;
      ProperUnitsApart(units[i], units[j]);
    }
  }

  // ---- the entries of units and attachments ----

  lemma NamesApart(d: string, e: string)
    ensures DocName(d) != ContentName(e)
    ensures d != e ==> DocName(d) != DocName(e) && ContentName(d) != ContentName(e)
  {
    assert DocName(d)[|DocName(d)| - 1] == 'n' && ContentName(e)[|ContentName(e)| - 1] == 't';
    if DocName(d) == DocName(e) {
      assert DocName(d)[..|d|] == d && DocName(e)[..|e|] == e;
    }
    if ContentName(d) == ContentName(e) {
      assert ContentName(d)[..|d|] == d && ContentName(e)[..|e|] == e;
    }
  }

  ghost predicate Stored(c: Codec, m: Entries, u: PackedUnit) {
    var d := UnitDir()(u);
    DocName(d) in m && m[DocName(d)] == c.putUnit(u.doc) && ContentName(d) in m && m[ContentName(d)] == u.content
  }

  ghost predicate NamedBy(n: string, u: PackedUnit) {
    n == DocName(UnitDir()(u)) || n == ContentName(UnitDir()(u))
  }

  lemma StoresLast(c: Codec, units: seq<PackedUnit>)
    requires units != []
    ensures Stored(c, UnitEntries(c, units), units[|units| - 1])
  {
    var dir := UnitDir()(units[|units| - 1]);
    NamesApart(dir, dir);
  }

  // Storing a unit of another directory leaves u stored.
  lemma StaysStored(c: Codec, units: seq<PackedUnit>, u: PackedUnit)
    requires units != [] && Stored(c, UnitEntries(c, units[..|units| - 1]), u)
    requires UnitDir()(u) != UnitDir()(units[|units| - 1])
    ensures Stored(c, UnitEntries(c, units), u)
  {
    var dir, last := UnitDir()(u), UnitDir()(units[|units| - 1]);
    NamesApart(dir, last);
    NamesApart(last, dir);
  }

  lemma {:induction false} UnitsStored(c: Codec, units: seq<PackedUnit>)
    requires KeyedApart(units, UnitDir())
    ensures forall i :: 0 <= i < |units| ==> Stored(c, UnitEntries(c, units), units[i])
  {
    if units != [] {
      var rest := units[..|units| - 1];
      UnitsStored(c, rest);
      StoresLast(c, units);
      forall i | 0 <= i < |rest|
        ensures Stored(c, UnitEntries(c, units), units[i])
      {
        assert Stored(c, UnitEntries(c, rest), rest[i]);
        KeysDiffer(units, UnitDir(), i, |units| - 1);
        StaysStored(c, units, units[i]);
      }
    }
  }

  lemma {:induction false} OnlyUnitsNamed(c: Codec, units: seq<PackedUnit>, n: string)
    requires n in UnitEntries(c, units)
    ensures exists u :: u in units && NamedBy(n, u)
  {
    var rest, last := units[..|units| - 1], units[|units| - 1];
    if n in UnitEntries(c, rest) {
      OnlyUnitsNamed(c, rest, n);
      var u :| u in rest && NamedBy(n, u);
      assert u in units;
    } else {
      assert last in units && NamedBy(n, last);
    }
  }

  lemma UnitNamesPrefixed(n: string, u: PackedUnit)
    requires NamedBy(n, u)
    ensures UNITS <= n && SplitUnitEntry(n) == Some(UnitDir()(u))
  {
    var dir := UnitDir()(u);
    RawDirPrefix(u.doc.identity);
    assert DocName(dir) == dir + "/" + "unit.json" && ContentName(dir) == dir + "/" + "content";
    SplitsBack(dir, "unit.json");
    SplitsBack(dir, "content");
  }

  lemma AttachmentNames(a: string, b: string)
    ensures ATTACHMENTS + a == ATTACHMENTS + b <==> a == b
  {
    assert (ATTACHMENTS + a)[|ATTACHMENTS|..] == a && (ATTACHMENTS + b)[|ATTACHMENTS|..] == b;
  }

  lemma {:induction false} AttachmentsStored(attachments: seq<Attachment>)
    requires KeyedApart(attachments, IdOf())
    ensures forall i :: 0 <= i < |attachments| ==>
              && ATTACHMENTS + attachments[i].id in AttachmentEntries(attachments)
              && AttachmentEntries(attachments)[ATTACHMENTS + attachments[i].id] == attachments[i].data
  {
    if attachments != [] {
      var rest, last := attachments[..|attachments| - 1], attachments[|attachments| - 1];
      AttachmentsStored(rest);
      forall i | 0 <= i < |rest|
        ensures ATTACHMENTS + attachments[i].id != ATTACHMENTS + last.id
      {
        assert IdOf()(attachments[i]) != IdOf()(last);
        AttachmentNames(attachments[i].id, last.id);
      }
    }
  }

  lemma {:induction false} OnlyAttachmentsNamed(attachments: seq<Attachment>, n: string)
    requires n in AttachmentEntries(attachments)
    ensures exists a :: a in attachments && n == ATTACHMENTS + a.id
  {
    var rest, last := attachments[..|attachments| - 1], attachments[|attachments| - 1];
    if n in AttachmentEntries(rest) {
      OnlyAttachmentsNamed(rest, n);
      var a :| a in rest && n == ATTACHMENTS + a.id;
      assert a in attachments;
    } else {
      assert last in attachments && n == ATTACHMENTS + last.id;
    }
  }

  // ---- the assembled entry set ----

  function DigestOf(hash: Hash, content: Entries, names: seq<string>): string {
    hash(Joined(content, names))
  }

  ghost function BuiltDigest(c: Codec, hash: Hash, b: Built): string {
    var content := ContentEntries(c, b);
    DigestOf(hash, content, Ordering.Ascending(content.Keys))
  }

  ghost function BuiltBlocks(c: Codec, hash: Hash, b: Built): Blocks {
    Blocks(false, HeaderOf(b), ManifestOf(c, hash, b, BuiltDigest(c, hash, b)), DeclarationsOf(b),
           IntegrityOf(c, hash, b, BuiltDigest(c, hash, b)))
  }

  // The root entries print the blocks.
  ghost predicate PrintsBlocks(c: Codec, m: Entries, b: Blocks) {
    && HasBlocks(m)
    && m["header.json"] == c.putHeader(b.header) && m["manifest.json"] == c.putManifest(b.manifest)
    && m["declarations.json"] == c.putDeclarations(b.declarations) && m["integrity.json"] == c.putIntegrity(b.integrity)
  }

  ghost predicate HoldsUnits(c: Codec, m: Entries, units: seq<PackedUnit>) {
    && (forall i :: 0 <= i < |units| ==> Stored(c, m, units[i]))
    && (forall n :: n in m && UNITS <= n ==> exists u :: u in units && NamedBy(n, u))
  }

  ghost predicate HoldsAttachments(m: Entries, attachments: seq<Attachment>) {
    && (forall i :: 0 <= i < |attachments| ==>
          ATTACHMENTS + attachments[i].id in m && m[ATTACHMENTS + attachments[i].id] == attachments[i].data)
    && (forall n :: n in m && ATTACHMENTS <= n ==> exists a :: a in attachments && n == ATTACHMENTS + a.id)
  }

  lemma PrefixesDiffer(n: string)
    ensures !(UNITS <= n && ATTACHMENTS <= n)
    ensures IsRootEntry(n) ==> !(UNITS <= n) && !(ATTACHMENTS <= n)
  {
    if UNITS <= n { assert n[0] == UNITS[0]; }
    if ATTACHMENTS <= n { assert n[0] == ATTACHMENTS[0] && n[1] == ATTACHMENTS[1]; }
  }

  // The names of the unit and attachment entries.
  lemma EntryNames(c: Codec, b: Built, n: string)
    ensures n in UnitEntries(c, b.units) ==> UNITS <= n
    ensures n in AttachmentEntries(b.attachments) ==> ATTACHMENTS <= n
  {
    if n in UnitEntries(c, b.units) {
      OnlyUnitsNamed(c, b.units, n);
      var u :| u in b.units && NamedBy(n, u);
      UnitNamesPrefixed(n, u);
    }
    if n in AttachmentEntries(b.attachments) {
      OnlyAttachmentsNamed(b.attachments, n);
    }
  }

  // What lies under each name.
  lemma EntryAt(c: Codec, hash: Hash, b: Built, n: string)
    ensures var m := AllEntries(c, hash, b);
            && (n in m ==> IsKnownEntry(n))
            && (UNITS <= n ==> (n in m <==> n in UnitEntries(c, b.units)))
            && (UNITS <= n && n in m ==> m[n] == UnitEntries(c, b.units)[n])
            && (ATTACHMENTS <= n ==> (n in m <==> n in AttachmentEntries(b.attachments)))
            && (ATTACHMENTS <= n && n in m ==> m[n] == AttachmentEntries(b.attachments)[n])
  {
    EntryNames(c, b, n);
    PrefixesDiffer(n);
  }

  lemma ContentIsDigested(c: Codec, b: Built, n: string)
    requires n in ContentEntries(c, b)
    ensures n != "manifest.json" && n != "integrity.json"
  {
    EntryNames(c, b, n);
    PrefixesDiffer(n);
  }

  lemma DigestCoversContent(c: Codec, hash: Hash, b: Built)
    ensures PackageDigest(hash, AllEntries(c, hash, b)) == BuiltDigest(c, hash, b)
  {
    var content := ContentEntries(c, b);
    forall n | n in content
      ensures n != "manifest.json" && n != "integrity.json"
    {
      ContentIsDigested(c, b, n);
    }
    assert Digested(AllEntries(c, hash, b)) == content;
  }

  lemma BlocksPrinted(c: Codec, hash: Hash, b: Built)
    ensures PrintsBlocks(c, AllEntries(c, hash, b), BuiltBlocks(c, hash, b))
  {
  }

  lemma UnitsHeld(c: Codec, hash: Hash, b: Built)
    requires WellFormedUnits(b.units)
    ensures HoldsUnits(c, AllEntries(c, hash, b), b.units)
  {
    var m := AllEntries(c, hash, b);
    UnitsApart(b.units);
    UnitsStored(c, b.units);
    forall i | 0 <= i < |b.units|
      ensures Stored(c, m, b.units[i])
    {
      var dir := UnitDir()(b.units[i]);
      assert Stored(c, UnitEntries(c, b.units), b.units[i]);
      UnitNamesPrefixed(DocName(dir), b.units[i]);
      UnitNamesPrefixed(ContentName(dir), b.units[i]);
      EntryAt(c, hash, b, DocName(dir));
      EntryAt(c, hash, b, ContentName(dir));
    }
    forall n | n in m && UNITS <= n
      ensures exists u :: u in b.units && NamedBy(n, u)
    {
      EntryAt(c, hash, b, n);
      OnlyUnitsNamed(c, b.units, n);
    }
  }

  lemma AttachmentsHeld(c: Codec, hash: Hash, b: Built)
    requires KeyedApart(b.attachments, IdOf())
    ensures HoldsAttachments(AllEntries(c, hash, b), b.attachments)
  {
    var m := AllEntries(c, hash, b);
    AttachmentsStored(b.attachments);
    forall i | 0 <= i < |b.attachments|
      ensures && ATTACHMENTS + b.attachments[i].id in m
              && m[ATTACHMENTS + b.attachments[i].id] == b.attachments[i].data
    {
      EntryAt(c, hash, b, ATTACHMENTS + b.attachments[i].id);
    }
    forall n | n in m && ATTACHMENTS <= n
      ensures exists a :: a in b.attachments && n == ATTACHMENTS + a.id
    {
      EntryAt(c, hash, b, n);
      OnlyAttachmentsNamed(b.attachments, n);
    }
  }

  // ---- opening ----

  lemma OpensAssembled(c: Codec, hash: Hash, b: Built)
    requires Lossless(c) && WellFormedUnits(b.units)
    ensures var m := AllEntries(c, hash, b);
            Opens(c, m) && DecodeBlocks(c, m) == Some(BuiltBlocks(c, hash, b))
  {
    var m := AllEntries(c, hash, b);
    BlocksPrinted(c, hash, b);
    UnitsHeld(c, hash, b);
    forall n | n in m
      ensures IsKnownEntry(n)
    {
      EntryAt(c, hash, b, n);
    }
    SplitsAssembled(c, m, b.units);
    Decodes(c, m, BuiltBlocks(c, hash, b));
  }

  lemma Decodes(c: Codec, m: Entries, b: Blocks)
    requires Lossless(c) && PrintsBlocks(c, m, b) && !b.legacy && b.header.serialization == SERIALIZATION
    ensures DecodeBlocks(c, m) == Some(b)
  {
  }

  lemma SplitsAssembled(c: Codec, m: Entries, units: seq<PackedUnit>)
    requires HoldsUnits(c, m, units)
    ensures UnitEntriesSplit(m)
    ensures forall d :: d in UnitDirs(m) <==> exists u :: u in units && UnitDir()(u) == d
  {
    forall n | n in m && UNITS <= n
      ensures IsUnitEntry(n) && exists u :: u in units && SplitUnitEntry(n) == Some(UnitDir()(u))
    {
      var u :| u in units && NamedBy(n, u);
      UnitNamesPrefixed(n, u);
    }
    forall i | 0 <= i < |units|
      ensures UnitDir()(units[i]) in UnitDirs(m)
    {
      var name := DocName(UnitDir()(units[i]));
      assert Stored(c, m, units[i]);
      UnitNamesPrefixed(name, units[i]);
      assert name in m && IsUnitEntry(name);
    }
  }

  // ---- the units ----

  // The units in canonical order.
  function InOrder(b: Built): seq<PackedUnit> {
    SortBy(b.units, FormOf())
  }

  // The manifest lists the units in canonical order.
  lemma ManifestInOrder(c: Codec, hash: Hash, b: Built)
    ensures ManifestUnits(c, hash, b) == Map(ManifestUnitOf(c, hash), InOrder(b))
  {
    SortCommutes(ManifestUnitOf(c, hash), b.units, FormOf(), ManifestForm());
  }

  lemma OrderedUnits(b: Built)
    requires WellFormedUnits(b.units)
    ensures SortedBy(InOrder(b), FormOf()) && multiset(InOrder(b)) == multiset(b.units)
    ensures KeyedApart(InOrder(b), FormOf()) && KeyedApart(InOrder(b), UnitDir())
    ensures |InOrder(b)| == |b.units| && forall u :: u in InOrder(b) <==> u in b.units
  {
    UnitsApart(b.units);
    SortBySorts(b.units, FormOf());
    SortByKeeps(b.units, FormOf());
    KeyedApartKept(b.units, InOrder(b), FormOf());
    KeyedApartKept(b.units, InOrder(b), UnitDir());
  }

  lemma ListedDir(c: Codec, hash: Hash, u: PackedUnit)
    ensures DirOf()(ManifestUnitOf(c, hash)(u)) == UnitDir()(u)
  {
  }

  // The directories the manifest names, in its order.
  lemma ListedDirs(c: Codec, hash: Hash, us: seq<PackedUnit>)
    ensures Map(DirOf(), Map(ManifestUnitOf(c, hash), us)) == Map(UnitDir(), us)
  {
    forall i | 0 <= i < |us|
      ensures DirOf()(ManifestUnitOf(c, hash)(us[i])) == UnitDir()(us[i])
    {
      ListedDir(c, hash, us[i]);
    }
  }

  lemma ListedForms(c: Codec, hash: Hash, us: seq<PackedUnit>)
    requires KeyedApart(us, FormOf())
    ensures KeyedApart(Map(ManifestUnitOf(c, hash), us), ManifestForm())
  {
    var mus := Map(ManifestUnitOf(c, hash), us);
    forall i, j | 0 <= i < j < |mus|
      ensures ManifestForm()(mus[i]) != ManifestForm()(mus[j])
    {
      assert FormOf()(us[i]) != FormOf()(us[j]);
    }
  }

  // Distinct directories are counted once each.
  lemma EachOnce(us: seq<PackedUnit>, d: string)
    requires KeyedApart(us, UnitDir()) && exists u :: u in us && UnitDir()(u) == d
    ensures multiset(Map(UnitDir(), us))[d] == 1
  {
    var listed := Map(UnitDir(), us);
    assert Distinct(listed);
    DistinctIsMultiset(listed);
    var u :| u in us && UnitDir()(u) == d;
    var i :| 0 <= i < |us| && us[i] == u;
    assert listed[i] == d;
    assert d in multiset(listed);
  }

  lemma ListedDirKnown(c: Codec, hash: Hash, us: seq<PackedUnit>, mu: ManifestUnit)
    requires mu in Map(ManifestUnitOf(c, hash), us)
    ensures exists u :: u in us && UnitDir()(u) == DirOf()(mu)
  {
    var mus := Map(ManifestUnitOf(c, hash), us);
    var i :| 0 <= i < |mus| && mus[i] == mu;
    ListedDir(c, hash, us[i]);
    assert us[i] in us;
  }

  lemma ManifestMatchesUnits(c: Codec, hash: Hash, us: seq<PackedUnit>, dirs: set<string>)
    requires KeyedApart(us, FormOf()) && KeyedApart(us, UnitDir())
    requires forall d :: d in dirs <==> exists u :: u in us && UnitDir()(u) == d
    ensures ManifestMatches(Map(ManifestUnitOf(c, hash), us), dirs)
  {
    var mus := Map(ManifestUnitOf(c, hash), us);
    ListedForms(c, hash, us);
    ListedDirs(c, hash, us);
    forall d | d in dirs
      ensures multiset(Map(DirOf(), mus))[d] == 1
    {
      EachOnce(us, d);
    }
    forall mu | mu in mus
      ensures DirOf()(mu) in dirs
    {
      ListedDirKnown(c, hash, us, mu);
    }
  }

  lemma ProperConsistent(c: Codec, hash: Hash, u: PackedUnit)
    requires IsProper(u)
    ensures Consistent(ManifestUnitOf(c, hash)(u), u.doc)
  {
    var i :| IsUnitOf(u, i);
    RawIsCanonical(i);
  }

  lemma LoadsUnit(c: Codec, hash: Hash, m: Entries, u: PackedUnit)
    requires Lossless(c) && IsProper(u) && Stored(c, m, u)
    ensures LoadUnit(c, false, m, ManifestUnitOf(c, hash)(u)) == Some(u)
  {
    ListedDir(c, hash, u);
    ProperConsistent(c, hash, u);
    assert c.getUnit(false, c.putUnit(u.doc)) == Some(u.doc);
  }

  lemma LoadsOneMore(c: Codec, m: Entries, listed: seq<ManifestUnit>, read: seq<PackedUnit>, mu: ManifestUnit,
      u: PackedUnit)
    requires LoadUnits(c, false, m, listed) == Some(read) && LoadUnit(c, false, m, mu) == Some(u)
    ensures LoadUnits(c, false, m, listed + [mu]) == Some(read + [u])
  {
    assert (listed + [mu])[..|listed|] == listed;
  }

  lemma {:induction false} LoadsInOrder(c: Codec, hash: Hash, m: Entries, us: seq<PackedUnit>)
    requires Lossless(c) && forall i :: 0 <= i < |us| ==> IsProper(us[i]) && Stored(c, m, us[i])
    ensures LoadUnits(c, false, m, Map(ManifestUnitOf(c, hash), us)) == Some(us)
  {
    if us != [] {
      var rest, last := us[..|us| - 1], us[|us| - 1];
      LoadsInOrder(c, hash, m, rest);
      LoadsUnit(c, hash, m, last);
      LoadsOneMore(c, m, Map(ManifestUnitOf(c, hash), rest), rest, ManifestUnitOf(c, hash)(last), last);
      assert Map(ManifestUnitOf(c, hash), us) == Map(ManifestUnitOf(c, hash), rest) + [ManifestUnitOf(c, hash)(last)];
      assert us == rest + [last];
    }
  }

  // ---- the recorded digests ----

  lemma UnitDigestsAre(c: Codec, hash: Hash, units: seq<PackedUnit>)
    requires KeyedApart(units, FormOf())
    ensures |UnitDigests(c, hash, units)| == |units|
    ensures forall i :: 0 <= i < |units| ==>
              && units[i].doc.form in UnitDigests(c, hash, units)
              && UnitDigests(c, hash, units)[units[i].doc.form] == UnitHash(c, hash, units[i])
  {
    var records := Map(UnitRecord(c, hash), units);
    forall i, j | 0 <= i < j < |records|
      ensures records[i].key != records[j].key
    {
      assert FormOf()(units[i]) != FormOf()(units[j]);
    }
    ByKeyHolds(records);
    forall i | 0 <= i < |units|
      ensures && units[i].doc.form in UnitDigests(c, hash, units)
              && UnitDigests(c, hash, units)[units[i].doc.form] == UnitHash(c, hash, units[i])
    {
      assert records[i] == Recorded(units[i].doc.form, UnitHash(c, hash, units[i]));
    }
  }

  lemma {:induction false} RecordListIs(digests: map<string, string>, forms: seq<string>)
    requires forall f :: f in forms ==> f in digests
    ensures |RecordList(digests, forms)| == |forms|
    ensures forall i :: 0 <= i < |forms| ==> RecordList(digests, forms)[i] == Recorded(forms[i], digests[forms[i]])
  {
    if forms != [] { RecordListIs(digests, forms[..|forms| - 1]); }
  }

  lemma RecordListKeys(digests: map<string, string>, forms: seq<string>)
    requires Distinct(forms) && forall f :: f in forms <==> f in digests
    ensures var records := RecordList(digests, forms);
            && KeysApart(records) && KeysOf(records) == digests.Keys
            && forall i :: 0 <= i < |records| ==> records[i].key in digests && digests[records[i].key] == records[i].digest
  {
    var records := RecordList(digests, forms);
    RecordListIs(digests, forms);
    forall k | k in digests
      ensures k in KeysOf(records)
    {
      var i :| 0 <= i < |forms| && forms[i] == k;
      assert records[i] in records;
    }
  }

  // The table read back from the integrity block is the table that was recorded.
  lemma TableReadBack(digests: map<string, string>)
    ensures ByKey(RecordList(digests, Ordering.Ascending(digests.Keys))) == digests
  {
    AscendingIsSorted(digests.Keys);
    RecordListKeys(digests, Ordering.Ascending(digests.Keys));
    TableOf(digests, RecordList(digests, Ordering.Ascending(digests.Keys)));
  }

  lemma StoredHashIs(c: Codec, hash: Hash, m: Entries, u: PackedUnit)
    requires Stored(c, m, u)
    ensures StoredHash(hash, m, u) == UnitHash(c, hash, u)
  {
  }

  lemma ListedDigest(c: Codec, hash: Hash, u: PackedUnit)
    ensures ManifestUnitOf(c, hash)(u).form == FormOf()(u) == u.doc.form
    ensures ManifestUnitOf(c, hash)(u).digest == UnitHash(c, hash, u)
  {
  }

  lemma ListedOnce(c: Codec, hash: Hash, us: seq<PackedUnit>, mu: ManifestUnit, u: PackedUnit)
    requires KeyedApart(us, FormOf()) && u in us && mu in Map(ManifestUnitOf(c, hash), us) && mu.form == u.doc.form
    ensures mu.digest == UnitHash(c, hash, u)
  {
    var i :| 0 <= i < |us| && Map(ManifestUnitOf(c, hash), us)[i] == mu;
    var k :| 0 <= k < |us| && us[k] == u;
    ListedDigest(c, hash, us[i]);
    ListedDigest(c, hash, u);
    KeyDecides(us, FormOf(), i, k);
  }

  lemma ManifestAgreesOn(c: Codec, hash: Hash, us: seq<PackedUnit>, u: PackedUnit)
    requires KeyedApart(us, FormOf()) && u in us
    ensures ManifestAgrees(Map(ManifestUnitOf(c, hash), us), u.doc.form, UnitHash(c, hash, u))
  {
    forall mu | mu in Map(ManifestUnitOf(c, hash), us) && mu.form == u.doc.form
      ensures mu.digest == UnitHash(c, hash, u)
    {
      ListedOnce(c, hash, us, mu, u);
    }
  }

  lemma UnitVerifies(c: Codec, hash: Hash, m: Entries, b: Built, u: PackedUnit)
    requires WellFormedUnits(b.units) && u in b.units && Stored(c, m, u)
    ensures ManifestAgrees(ManifestUnits(c, hash, b), u.doc.form, StoredHash(hash, m, u))
    ensures RecordAgrees(UnitDigests(c, hash, b.units), u.doc.form, StoredHash(hash, m, u))
  {
    OrderedUnits(b);
    ManifestInOrder(c, hash, b);
    UnitsApart(b.units);
    UnitDigestsAre(c, hash, b.units);
    StoredHashIs(c, hash, m, u);
    var i :| 0 <= i < |b.units| && b.units[i] == u;
    ManifestAgreesOn(c, hash, InOrder(b), u);
  }

  lemma UnitDigestsVerify(c: Codec, hash: Hash, m: Entries, b: Built)
    requires WellFormedUnits(b.units) && HoldsUnits(c, m, b.units)
    ensures UnitDigestsHold(hash, m, BuiltBlocks(c, hash, b), InOrder(b))
  {
    OrderedUnits(b);
    UnitsApart(b.units);
    UnitDigestsAre(c, hash, b.units);
    TableReadBack(UnitDigests(c, hash, b.units));
    forall u | u in InOrder(b)
      ensures ManifestAgrees(ManifestUnits(c, hash, b), u.doc.form, StoredHash(hash, m, u))
      ensures RecordAgrees(UnitDigests(c, hash, b.units), u.doc.form, StoredHash(hash, m, u))
    {
      var i :| 0 <= i < |b.units| && b.units[i] == u;
      assert Stored(c, m, b.units[i]);
      UnitVerifies(c, hash, m, b, u);
    }
  }

  // ---- the attachments ----

  function AttachmentsInOrder(b: Built): seq<Attachment> {
    SortBy(b.attachments, IdOf())
  }

  lemma OrderedAttachments(b: Built)
    requires KeyedApart(b.attachments, IdOf())
    ensures SortedBy(AttachmentsInOrder(b), IdOf()) && KeyedApart(AttachmentsInOrder(b), IdOf())
    ensures |AttachmentsInOrder(b)| == |b.attachments|
    ensures forall a :: a in AttachmentsInOrder(b) <==> a in b.attachments
  {
    SortBySorts(b.attachments, IdOf());
    SortByKeeps(b.attachments, IdOf());
    KeyedApartKept(b.attachments, AttachmentsInOrder(b), IdOf());
  }

  lemma AttachmentsLoad(m: Entries, b: Built)
    requires KeyedApart(b.attachments, IdOf()) && HoldsAttachments(m, b.attachments)
    ensures AreAttachments(m, AttachmentsInOrder(b))
  {
    OrderedAttachments(b);
    forall a
      ensures a in b.attachments <==> ATTACHMENTS + a.id in m && m[ATTACHMENTS + a.id] == a.data
    {
      if ATTACHMENTS + a.id in m && m[ATTACHMENTS + a.id] == a.data {
        var x :| x in b.attachments && ATTACHMENTS + a.id == ATTACHMENTS + x.id;
        AttachmentNames(a.id, x.id);
        var i :| 0 <= i < |b.attachments| && b.attachments[i] == x;
        assert m[ATTACHMENTS + b.attachments[i].id] == b.attachments[i].data;
        assert a == x;
      }
    }
  }

  lemma AttachmentDigestsVerify(c: Codec, hash: Hash, b: Built)
    requires KeyedApart(b.attachments, IdOf())
    ensures AttachmentDigestsHold(hash, BuiltBlocks(c, hash, b), AttachmentsInOrder(b))
  {
    var atts := AttachmentsInOrder(b);
    OrderedAttachments(b);
    SortCommutes(AttachmentRecord(hash), b.attachments, IdOf(), RecordKey());
    var records := Map(AttachmentRecord(hash), atts);
    forall i, j | 0 <= i < j < |records|
      ensures records[i].key != records[j].key
    {
      assert IdOf()(atts[i]) != IdOf()(atts[j]);
    }
    ByKeyHolds(records);
    forall a | a in atts
      ensures RecordAgrees(ByKey(records), a.id, hash(a.data))
    {
      var i :| 0 <= i < |atts| && atts[i] == a;
      assert records[i] == Recorded(a.id, hash(a.data));
    }
  }

  // ---- the round trip ----

  ghost function BuiltLoaded(c: Codec, hash: Hash, b: Built): Loaded {
    Loaded(BuiltBlocks(c, hash, b), InOrder(b), AttachmentsInOrder(b))
  }

  ghost predicate NonEmptyHash(hash: Hash) {
    forall x :: hash(x) != ""
  }

  lemma InOrderStored(c: Codec, m: Entries, b: Built, u: PackedUnit)
    requires WellFormedUnits(b.units) && HoldsUnits(c, m, b.units) && u in b.units
    ensures IsProper(u) && Stored(c, m, u)
  {
    var i :| 0 <= i < |b.units| && b.units[i] == u;
    assert Stored(c, m, b.units[i]);
  }

  lemma UnitsRead(c: Codec, hash: Hash, m: Entries, b: Built)
    requires Lossless(c) && WellFormedUnits(b.units) && HoldsUnits(c, m, b.units)
    ensures LoadUnits(c, false, m, ManifestUnits(c, hash, b)) == Some(InOrder(b))
  {
    OrderedUnits(b);
    forall k | 0 <= k < |InOrder(b)|
      ensures IsProper(InOrder(b)[k]) && Stored(c, m, InOrder(b)[k])
    {
      InOrderStored(c, m, b, InOrder(b)[k]);
    }
    LoadsInOrder(c, hash, m, InOrder(b));
    ManifestInOrder(c, hash, b);
  }

  lemma UnitsLoad(c: Codec, hash: Hash, b: Built)
    requires Lossless(c) && WellFormedUnits(b.units)
    ensures HasUnits(c, AllEntries(c, hash, b), BuiltBlocks(c, hash, b))
    ensures LoadUnits(c, false, AllEntries(c, hash, b), ManifestUnits(c, hash, b)) == Some(InOrder(b))
  {
    var m := AllEntries(c, hash, b);
    UnitsHeld(c, hash, b);
    OrderedUnits(b);
    ManifestInOrder(c, hash, b);
    SplitsAssembled(c, m, b.units);
    ManifestMatchesUnits(c, hash, InOrder(b), UnitDirs(m));
    UnitsRead(c, hash, m, b);
  }

  // Every well-formed package that was assembled is accepted, with its own units, attachments and declarations.
  lemma RoundTrip(c: Codec, hash: Hash, b: Built)
    requires Lossless(c) && NonEmptyHash(hash) && WellFormedBuilt(b)
    ensures LoadsAs(c, hash, AllEntries(c, hash, b), BuiltLoaded(c, hash, b))
  {
    var m := AllEntries(c, hash, b);
    OpensAssembled(c, hash, b);
    UnitsLoad(c, hash, b);
    OrderedUnits(b);
    AttachmentsHeld(c, hash, b);
    AttachmentsLoad(m, b);
    OrderedAttachments(b);
    DigestCoversContent(c, hash, b);
    UnitsHeld(c, hash, b);
    UnitDigestsVerify(c, hash, m, b);
    AttachmentDigestsVerify(c, hash, b);
  }

  // The accepted result is unique.
  lemma RoundTripUnique(c: Codec, hash: Hash, b: Built, l: Loaded)
    requires Lossless(c) && NonEmptyHash(hash) && WellFormedBuilt(b)
    requires LoadsAs(c, hash, AllEntries(c, hash, b), l)
    ensures l == BuiltLoaded(c, hash, b)
    ensures SortedBy(b.units, FormOf()) ==> l.units == b.units
    ensures SortedBy(b.attachments, IdOf()) ==> l.attachments == b.attachments
  {
    var m := AllEntries(c, hash, b);
    RoundTrip(c, hash, b);
    UnitsLoad(c, hash, b);
    OrderedUnits(b);
    SameUnits(InOrder(b), l.units);
    AttachmentsUnique(m, AttachmentsInOrder(b), l.attachments);
    if SortedBy(b.units, FormOf()) { SameUnits(InOrder(b), b.units); }
    if SortedBy(b.attachments, IdOf()) {
      AttachmentsHeld(c, hash, b);
      AttachmentsLoad(m, b);
      OrderedAttachments(b);
      AttachmentsUnique(m, AttachmentsInOrder(b), b.attachments);
    }
  }

  lemma SameUnits(us: seq<PackedUnit>, vs: seq<PackedUnit>)
    requires KeyedApart(us, FormOf()) && SortedBy(us, FormOf()) && SortedBy(vs, FormOf()) && multiset(us) == multiset(vs)
    ensures us == vs
  {
    forall x, y | x in us && y in us && FormOf()(x) == FormOf()(y)
      ensures x == y
    {
      var i :| 0 <= i < |us| && us[i] == x;
      var j :| 0 <= j < |us| && us[j] == y;
      KeyDecides(us, FormOf(), i, j);
    }
    SortedByUnique(us, vs, FormOf());
  }

  // Assembling and loading back.
  method AssembleAndLoad(c: Codec, hash: Hash, b: Built) returns (r: Result<Loaded, PackageError>)
    requires Lossless(c) && NonEmptyHash(hash) && WellFormedBuilt(b)
    ensures r == Ok(BuiltLoaded(c, hash, b))
  {
    var entries := Assemble(c, hash, b);
    var m := ReadEntries(entries);
    EntriesReadBack(entries, AllEntries(c, hash, b));
    r := LoadPackage(c, hash, m);
    RoundTrip(c, hash, b);
    RoundTripUnique(c, hash, b, r.value);
  }

  // What the entries read as; under a repeated name the last one counts.
  function ReadBack(entries: seq<NamedEntry>): Entries {
    if entries == [] then map[]
    else ReadBack(entries[..|entries| - 1])[entries[|entries| - 1].name := entries[|entries| - 1].data]
  }

  // A reader adds the entries one by one.
  method ReadEntries(entries: seq<NamedEntry>) returns (m: Entries)
    ensures m == ReadBack(entries)
  {
    m := map[];
    for k := 0 to |entries|
      invariant m == ReadBack(entries[..k])
    {
      assert entries[..k + 1][..k] == entries[..k];
      m := m[entries[k].name := entries[k].data];
    }
    assert entries[..|entries|] == entries;
  }

  lemma {:induction false} ReadBackHolds(entries: seq<NamedEntry>, i: nat)
    requires i < |entries| && forall j :: i < j < |entries| ==> entries[j].name != entries[i].name
    ensures entries[i].name in ReadBack(entries) && ReadBack(entries)[entries[i].name] == entries[i].data
  {
    var rest := entries[..|entries| - 1];
    if i < |rest| {
      ReadBackHolds(rest, i);
      assert rest[i] == entries[i] && entries[|rest|].name != entries[i].name;
    }
  }

  lemma {:induction false} ReadBackNames(entries: seq<NamedEntry>, n: string) returns (i: nat)
    requires n in ReadBack(entries)
    ensures i < |entries| && entries[i].name == n
  {
    if entries[|entries| - 1].name == n {
      i := |entries| - 1;
    } else {
      i := ReadBackNames(entries[..|entries| - 1], n);
    }
  }

  lemma FilesNamedOnce(entries: seq<NamedEntry>, all: Entries)
    requires Files(entries, all)
    ensures forall i, j :: 0 <= i < j < |entries| ==> entries[j].name != entries[i].name
  {
    AscendingIsSorted(all.Keys);
  }

  lemma EntriesReadBack(entries: seq<NamedEntry>, all: Entries)
    requires Files(entries, all)
    ensures ReadBack(entries) == all
  {
    var names, m := Ordering.Ascending(all.Keys), ReadBack(entries);
    FilesNamedOnce(entries, all);
    forall n | n in all
      ensures n in m && m[n] == all[n]
    {
      assert n in names;
      var i :| 0 <= i < |names| && names[i] == n;
      ReadBackHolds(entries, i);
    }
    forall n | n in m
      ensures n in all
    {
      var i := ReadBackNames(entries, n);
      assert names[i] in names;
    }
  }
}
