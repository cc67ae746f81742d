/** Loading a package (exchange/deserialize.go, exchange/reader.go). */
module RsfLoad {
  import opened Ordering
  import opened Taxonomy
  import opened References
  import opened KeyedSort
  import opened RsfModel
  import opened RsfAssemble

  datatype PackageError =
    | UnknownEntry | MissingBlock | MalformedBlock | MalformedUnitEntry
    | UnitsDisagree | BadUnit | DigestMismatch | NotSelfConsistent

  // The decoded top-level blocks.
  datatype Blocks = Blocks(
    legacy: bool, header: Header, manifest: Manifest, declarations: Declarations, integrity: Integrity)

  datatype Loaded = Loaded(blocks: Blocks, units: seq<PackedUnit>, attachments: seq<Attachment>)

  predicate AllKnown(m: Entries) {
    forall n :: n in m ==> IsKnownEntry(n)
  }

  predicate HasBlocks(m: Entries) {
    "header.json" in m && "manifest.json" in m && "declarations.json" in m && "integrity.json" in m
  }

  function DecodeBlocks(c: Codec, m: Entries): Option<Blocks>
    requires HasBlocks(m)
  {
    var legacy := c.legacy(m["header.json"]);
    var h := c.getHeader(legacy, m["header.json"]);
    var f := c.getManifest(legacy, m["manifest.json"]);
    var d := c.getDeclarations(legacy, m["declarations.json"]);
    var i := c.getIntegrity(legacy, m["integrity.json"]);
    if h.Some? && f.Some? && d.Some? && i.Some? then Some(Blocks(legacy, h.value, f.value, d.value, i.value)) else None
  }

  // ---- units ----

  predicate IsUnitEntry(n: string) {
    UNITS <= n && SplitUnitEntry(n).Some?
  }

  predicate UnitEntriesSplit(m: Entries) {
    forall n :: n in m && UNITS <= n ==> IsUnitEntry(n)
  }

  ghost function UnitDirs(m: Entries): set<string> {
    set n | n in m && IsUnitEntry(n) :: SplitUnitEntry(n).value
  }

  function DirOf(): ManifestUnit -> string {
    (mu: ManifestUnit) => RawDir(RawIdentity(mu.ns, mu.typ, mu.id, mu.version))
  }

  // The manifest lists every form once, and names every unit directory exactly once and no other.
  ghost predicate ManifestMatches(units: seq<ManifestUnit>, dirs: set<string>) {
    && KeyedApart(units, ManifestForm())
    && (forall mu :: mu in units ==> DirOf()(mu) in dirs)
    && (forall d :: d in dirs ==> multiset(Map(DirOf(), units))[d] == 1)
  }

  predicate Consistent(mu: ManifestUnit, u: UnitDoc) {
    && u.identity == RawIdentity(mu.ns, mu.typ, mu.id, mu.version)
    && u.form == RawForm(u.identity)
    && u.file == "content"
    && (u.representation == STRUCTURED_TEXT || u.representation == STRUCTURED_JSON)
    && mu.contentFile == ContentName(RawDir(u.identity))
  }

  // The unit a manifest entry stands for.
  function LoadUnit(c: Codec, legacy: bool, m: Entries, mu: ManifestUnit): Option<PackedUnit> {
    var dir := DirOf()(mu);
    if DocName(dir) !in m || ContentName(dir) !in m then None
    else
      match c.getUnit(legacy, m[DocName(dir)])
      case None => None
      case Some(doc) => if Consistent(mu, doc) then Some(PackedUnit(doc, m[ContentName(dir)])) else None
  }

  function LoadUnits(c: Codec, legacy: bool, m: Entries, units: seq<ManifestUnit>): Option<seq<PackedUnit>> {
    if units == [] then Some([])
    else
      var before := LoadUnits(c, legacy, m, units[..|units| - 1]);
      var last := LoadUnit(c, legacy, m, units[|units| - 1]);
      if before.Some? && last.Some? then Some(before.value + [last.value]) else None
  }

  // ---- attachments ----

  ghost predicate AreAttachments(m: Entries, attachments: seq<Attachment>) {
    && SortedBy(attachments, IdOf()) && KeyedApart(attachments, IdOf())
    && forall a :: a in attachments <==> ATTACHMENTS + a.id in m && m[ATTACHMENTS + a.id] == a.data
  }

  // ---- digests ----

  predicate PackageDigestHolds(computed: string, b: Blocks) {
    b.integrity.digest != "" && b.integrity.digest == computed && b.manifest.digest == b.integrity.digest
  }

  // The digest of the unit as it lies in the package.
  function StoredHash(hash: Hash, m: Entries, u: PackedUnit): string {
    var name := DocName(RawDir(u.doc.identity));
    hash((if name in m then m[name] else "") + u.content)
  }

  predicate RecordAgrees(table: map<string, string>, key: string, digest: string) {
    key in table ==> table[key] == digest
  }

  predicate ManifestAgrees(units: seq<ManifestUnit>, form: string, digest: string) {
    forall mu :: mu in units && mu.form == form ==> mu.digest == digest
  }

  predicate UnitDigestsHold(hash: Hash, m: Entries, b: Blocks, units: seq<PackedUnit>) {
    var table := ByKey(b.integrity.units);
    && (forall u :: u in units ==>
          && ManifestAgrees(b.manifest.units, u.doc.form, StoredHash(hash, m, u))
          && RecordAgrees(table, u.doc.form, StoredHash(hash, m, u)))
    && |table| == |units|
  }

  predicate AttachmentDigestsHold(hash: Hash, b: Blocks, attachments: seq<Attachment>) {
    var table := ByKey(b.integrity.attachments);
    && (forall a :: a in attachments ==> RecordAgrees(table, a.id, hash(a.data)))
    && |table| == |attachments|
  }

  // ---- echoes ----

  predicate SelfConsistent(b: Blocks, units: nat, attachments: nat) {
    var h, f := b.header, b.manifest;
    && f.serialization == h.serialization && f.exchange == h.exchange && f.specification == h.specification
    && f.packageLabel == h.packageLabel
    && (h.serialization == SERIALIZATION || h.serialization == LEGACY_SERIALIZATION ==>
          h.packageLabel == Label(h.scope, h.ns, h.serialization))
    && f.counts.units == units && f.counts.attachments == attachments
    && f.scope == h.scope
  }

  // ---- acceptance ----

  ghost predicate Opens(c: Codec, m: Entries) {
    AllKnown(m) && HasBlocks(m) && DecodeBlocks(c, m).Some? && UnitEntriesSplit(m)
  }

  ghost predicate HasUnits(c: Codec, m: Entries, b: Blocks) {
    ManifestMatches(b.manifest.units, UnitDirs(m)) && LoadUnits(c, b.legacy, m, b.manifest.units).Some?
  }

  // units and attachments are what a loader returns for m.
  ghost predicate Holds(c: Codec, m: Entries, b: Blocks, units: seq<PackedUnit>, attachments: seq<Attachment>) {
    && LoadUnits(c, b.legacy, m, b.manifest.units).Some?
    && multiset(units) == multiset(LoadUnits(c, b.legacy, m, b.manifest.units).value)
    && SortedBy(units, FormOf())
    && AreAttachments(m, attachments)
  }

  ghost predicate Verifies(hash: Hash, m: Entries, b: Blocks, units: seq<PackedUnit>, attachments: seq<Attachment>) {
    && PackageDigestHolds(PackageDigest(hash, m), b)
    && UnitDigestsHold(hash, m, b, units)
    && AttachmentDigestsHold(hash, b, attachments)
    && SelfConsistent(b, |units|, |attachments|)
  }

  // The loader accepts m and returns l.
  ghost predicate LoadsAs(c: Codec, hash: Hash, m: Entries, l: Loaded) {
    && Opens(c, m) && DecodeBlocks(c, m) == Some(l.blocks) && HasUnits(c, m, l.blocks)
    && Holds(c, m, l.blocks, l.units, l.attachments)
    && Verifies(hash, m, l.blocks, l.units, l.attachments)
  }

  ghost predicate Accepts(c: Codec, hash: Hash, m: Entries) {
    exists l :: LoadsAs(c, hash, m, l)
  }

  // Whatever the arrangement of units with equal forms, the verdict is the same.
  lemma VerdictUnique(c: Codec, hash: Hash, m: Entries, b: Blocks, units: seq<PackedUnit>,
      attachments: seq<Attachment>, l: Loaded)
    requires LoadsAs(c, hash, m, l) && l.blocks == b && Holds(c, m, b, units, attachments)
    ensures Verifies(hash, m, b, units, attachments)
  {
    SameMembers(units, l.units);
    AttachmentsUnique(m, attachments, l.attachments);
  }

  lemma AttachmentsUnique(m: Entries, a: seq<Attachment>, b: seq<Attachment>)
    requires AreAttachments(m, a) && AreAttachments(m, b)
    ensures a == b
  {
    assert forall x :: x in a <==> x in b;
    OneArrangement(a, b, IdOf());
  }

  // ---- the operation ----

  method SplitAll(m: Entries) returns (ok: bool, dirs: set<string>)
    ensures ok <==> UnitEntriesSplit(m)
    ensures ok ==> dirs == UnitDirs(m)
  {
    dirs := {};
    var todo := m.Keys;
    while todo != {}
      invariant todo <= m.Keys
      invariant forall n :: n in m && n !in todo && UNITS <= n ==> IsUnitEntry(n)
      invariant dirs == set n | n in m && n !in todo && IsUnitEntry(n) :: SplitUnitEntry(n).value
    {
      var name :| name in todo;
      todo := todo - {name};
      if UNITS <= name {
        var dir := SplitUnitEntry(name);
        if dir.None? {
          return false, {};
        }
        dirs := dirs + {dir.value};
      }
    }
    return true, dirs;
  }

  // The forms of the first i manifest entries, without a repetition.
  ghost predicate Seen(units: seq<ManifestUnit>, i: nat, seen: set<string>)
    requires i <= |units|
  {
    && (forall j, k :: 0 <= j < k < i ==> units[j].form != units[k].form)
    && (forall j :: 0 <= j < i ==> units[j].form in seen)
    && (forall f :: f in seen ==> exists j :: 0 <= j < i && units[j].form == f)
  }

  // The state of the scan after i manifest entries.
  ghost predicate Scanned(units: seq<ManifestUnit>, i: nat, dirs: set<string>, seen: set<string>,
      counts: multiset<string>)
    requires i <= |units|
  {
    && Seen(units, i, seen)
    && counts == multiset(Map(DirOf(), units[..i]))
    && (forall j :: 0 <= j < i ==> DirOf()(units[j]) in dirs)
  }

  lemma SeenStep(units: seq<ManifestUnit>, i: nat, seen: set<string>)
    requires i < |units| && Seen(units, i, seen) && units[i].form !in seen
    ensures Seen(units, i + 1, seen + {units[i].form})
  {
    forall f | f in seen + {units[i].form}
      ensures exists j :: 0 <= j < i + 1 && units[j].form == f
    {
      if f == units[i].form { assert units[i].form == f; }
    }
  }

  lemma CountStep(units: seq<ManifestUnit>, i: nat)
    requires i < |units|
    ensures multiset(Map(DirOf(), units[..i + 1])) == multiset(Map(DirOf(), units[..i])) + multiset{DirOf()(units[i])}
  {
    var before := Map(DirOf(), units[..i]);
    assert units[..i + 1][..i] == units[..i];
    assert Map(DirOf(), units[..i + 1]) == before + [DirOf()(units[i])];
  }

  lemma ScanStep(units: seq<ManifestUnit>, i: nat, dirs: set<string>, seen: set<string>, counts: multiset<string>)
    requires i < |units| && Scanned(units, i, dirs, seen, counts)
    requires units[i].form !in seen && DirOf()(units[i]) in dirs
    ensures Scanned(units, i + 1, dirs, seen + {units[i].form}, counts + multiset{DirOf()(units[i])})
  {
    CountStep(units, i);
    SeenStep(units, i, seen);
  }

  lemma ScanEnds(units: seq<ManifestUnit>, dirs: set<string>, seen: set<string>, counts: multiset<string>)
    requires Scanned(units, |units|, dirs, seen, counts)
    ensures (forall d :: d in dirs ==> counts[d] == 1) <==> ManifestMatches(units, dirs)
  {
    assert units[..|units|] == units;
    assert KeyedApart(units, ManifestForm());
    assert forall mu :: mu in units ==> DirOf()(mu) in dirs;
  }

  method MatchManifest(units: seq<ManifestUnit>, dirs: set<string>) returns (ok: bool)
    ensures ok <==> ManifestMatches(units, dirs)
  {
    var seen: set<string> := {};
    var counts := multiset{};
    for i := 0 to |units|
      invariant Scanned(units, i, dirs, seen, counts)
    {
      var dir := DirOf()(units[i]);
      if units[i].form in seen {
        Repeats(units, i, dirs);
        return false;
      }
      if dir !in dirs {
        Unlisted(units, i, dirs);
        return false;
      }
      ScanStep(units, i, dirs, seen, counts);
      seen := seen + {units[i].form};
      counts := counts + multiset{dir};
    }
    ScanEnds(units, dirs, seen, counts);
    ok := forall d :: d in dirs ==> counts[d] == 1;
  }

  lemma Unlisted(units: seq<ManifestUnit>, i: nat, dirs: set<string>)
    requires i < |units| && DirOf()(units[i]) !in dirs
    ensures !ManifestMatches(units, dirs)
  {
    assert units[i] in units;
  }

  lemma Repeats(units: seq<ManifestUnit>, i: nat, dirs: set<string>)
    requires i < |units| && exists j :: 0 <= j < i && units[j].form == units[i].form
    ensures !ManifestMatches(units, dirs)
  {
    var j :| 0 <= j < i && units[j].form == units[i].form;
    assert ManifestForm()(units[j]) == ManifestForm()(units[i]);
  }

  lemma {:induction false} LoadUnitsPrefix(c: Codec, legacy: bool, m: Entries, units: seq<ManifestUnit>, i: nat)
    requires i <= |units| && LoadUnits(c, legacy, m, units[..i]).None?
    ensures LoadUnits(c, legacy, m, units).None?
    decreases |units|
  {
    if i == |units| {
      assert units[..i] == units;
    } else {
      assert units[..|units| - 1][..i] == units[..i];
      LoadUnitsPrefix(c, legacy, m, units[..|units| - 1], i);
    }
  }

  method ReadUnits(c: Codec, legacy: bool, m: Entries,
      listed: seq<ManifestUnit>) returns (units: Option<seq<PackedUnit>>)
    ensures units == LoadUnits(c, legacy, m, listed)
  {
    var read: seq<PackedUnit> := [];
    for i := 0 to |listed|
      invariant LoadUnits(c, legacy, m, listed[..i]) == Some(read)
    {
      assert listed[..i + 1][..i] == listed[..i];
      var u := LoadUnit(c, legacy, m, listed[i]);
      if u.None? {
        LoadUnitsPrefix(c, legacy, m, listed, i + 1);
        return None;
      }
      read := read + [u.value];
    }
    assert listed[..|listed|] == listed;
    units := Some(read);
  }

  // ---- attachments ----

  // The attachments under the given names, in the order of the names.
  method ReadAttachments(m: Entries) returns (attachments: seq<Attachment>)
    ensures AreAttachments(m, attachments)
  {
    var ids := AttachmentIds(m);
    attachments := [];
    for i := 0 to |ids|
      invariant |attachments| == i
      invariant forall j :: 0 <= j < i ==> attachments[j] == Attachment(ids[j], m[ATTACHMENTS + ids[j]])
    {
      attachments := attachments + [Attachment(ids[i], m[ATTACHMENTS + ids[i]])];
    }
    forall a
      ensures a in attachments <==> ATTACHMENTS + a.id in m && m[ATTACHMENTS + a.id] == a.data
    {
      if ATTACHMENTS + a.id in m && m[ATTACHMENTS + a.id] == a.data {
        assert a.id in ids;
        var j :| 0 <= j < |ids| && ids[j] == a.id;
        assert attachments[j] == a;
      }
    }
  }

  method AttachmentIds(m: Entries) returns (ids: seq<string>)
    ensures Sorted(ids) && Distinct(ids)
    ensures forall id :: id in ids <==> ATTACHMENTS + id in m
  {
    ids := [];
    var todo := m.Keys;
    while todo != {}
      invariant todo <= m.Keys && Distinct(ids)
      invariant forall id :: id in ids <==> ATTACHMENTS + id in m && ATTACHMENTS + id !in todo
    {
      var name :| name in todo;
      todo := todo - {name};
      if ATTACHMENTS <= name {
        var id := name[|ATTACHMENTS|..];
        assert name == ATTACHMENTS + id;
        assert forall k :: ATTACHMENTS + k == name <==> k == id by {
          assert forall k :: (ATTACHMENTS + k)[|ATTACHMENTS|..] == k;
        }
        ids := ids + [id];
      } else {
        assert forall k :: ATTACHMENTS <= ATTACHMENTS + k;
      }
    }
    SortKeepsElements(ids);
    ids := SortStrings(ids);
  }

  // ---- verification ----

  method ComputePackageDigest(hash: Hash, m: Entries) returns (digest: string)
    ensures digest == PackageDigest(hash, m)
  {
    var names := SortedNames(m);
    var input := "";
    ghost var kept: seq<string> := [];
    for i := 0 to |names|
      invariant input == Joined(Digested(m), kept)
      invariant Kept(names[..i], kept)
    {
      ghost var before := kept;
      assert names[i] in names;
      if names[i] != "manifest.json" && names[i] != "integrity.json" {
        JoinedStep(Digested(m), kept, names[i]);
        kept := kept + [names[i]];
        input := input + m[names[i]];
      }
      KeptStep(names, i, before, kept);
    }
    assert names[..|names|] == names;
    KeptIsAscending(m, names, kept);
    digest := hash(input);
  }

  lemma JoinedStep(m: Entries, names: seq<string>, n: string)
    ensures Joined(m, names + [n]) == Joined(m, names) + if n in m then m[n] else ""
  {
    assert (names + [n])[..|names|] == names;
  }

  // kept lists the digested names of names, in the same order.
  ghost predicate Kept(names: seq<string>, kept: seq<string>) {
    && (forall x :: x in kept <==> x in names && x != "manifest.json" && x != "integrity.json")
    && (Sorted(names) && Distinct(names) ==> Sorted(kept) && Distinct(kept))
  }

  lemma KeptStep(names: seq<string>, i: nat, before: seq<string>, kept: seq<string>)
    requires i < |names| && Kept(names[..i], before)
    requires kept == if names[i] != "manifest.json" && names[i] != "integrity.json" then before + [names[i]] else before
    ensures Kept(names[..i + 1], kept)
  {
    var longer := names[..i + 1];
    assert longer == names[..i] + [names[i]];
    if Sorted(longer) && Distinct(longer) {
      assert forall j :: 0 <= j < i ==> names[..i][j] == longer[j];
      forall j | 0 <= j < |before|
        ensures AtMost(before[j], names[i]) && before[j] != names[i]
      {
        assert before[j] in names[..i];
        var k :| 0 <= k < i && names[..i][k] == before[j];
        assert longer[k] == before[j] && longer[i] == names[i];
      }
    }
  }

  lemma KeptIsAscending(m: Entries, names: seq<string>, kept: seq<string>)
    requires names == Ordering.Ascending(m.Keys) && Kept(names, kept)
    ensures kept == Ordering.Ascending(Digested(m).Keys)
  {
    AscendingIsSorted(m.Keys);
    SortedIsAscending(kept, Digested(m).Keys);
  }

  method VerifyUnitDigests(hash: Hash, m: Entries, b: Blocks, units: seq<PackedUnit>) returns (ok: bool)
    ensures ok <==> UnitDigestsHold(hash, m, b, units)
  {
    var table := ByKey(b.integrity.units);
    for i := 0 to |units|
      invariant forall j :: 0 <= j < i ==>
        && ManifestAgrees(b.manifest.units, units[j].doc.form, StoredHash(hash, m, units[j]))
        && RecordAgrees(table, units[j].doc.form, StoredHash(hash, m, units[j]))
    {
      var got := StoredHash(hash, m, units[i]);
      if !ManifestAgrees(b.manifest.units, units[i].doc.form, got) || !RecordAgrees(table, units[i].doc.form, got) {
        assert units[i] in units;
        return false;
      }
    }
    return |table| == |units|;
  }

  method VerifyAttachmentDigests(hash: Hash, b: Blocks, attachments: seq<Attachment>) returns (ok: bool)
    ensures ok <==> AttachmentDigestsHold(hash, b, attachments)
  {
    var table := ByKey(b.integrity.attachments);
    for i := 0 to |attachments|
      invariant forall j :: 0 <= j < i ==> RecordAgrees(table, attachments[j].id, hash(attachments[j].data))
    {
      if !RecordAgrees(table, attachments[i].id, hash(attachments[i].data)) {
        assert attachments[i] in attachments;
        return false;
      }
    }
    return |table| == |attachments|;
  }

  method Verify(hash: Hash, m: Entries, b: Blocks, units: seq<PackedUnit>, attachments: seq<Attachment>)
    returns (verdict: Option<PackageError>)
    ensures verdict.None? <==> Verifies(hash, m, b, units, attachments)
  {
    var digest := ComputePackageDigest(hash, m);
    if !PackageDigestHolds(digest, b) {
      return Some(DigestMismatch);
    }
    var unitsOk := VerifyUnitDigests(hash, m, b, units);
    if !unitsOk {
      return Some(DigestMismatch);
    }
    var attachmentsOk := VerifyAttachmentDigests(hash, b, attachments);
    if !attachmentsOk {
      return Some(DigestMismatch);
    }
    if !SelfConsistent(b, |units|, |attachments|) {
      return Some(NotSelfConsistent);
    }
    return None;
  }

  method OpenBlocks(c: Codec, m: Entries) returns (r: Result<Blocks, PackageError>)
    ensures r.Ok? <==> AllKnown(m) && HasBlocks(m) && DecodeBlocks(c, m).Some?
    ensures r.Ok? ==> DecodeBlocks(c, m) == Some(r.value)
  {
    if !AllKnown(m) {
      return Err(UnknownEntry);
    }
    if !HasBlocks(m) {
      return Err(MissingBlock);
    }
    var b := DecodeBlocks(c, m);
    if b.None? {
      return Err(MalformedBlock);
    }
    return Ok(b.value);
  }

  method LoadPackage(c: Codec, hash: Hash, m: Entries) returns (r: Result<Loaded, PackageError>)
    ensures r.Ok? <==> Accepts(c, hash, m)
    ensures r.Ok? ==> LoadsAs(c, hash, m, r.value)
  {
    var blocks := OpenBlocks(c, m);
    if blocks.Err? {
      return Err(blocks.error);
    }
    var b := blocks.value;
    var split, dirs := SplitAll(m);
    if !split {
      return Err(MalformedUnitEntry);
    }
    var matches := MatchManifest(b.manifest.units, dirs);
    if !matches {
      return Err(UnitsDisagree);
    }
    var read := ReadUnits(c, b.legacy, m, b.manifest.units);
    if read.None? {
      return Err(BadUnit);
    }
    var units := SortBy(read.value, FormOf());
    SortBySorts(read.value, FormOf());
    var attachments := ReadAttachments(m);
    var verdict := Verify(hash, m, b, units, attachments);
    if verdict.Some? {
      forall l
        ensures !LoadsAs(c, hash, m, l)
      {
        if LoadsAs(c, hash, m, l) { VerdictUnique(c, hash, m, b, units, attachments, l); }
      }
      return Err(verdict.value);
    }
    assert LoadsAs(c, hash, m, Loaded(b, units, attachments));
    return Ok(Loaded(b, units, attachments));
  }
}
