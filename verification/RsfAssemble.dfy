/** Assembling a package (exchange/serialize.go). */
module RsfAssemble {
  import opened Ordering
  import opened References
  import opened KeyedSort
  import opened RsfModel

  // What the builder hands over.
  datatype Built = Built(
    scope: string, packageLabel: string, ns: string, seeds: seq<string>,
    units: seq<PackedUnit>, attachments: seq<Attachment>, externals: seq<string>)

  datatype NamedEntry = NamedEntry(name: string, data: Bytes)

  function UnitHash(c: Codec, hash: Hash, u: PackedUnit): string {
    hash(c.putUnit(u.doc) + u.content)
  }

  function ManifestUnitOf(c: Codec, hash: Hash): PackedUnit -> ManifestUnit {
    (u: PackedUnit) => ManifestUnit(
      u.doc.form, u.doc.identity.typ, u.doc.identity.id, u.doc.identity.ns, u.doc.identity.version, u.doc.revision,
      u.doc.representation, ContentName(RawDir(u.doc.identity)), UnitHash(c, hash, u))
  }

  function FormOf(): PackedUnit -> string {
    (u: PackedUnit) => u.doc.form
  }

  function ManifestForm(): ManifestUnit -> string {
    (mu: ManifestUnit) => mu.form
  }

  function AttachmentRecord(hash: Hash): Attachment -> Recorded {
    (a: Attachment) => Recorded(a.id, hash(a.data))
  }

  function IdOf(): Attachment -> string {
    (a: Attachment) => a.id
  }

  function RecordKey(): Recorded -> string {
    (r: Recorded) => r.key
  }

  // ---- the entry set ----

  function UnitEntries(c: Codec, units: seq<PackedUnit>): Entries {
    if units == [] then map[]
    else
      var u := units[|units| - 1];
      UnitEntries(c, units[..|units| - 1])
        [DocName(RawDir(u.doc.identity)) := c.putUnit(u.doc)]
        [ContentName(RawDir(u.doc.identity)) := u.content]
  }

  function AttachmentEntries(attachments: seq<Attachment>): Entries {
    if attachments == [] then map[]
    else
      var a := attachments[|attachments| - 1];
      AttachmentEntries(attachments[..|attachments| - 1])[ATTACHMENTS + a.id := a.data]
  }

  function UnitRecord(c: Codec, hash: Hash): PackedUnit -> Recorded {
    (u: PackedUnit) => Recorded(u.doc.form, UnitHash(c, hash, u))
  }

  // The digest of each unit form; a repeated form keeps the last.
  function UnitDigests(c: Codec, hash: Hash, units: seq<PackedUnit>): map<string, string> {
    ByKey(Map(UnitRecord(c, hash), units))
  }

  function ClosureOf(b: Built): Closure {
    Closure(b.scope, b.seeds)
  }

  function HeaderOf(b: Built): Header {
    Header(SERIALIZATION, EXCHANGE_FORMAT, SPECIFICATION, EXPORTER, b.packageLabel, b.scope, b.ns)
  }

  function DeclarationsOf(b: Built): Declarations {
    Declarations(ClosureOf(b), b.externals, [])
  }

  function ManifestUnits(c: Codec, hash: Hash, b: Built): seq<ManifestUnit> {
    SortBy(Map(ManifestUnitOf(c, hash), b.units), ManifestForm())
  }

  function ManifestOf(c: Codec, hash: Hash, b: Built, digest: string): Manifest {
    Manifest(b.scope, b.packageLabel, SERIALIZATION, EXCHANGE_FORMAT, SPECIFICATION, digest, ManifestUnits(c, hash, b),
             Counts(|b.units|, |b.attachments|, |b.externals|, 0), ClosureOf(b))
  }

  // The recorded digests of the given forms.
  function RecordList(digests: map<string, string>, forms: seq<string>): seq<Recorded>
    requires forall f :: f in forms ==> f in digests
  {
    if forms == [] then []
    else
      var f := forms[|forms| - 1];
      RecordList(digests, forms[..|forms| - 1]) + [Recorded(f, digests[f])]
  }

  ghost function IntegrityOf(c: Codec, hash: Hash, b: Built, digest: string): Integrity {
    var digests := UnitDigests(c, hash, b.units);
    Integrity(digest, RecordList(digests, Ordering.Ascending(digests.Keys)),
              SortBy(Map(AttachmentRecord(hash), b.attachments), RecordKey()))
  }

  // Everything but the manifest and the integrity block.
  function ContentEntries(c: Codec, b: Built): Entries {
    (UnitEntries(c, b.units) + AttachmentEntries(b.attachments))
      ["header.json" := c.putHeader(HeaderOf(b))]
      ["declarations.json" := c.putDeclarations(DeclarationsOf(b))]
  }

  ghost function AllEntries(c: Codec, hash: Hash, b: Built): Entries {
    var content := ContentEntries(c, b);
    var digest := hash(Joined(content, Ordering.Ascending(content.Keys)));
    content["manifest.json" := c.putManifest(ManifestOf(c, hash, b, digest))]
           ["integrity.json" := c.putIntegrity(IntegrityOf(c, hash, b, digest))]
  }

  // ---- the operation ----

  lemma UnitEntriesStep(c: Codec, units: seq<PackedUnit>, i: nat)
    requires i < |units|
    ensures var dir := RawDir(units[i].doc.identity);
            UnitEntries(c, units[..i + 1]) ==
              UnitEntries(c, units[..i])[DocName(dir) := c.putUnit(units[i].doc)][ContentName(dir) := units[i].content]
  {
    assert units[..i + 1][..i] == units[..i];
  }

  lemma MapStep<T, U>(f: T -> U, s: seq<T>, i: nat)
    requires i < |s|
    ensures Map(f, s[..i + 1]) == Map(f, s[..i]) + [f(s[i])]
  {
    assert s[..i + 1][..i] == s[..i];
  }

  lemma UnitDigestsStep(c: Codec, hash: Hash, units: seq<PackedUnit>, i: nat)
    requires i < |units|
    ensures UnitDigests(c, hash, units[..i + 1]) ==
            UnitDigests(c, hash, units[..i])[units[i].doc.form := UnitHash(c, hash, units[i])]
  {
    var records := Map(UnitRecord(c, hash), units[..i]);
    MapStep(UnitRecord(c, hash), units, i);
    assert (records + [UnitRecord(c, hash)(units[i])])[..|records|] == records;
  }

  method ProjectUnits(c: Codec, hash: Hash, units: seq<PackedUnit>)
    returns (entries: Entries, digests: map<string, string>, listed: seq<ManifestUnit>)
    ensures entries == UnitEntries(c, units) && digests == UnitDigests(c, hash, units)
    ensures listed == Map(ManifestUnitOf(c, hash), units)
  {
    entries, digests, listed := map[], map[], [];
    for i := 0 to |units|
      invariant entries == UnitEntries(c, units[..i])
      invariant digests == UnitDigests(c, hash, units[..i])
      invariant listed == Map(ManifestUnitOf(c, hash), units[..i])
    {
      var u := units[i];
      var dir := RawDir(u.doc.identity);
      UnitEntriesStep(c, units, i);
      UnitDigestsStep(c, hash, units, i);
      MapStep(ManifestUnitOf(c, hash), units, i);
      entries := entries[DocName(dir) := c.putUnit(u.doc)][ContentName(dir) := u.content];
      digests := digests[u.doc.form := UnitHash(c, hash, u)];
      listed := listed + [ManifestUnitOf(c, hash)(u)];
    }
    assert units[..|units|] == units;
  }

  method ProjectAttachments(hash: Hash, attachments: seq<Attachment>) returns (entries: Entries, records: seq<Recorded>)
    ensures entries == AttachmentEntries(attachments)
    ensures records == SortBy(Map(AttachmentRecord(hash), attachments), RecordKey())
  {
    entries, records := map[], [];
    for i := 0 to |attachments|
      invariant entries == AttachmentEntries(attachments[..i])
      invariant records == Map(AttachmentRecord(hash), attachments[..i])
    {
      var a := attachments[i];
      assert attachments[..i + 1][..i] == attachments[..i];
      entries := entries[ATTACHMENTS + a.id := a.data];
      records := records + [Recorded(a.id, hash(a.data))];
    }
    assert attachments[..|attachments|] == attachments;
    records := SortBy(records, RecordKey());
  }

  // The running hasher over the sorted entries.
  method DigestEntries(hash: Hash, all: Entries) returns (digest: string)
    ensures digest == hash(Joined(all, Ordering.Ascending(all.Keys)))
  {
    var names := SortedNames(all);
    var input := "";
    for i := 0 to |names|
      invariant input == Joined(all, names[..i])
    {
      assert names[..i + 1][..i] == names[..i];
      input := input + all[names[i]];
    }
    assert names[..|names|] == names;
    digest := hash(input);
  }

  method RecordDigests(digests: map<string, string>) returns (records: seq<Recorded>)
    ensures records == RecordList(digests, Ordering.Ascending(digests.Keys))
  {
    var forms := SortedNames(digests);
    records := [];
    for i := 0 to |forms|
      invariant records == RecordList(digests, forms[..i])
    {
      assert forms[..i + 1][..i] == forms[..i];
      records := records + [Recorded(forms[i], digests[forms[i]])];
    }
    assert forms[..|forms|] == forms;
  }

  // The entries in the order of their names.
  ghost predicate Files(files: seq<NamedEntry>, all: Entries) {
    var names := Ordering.Ascending(all.Keys);
    |files| == |names| && forall i :: 0 <= i < |files| ==> files[i] == NamedEntry(names[i], all[names[i]])
  }

  method Assemble(c: Codec, hash: Hash, b: Built) returns (out: seq<NamedEntry>)
    ensures Files(out, AllEntries(c, hash, b))
  {
    var units, digests, listed := ProjectUnits(c, hash, b.units);
    listed := SortBy(listed, ManifestForm());
    var attachments, attachmentRecords := ProjectAttachments(hash, b.attachments);
    var all := units + attachments;
    all := all["header.json" := c.putHeader(HeaderOf(b))];
    all := all["declarations.json" := c.putDeclarations(DeclarationsOf(b))];
    var digest := DigestEntries(hash, all);
    all := all["manifest.json" := c.putManifest(ManifestOf(c, hash, b, digest))];
    var unitRecords := RecordDigests(digests);
    all := all["integrity.json" := c.putIntegrity(Integrity(digest, unitRecords, attachmentRecords))];
    out := Emit(all);
  }

  method Emit(all: Entries) returns (out: seq<NamedEntry>)
    ensures Files(out, all)
  {
    var names := SortedNames(all);
    out := [];
    for i := 0 to |names|
      invariant |out| == i && forall j :: 0 <= j < i ==> out[j] == NamedEntry(names[j], all[names[j]])
    {
      out := out + [NamedEntry(names[i], all[names[i]])];
    }
  }
}
