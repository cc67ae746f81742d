/** What the integrity block of an accepted package says about its contents (exchange/deserialize.go). */
module RsfIntegrity {
  import opened Ordering
  import opened Taxonomy
  import opened References
  import opened KeyedSort
  import opened RsfModel
  import opened RsfAssemble
  import opened RsfLoad
  import opened RsfRoundTrip

  // ---- which units are compared ----

  // The integrity block records the digest of the unit as it lies in the package.
  ghost predicate UnitRecorded(hash: Hash, m: Entries, l: Loaded, u: PackedUnit) {
    var table := ByKey(l.blocks.integrity.units);
    u.doc.form in table && table[u.doc.form] == StoredHash(hash, m, u)
  }

  // Every unit has a record under its form.
  ghost predicate RecordsNameUnits(l: Loaded) {
    forall u :: u in l.units ==> u.doc.form in ByKey(l.blocks.integrity.units)
  }

  // In an accepted package the recorded unit digests are all right exactly when the records name the units.
  lemma AllRecordedIff(c: Codec, hash: Hash, m: Entries, l: Loaded)
    requires LoadsAs(c, hash, m, l)
    ensures (forall u :: u in l.units ==> UnitRecorded(hash, m, l, u)) <==> RecordsNameUnits(l)
  {
    var table := ByKey(l.blocks.integrity.units);
    assert forall u :: u in l.units ==> RecordAgrees(table, u.doc.form, StoredHash(hash, m, u));
  }

  // The assembled package with other records in its integrity block.
  ghost function WithRecords(c: Codec, hash: Hash, b: Built, records: seq<Recorded>): Entries {
    AllEntries(c, hash, b)["integrity.json" := c.putIntegrity(BuiltBlocks(c, hash, b).integrity.(units := records))]
  }

  ghost function RecordedBlocks(c: Codec, hash: Hash, b: Built, records: seq<Recorded>): Blocks {
    var blocks := BuiltBlocks(c, hash, b);
    blocks.(integrity := blocks.integrity.(units := records))
  }

  lemma RecordsLeaveDigest(c: Codec, hash: Hash, b: Built, records: seq<Recorded>)
    ensures PackageDigest(hash, WithRecords(c, hash, b, records)) == BuiltDigest(c, hash, b)
  {
    DigestCoversContent(c, hash, b);
    assert Digested(WithRecords(c, hash, b, records)) == Digested(AllEntries(c, hash, b));
  }

  lemma RecordsLeaveEntries(c: Codec, hash: Hash, b: Built, records: seq<Recorded>)
    requires WellFormedUnits(b.units) && KeyedApart(b.attachments, IdOf())
    ensures var m := WithRecords(c, hash, b, records);
            HoldsUnits(c, m, b.units) && HoldsAttachments(m, b.attachments)
  {
    UnitsHeld(c, hash, b);
    AttachmentsHeld(c, hash, b);
    StillStored(c, AllEntries(c, hash, b), WithRecords(c, hash, b, records), b);
  }

  lemma RecordsPrinted(c: Codec, hash: Hash, b: Built, records: seq<Recorded>)
    ensures PrintsBlocks(c, WithRecords(c, hash, b, records), RecordedBlocks(c, hash, b, records))
  {
    BlocksPrinted(c, hash, b);
  }

  lemma RecordsKnown(c: Codec, hash: Hash, b: Built, records: seq<Recorded>)
    ensures AllKnown(WithRecords(c, hash, b, records))
  {
    forall n | n in WithRecords(c, hash, b, records)
      ensures IsKnownEntry(n)
    {
      EntryAt(c, hash, b, n);
    }
  }

  lemma RecordsOpen(c: Codec, hash: Hash, b: Built, records: seq<Recorded>)
    requires Lossless(c) && WellFormedUnits(b.units) && HoldsUnits(c, WithRecords(c, hash, b, records), b.units)
    ensures var m := WithRecords(c, hash, b, records);
            Opens(c, m) && DecodeBlocks(c, m) == Some(RecordedBlocks(c, hash, b, records))
  {
    var m := WithRecords(c, hash, b, records);
    RecordsPrinted(c, hash, b, records);
    RecordsKnown(c, hash, b, records);
    SplitsAssembled(c, m, b.units);
    Decodes(c, m, RecordedBlocks(c, hash, b, records));
  }

  lemma RecordsKeepUnits(c: Codec, hash: Hash, m: Entries, b: Built)
    requires Lossless(c) && WellFormedUnits(b.units) && HoldsUnits(c, m, b.units)
    ensures ManifestMatches(ManifestUnits(c, hash, b), UnitDirs(m))
    ensures LoadUnits(c, false, m, ManifestUnits(c, hash, b)) == Some(InOrder(b))
  {
    OrderedUnits(b);
    SplitsAssembled(c, m, b.units);
    ManifestMatchesUnits(c, hash, InOrder(b), UnitDirs(m));
    ManifestInOrder(c, hash, b);
    UnitsRead(c, hash, m, b);
  }

  lemma StillStored(c: Codec, all: Entries, m: Entries, b: Built)
    requires HoldsUnits(c, all, b.units) && HoldsAttachments(all, b.attachments)
    requires m.Keys == all.Keys && forall n :: n in m && n != "integrity.json" ==> m[n] == all[n]
    ensures HoldsUnits(c, m, b.units) && HoldsAttachments(m, b.attachments)
  {
    PrefixesDiffer("integrity.json");
    forall i | 0 <= i < |b.units|
      ensures Stored(c, m, b.units[i])
    {
      var dir := UnitDir()(b.units[i]);
      assert Stored(c, all, b.units[i]);
      UnitNamesPrefixed(DocName(dir), b.units[i]);
      UnitNamesPrefixed(ContentName(dir), b.units[i]);
    }
    forall i | 0 <= i < |b.attachments|
      ensures && ATTACHMENTS + b.attachments[i].id in m
              && m[ATTACHMENTS + b.attachments[i].id] == b.attachments[i].data
    {
      assert ATTACHMENTS <= ATTACHMENTS + b.attachments[i].id;
    }
  }

  lemma RecordsVerify(c: Codec, hash: Hash, m: Entries, b: Built, blocks: Blocks)
    requires NonEmptyHash(hash) && WellFormedBuilt(b) && PackageDigest(hash, m) == BuiltDigest(c, hash, b)
    requires blocks == RecordedBlocks(c, hash, b, blocks.integrity.units)
    requires UnitDigestsHold(hash, m, blocks, InOrder(b))
    ensures Verifies(hash, m, blocks, InOrder(b), AttachmentsInOrder(b))
  {
    OrderedUnits(b);
    OrderedAttachments(b);
    AttachmentDigestsVerify(c, hash, b);
  }

  lemma RecordsHold(c: Codec, hash: Hash, m: Entries, b: Built, blocks: Blocks)
    requires Lossless(c) && WellFormedBuilt(b) && HoldsUnits(c, m, b.units) && HoldsAttachments(m, b.attachments)
    requires !blocks.legacy && blocks.manifest.units == ManifestUnits(c, hash, b)
    ensures HasUnits(c, m, blocks) && Holds(c, m, blocks, InOrder(b), AttachmentsInOrder(b))
  {
    RecordsKeepUnits(c, hash, m, b);
    OrderedUnits(b);
    AttachmentsLoad(m, b);
  }

  // As many keys as units, and under the form of a unit its digest.
  predicate RecordsAgree(c: Codec, hash: Hash, b: Built, records: seq<Recorded>) {
    && |ByKey(records)| == |b.units|
    && forall u :: u in b.units ==> RecordAgrees(ByKey(records), u.doc.form, UnitHash(c, hash, u))
  }

  // What the loader checks of the unit digests comes down to that.
  lemma DigestsHoldIff(c: Codec, hash: Hash, m: Entries, b: Built, blocks: Blocks)
    requires WellFormedUnits(b.units) && HoldsUnits(c, m, b.units)
    requires blocks.manifest.units == ManifestUnits(c, hash, b)
    ensures UnitDigestsHold(hash, m, blocks, InOrder(b)) <==> RecordsAgree(c, hash, b, blocks.integrity.units)
  {
    OrderedUnits(b);
    forall u | u in b.units
      ensures ManifestAgrees(blocks.manifest.units, u.doc.form, StoredHash(hash, m, u))
      ensures StoredHash(hash, m, u) == UnitHash(c, hash, u)
    {
      StoredUnitAgrees(c, hash, m, b, u);
      InOrderStored(c, m, b, u);
      StoredHashIs(c, hash, m, u);
    }
  }

  lemma AgreeingAccepted(c: Codec, hash: Hash, b: Built, records: seq<Recorded>, m: Entries, blocks: Blocks)
    requires Lossless(c) && NonEmptyHash(hash) && WellFormedBuilt(b) && RecordsAgree(c, hash, b, records)
    requires blocks == RecordedBlocks(c, hash, b, records) && PackageDigest(hash, m) == BuiltDigest(c, hash, b)
    requires HoldsUnits(c, m, b.units) && HoldsAttachments(m, b.attachments)
    requires Opens(c, m) && DecodeBlocks(c, m) == Some(blocks)
    ensures Accepts(c, hash, m)
  {
    RecordsHold(c, hash, m, b, blocks);
    DigestsHoldIff(c, hash, m, b, blocks);
    RecordsVerify(c, hash, m, b, blocks);
    assert LoadsAs(c, hash, m, Loaded(blocks, InOrder(b), AttachmentsInOrder(b)));
  }

  lemma AcceptedAgrees(c: Codec, hash: Hash, b: Built, records: seq<Recorded>, m: Entries, blocks: Blocks, l: Loaded)
    requires Lossless(c) && WellFormedBuilt(b) && blocks == RecordedBlocks(c, hash, b, records)
    requires HoldsUnits(c, m, b.units) && HoldsAttachments(m, b.attachments)
    requires LoadsAs(c, hash, m, l) && l.blocks == blocks
    ensures RecordsAgree(c, hash, b, records)
  {
    RecordsHold(c, hash, m, b, blocks);
    VerdictUnique(c, hash, m, blocks, InOrder(b), AttachmentsInOrder(b), l);
    DigestsHoldIff(c, hash, m, b, blocks);
  }

  // Exactly which unit records an otherwise untouched package may carry: only their number is compared with the
  // units, and a record is compared only where it names a unit.
  lemma RecordsAcceptedIff(c: Codec, hash: Hash, b: Built, records: seq<Recorded>)
    requires Lossless(c) && NonEmptyHash(hash) && WellFormedBuilt(b)
    ensures Accepts(c, hash, WithRecords(c, hash, b, records)) <==> RecordsAgree(c, hash, b, records)
  {
    var m := WithRecords(c, hash, b, records);
    var blocks := RecordedBlocks(c, hash, b, records);
    RecordsLeaveEntries(c, hash, b, records);
    RecordsOpen(c, hash, b, records);
    RecordsLeaveDigest(c, hash, b, records);
    if RecordsAgree(c, hash, b, records) {
      AgreeingAccepted(c, hash, b, records, m, blocks);
    }
    if Accepts(c, hash, m) {
      var l :| LoadsAs(c, hash, m, l);
      AcceptedAgrees(c, hash, b, records, m, blocks, l);
    }
  }

  // Records that name none of the units, in the right number, are accepted.
  lemma OtherRecordsAccepted(c: Codec, hash: Hash, b: Built, records: seq<Recorded>)
    requires Lossless(c) && NonEmptyHash(hash) && WellFormedBuilt(b)
    requires KeysApart(records) && |records| == |b.units|
    requires forall u :: u in b.units ==> u.doc.form !in ByKey(records)
    ensures Accepts(c, hash, WithRecords(c, hash, b, records))
  {
    ByKeyHolds(records);
    RecordsAcceptedIff(c, hash, b, records);
  }

  lemma StoredUnitAgrees(c: Codec, hash: Hash, m: Entries, b: Built, u: PackedUnit)
    requires WellFormedUnits(b.units) && HoldsUnits(c, m, b.units) && u in b.units
    ensures ManifestAgrees(ManifestUnits(c, hash, b), u.doc.form, StoredHash(hash, m, u))
  {
    InOrderStored(c, m, b, u);
    UnitVerifies(c, hash, m, b, u);
  }

  // ---- the integrity block pins the contents ----

  ghost predicate Injective(hash: Hash) {
    forall x, y :: hash(x) == hash(y) ==> x == y
  }

  ghost predicate RecordsNameAttachments(l: Loaded) {
    forall a :: a in l.attachments ==> a.id in ByKey(l.blocks.integrity.attachments)
  }

  // The bytes a unit's digest covers.
  function StoredBytes(m: Entries, u: PackedUnit): Bytes {
    (if DocName(RawDir(u.doc.identity)) in m then m[DocName(RawDir(u.doc.identity))] else "") + u.content
  }

  // Two accepted packages with the same integrity block hold the same bytes under the same form.
  lemma IntegrityPinsUnit(c: Codec, hash: Hash, m: Entries, l: Loaded, m': Entries, l': Loaded, u: PackedUnit,
      v: PackedUnit)
    requires Injective(hash) && LoadsAs(c, hash, m, l) && LoadsAs(c, hash, m', l')
    requires l.blocks.integrity == l'.blocks.integrity && RecordsNameUnits(l)
    requires u in l.units && v in l'.units && u.doc.form == v.doc.form
    ensures StoredBytes(m, u) == StoredBytes(m', v)
  {
    var table := ByKey(l.blocks.integrity.units);
    assert RecordAgrees(table, u.doc.form, StoredHash(hash, m, u));
    assert RecordAgrees(table, v.doc.form, StoredHash(hash, m', v));
    assert hash(StoredBytes(m, u)) == hash(StoredBytes(m', v));
  }

  ghost function Ids(attachments: seq<Attachment>): set<string> {
    set a | a in attachments :: a.id
  }

  lemma {:induction false} IdsCount(attachments: seq<Attachment>)
    requires KeyedApart(attachments, IdOf())
    ensures |Ids(attachments)| == |attachments|
  {
    if attachments != [] {
      var rest, last := attachments[..|attachments| - 1], attachments[|attachments| - 1];
      IdsCount(rest);
      assert attachments == rest + [last];
      forall i | 0 <= i < |rest|
        ensures rest[i].id != last.id
      {
        assert IdOf()(attachments[i]) != IdOf()(last);
      }
      assert Ids(attachments) == Ids(rest) + {last.id};
    }
  }

  lemma SubsetSameSize(s: set<string>, t: set<string>)
    requires s <= t && |s| == |t|
    ensures s == t
  {
    assert t == s + (t - s);
    assert |t - s| == 0;
  }

  // The records name the attachments one to one.
  lemma RecordedIds(c: Codec, hash: Hash, m: Entries, l: Loaded)
    requires LoadsAs(c, hash, m, l) && RecordsNameAttachments(l)
    ensures Ids(l.attachments) == ByKey(l.blocks.integrity.attachments).Keys
  {
    IdsCount(l.attachments);
    SubsetSameSize(Ids(l.attachments), ByKey(l.blocks.integrity.attachments).Keys);
  }

  lemma SameAttachment(c: Codec, hash: Hash, m: Entries, l: Loaded, m': Entries, l': Loaded, a: Attachment)
    requires Injective(hash) && LoadsAs(c, hash, m, l) && LoadsAs(c, hash, m', l')
    requires l.blocks.integrity.attachments == l'.blocks.integrity.attachments
    requires RecordsNameAttachments(l) && RecordsNameAttachments(l') && a in l.attachments
    ensures a in l'.attachments
  {
    var table := ByKey(l.blocks.integrity.attachments);
    RecordedIds(c, hash, m, l);
    RecordedIds(c, hash, m', l');
    assert a.id in Ids(l.attachments);
    var x :| x in l'.attachments && x.id == a.id;
    assert RecordAgrees(table, a.id, hash(a.data)) && RecordAgrees(table, x.id, hash(x.data));
  }

  // Two accepted packages with the same attachment records hold the same attachments.
  lemma IntegrityPinsAttachments(c: Codec, hash: Hash, m: Entries, l: Loaded, m': Entries, l': Loaded)
    requires Injective(hash) && LoadsAs(c, hash, m, l) && LoadsAs(c, hash, m', l')
    requires l.blocks.integrity.attachments == l'.blocks.integrity.attachments
    requires RecordsNameAttachments(l) && RecordsNameAttachments(l')
    ensures l.attachments == l'.attachments
  {
    forall a
      ensures a in l.attachments <==> a in l'.attachments
    {
      if a in l.attachments { SameAttachment(c, hash, m, l, m', l', a); }
      if a in l'.attachments { SameAttachment(c, hash, m', l', m, l, a); }
    }
    OneArrangement(l.attachments, l'.attachments, IdOf());
  }
}
