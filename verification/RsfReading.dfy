/** What the loader accepts, said of entry names, bytes and decoded blocks alone (exchange/deserialize.go). */
module RsfReading {
  import opened Ordering
  import opened Taxonomy
  import opened Text
  import opened References
  import opened KeyedSort
  import opened RsfModel
  import opened RsfAssemble
  import opened RsfLoad
  import opened RsfRoundTrip
  import opened RsfIntegrity

  // ---- entry names and blocks ----

  // Every entry is a block, part of a unit, or an attachment.
  ghost predicate NamesKnown(m: Entries) {
    forall n :: n in m ==>
      n in {"header.json", "manifest.json", "declarations.json", "integrity.json"} || "units/" <= n || "attachments/" <= n
  }

  ghost predicate PartOf(n: string, dir: string) {
    "units/" <= dir && (n == dir + "/unit.json" || n == dir + "/content")
  }

  ghost predicate UnitNamesSplit(m: Entries) {
    forall n :: n in m && "units/" <= n ==> exists dir :: PartOf(n, dir)
  }

  // The four blocks, each read from its own entry in the version the header announces.
  ghost predicate BlocksAre(c: Codec, m: Entries, b: Blocks) {
    && "header.json" in m && "manifest.json" in m && "declarations.json" in m && "integrity.json" in m
    && b.legacy == c.legacy(m["header.json"])
    && c.getHeader(b.legacy, m["header.json"]) == Some(b.header)
    && c.getManifest(b.legacy, m["manifest.json"]) == Some(b.manifest)
    && c.getDeclarations(b.legacy, m["declarations.json"]) == Some(b.declarations)
    && c.getIntegrity(b.legacy, m["integrity.json"]) == Some(b.integrity)
  }

  lemma PartIff(n: string, dir: string)
    requires UNITS <= n
    ensures PartOf(n, dir) <==> SplitUnitEntry(n) == Some(dir)
  {
    SplitEntryIff(n, dir);
  }

  lemma NamesIff(m: Entries)
    ensures AllKnown(m) <==> NamesKnown(m)
    ensures UnitEntriesSplit(m) <==> UnitNamesSplit(m)
  {
    forall n, dir | UNITS <= n
      ensures PartOf(n, dir) <==> SplitUnitEntry(n) == Some(dir)
    {
      PartIff(n, dir);
    }
  }

  lemma BlocksIff(c: Codec, m: Entries, b: Blocks)
    ensures HasBlocks(m) && DecodeBlocks(c, m) == Some(b) <==> BlocksAre(c, m, b)
  {
  }

  // ---- units ----

  function DirFor(mu: ManifestUnit): string {
    "units/" + mu.ns + "/" + mu.typ + "-" + mu.id + "-v" + Itoa(mu.version)
  }

  // Some entry of the directory is in the package.
  ghost predicate HasDir(m: Entries, dir: string) {
    exists n :: n in m && PartOf(n, dir)
  }

  // The manifest lists no form twice, and its entries and the unit directories match one to one.
  ghost predicate ListedOneToOne(m: Entries, units: seq<ManifestUnit>) {
    && (forall i, j :: 0 <= i < j < |units| ==> units[i].form != units[j].form)
    && (forall i, j :: 0 <= i < j < |units| ==> DirFor(units[i]) != DirFor(units[j]))
    && (forall dir :: HasDir(m, dir) <==> Listed(units, dir))
  }

  ghost predicate Listed(units: seq<ManifestUnit>, dir: string) {
    exists i :: 0 <= i < |units| && DirFor(units[i]) == dir
  }

  // The unit the loader makes of a manifest entry.
  ghost predicate UnitRead(c: Codec, legacy: bool, m: Entries, mu: ManifestUnit, u: PackedUnit) {
    var dir := DirFor(mu);
    && dir + "/unit.json" in m && c.getUnit(legacy, m[dir + "/unit.json"]) == Some(u.doc)
    && dir + "/content" in m && u.content == m[dir + "/content"]
    && u.doc.identity.ns == mu.ns && u.doc.identity.typ == mu.typ && u.doc.identity.id == mu.id
    && u.doc.identity.version == mu.version
    && u.doc.form == mu.ns + "/" + mu.typ + ":" + mu.id + ":" + Itoa(mu.version)
    && u.doc.file == "content" && mu.contentFile == dir + "/content"
    && u.doc.representation in {"eka/structured-text/1", "eka/structured-json/1"}
  }

  ghost predicate UnitsRead(c: Codec, legacy: bool, m: Entries, listed: seq<ManifestUnit>, units: seq<PackedUnit>) {
    |units| == |listed| && forall i :: 0 <= i < |units| ==> ReadAt(c, legacy, m, listed, units, i)
  }

  ghost predicate ReadAt(c: Codec, legacy: bool, m: Entries, listed: seq<ManifestUnit>, units: seq<PackedUnit>, i: nat)
    requires i < |units| == |listed|
  {
    UnitRead(c, legacy, m, listed[i], units[i])
  }

  lemma DirIs(mu: ManifestUnit)
    ensures DirOf()(mu) == DirFor(mu)
  {
  }

  lemma UnitReadIff(c: Codec, legacy: bool, m: Entries, mu: ManifestUnit, u: PackedUnit)
    ensures LoadUnit(c, legacy, m, mu) == Some(u) <==> UnitRead(c, legacy, m, mu, u)
  {
    DirIs(mu);
  }

  lemma ReadBefore(c: Codec, legacy: bool, m: Entries, listed: seq<ManifestUnit>, units: seq<PackedUnit>, i: nat)
    requires |units| == |listed| && i < |units| - 1
    ensures ReadAt(c, legacy, m, listed[..|listed| - 1], units[..|units| - 1], i) <==>
            ReadAt(c, legacy, m, listed, units, i)
  {
  }

  lemma UnitsReadStep(c: Codec, legacy: bool, m: Entries, listed: seq<ManifestUnit>, units: seq<PackedUnit>)
    requires listed != [] && |units| == |listed|
    ensures UnitsRead(c, legacy, m, listed, units) <==>
              && UnitsRead(c, legacy, m, listed[..|listed| - 1], units[..|units| - 1])
              && ReadAt(c, legacy, m, listed, units, |units| - 1)
  {
    var before, read := listed[..|listed| - 1], units[..|units| - 1];
    if UnitsRead(c, legacy, m, listed, units) {
      forall i | 0 <= i < |read|
        ensures ReadAt(c, legacy, m, before, read, i)
      {
        ReadBefore(c, legacy, m, listed, units, i);
      }
    }
    if UnitsRead(c, legacy, m, listed[..|listed| - 1], units[..|units| - 1]) {
      forall i | 0 <= i < |units| - 1
        ensures ReadAt(c, legacy, m, listed, units, i)
      {
        ReadBefore(c, legacy, m, listed, units, i);
      }
    }
  }

  lemma LoadUnitsStep(c: Codec, legacy: bool, m: Entries, listed: seq<ManifestUnit>, units: seq<PackedUnit>)
    requires listed != [] && units != []
    ensures LoadUnits(c, legacy, m, listed) == Some(units) <==>
              && LoadUnits(c, legacy, m, listed[..|listed| - 1]) == Some(units[..|units| - 1])
              && LoadUnit(c, legacy, m, listed[|listed| - 1]) == Some(units[|units| - 1])
  {
    assert units == units[..|units| - 1] + [units[|units| - 1]];
  }

  lemma {:induction false} UnitsReadIff(c: Codec, legacy: bool, m: Entries, listed: seq<ManifestUnit>,
      units: seq<PackedUnit>)
    ensures LoadUnits(c, legacy, m, listed) == Some(units) <==> UnitsRead(c, legacy, m, listed, units)
  {
    if listed != [] && units != [] {
      UnitsReadIff(c, legacy, m, listed[..|listed| - 1], units[..|units| - 1]);
      UnitReadIff(c, legacy, m, listed[|listed| - 1], units[|units| - 1]);
      if |units| == |listed| { UnitsReadStep(c, legacy, m, listed, units); }
      LoadUnitsStep(c, legacy, m, listed, units);
    }
  }

  lemma DirsAre(m: Entries, dir: string)
    requires UnitNamesSplit(m)
    ensures dir in UnitDirs(m) <==> HasDir(m, dir)
  {
    if dir in UnitDirs(m) {
      var n :| n in m && IsUnitEntry(n) && SplitUnitEntry(n).value == dir;
      PartIff(n, dir);
    }
    if HasDir(m, dir) {
      var n :| n in m && PartOf(n, dir);
      PartIff(n, dir);
    }
  }

  lemma OnceIn(dirs: seq<string>, dir: string)
    requires Distinct(dirs) && dir in dirs
    ensures multiset(dirs)[dir] == 1
  {
    DistinctIsMultiset(dirs);
    assert dir in multiset(dirs);
  }

  lemma DirsOf(units: seq<ManifestUnit>)
    ensures forall i :: 0 <= i < |units| ==> Map(DirOf(), units)[i] == DirFor(units[i])
  {
    forall i | 0 <= i < |units|
      ensures Map(DirOf(), units)[i] == DirFor(units[i])
    {
      DirIs(units[i]);
    }
  }

  lemma CountsOne(units: seq<ManifestUnit>, dirs: seq<string>, dir: string)
    requires |dirs| == |units| && forall i :: 0 <= i < |units| ==> dirs[i] == DirFor(units[i])
    requires forall i, j :: 0 <= i < j < |units| ==> DirFor(units[i]) != DirFor(units[j])
    requires Listed(units, dir)
    ensures multiset(dirs)[dir] == 1
  {
    var i :| 0 <= i < |units| && DirFor(units[i]) == dir;
    assert dirs[i] == dir;
    OnceIn(dirs, dir);
  }

  lemma ListedTwice(units: seq<ManifestUnit>, i: nat, j: nat)
    requires i < j < |units| && DirFor(units[i]) == DirFor(units[j])
    ensures multiset(Map(DirOf(), units))[DirFor(units[i])] >= 2
  {
    DirIs(units[i]);
    DirIs(units[j]);
    CountedTwice(Map(DirOf(), units), i, j);
  }

  lemma MatchesAreListed(m: Entries, units: seq<ManifestUnit>)
    requires UnitNamesSplit(m) && ManifestMatches(units, UnitDirs(m))
    ensures ListedOneToOne(m, units)
  {
    forall i, j | 0 <= i < j < |units|
      ensures units[i].form != units[j].form && DirFor(units[i]) != DirFor(units[j])
    {
      assert ManifestForm()(units[i]) != ManifestForm()(units[j]);
      DirIs(units[i]);
      assert DirOf()(units[i]) in UnitDirs(m);
      if DirFor(units[i]) == DirFor(units[j]) { ListedTwice(units, i, j); }
    }
    forall dir
      ensures HasDir(m, dir) <==> Listed(units, dir)
    {
      DirsAre(m, dir);
      if Listed(units, dir) {
        var i :| 0 <= i < |units| && DirFor(units[i]) == dir;
        DirIs(units[i]);
        assert units[i] in units;
      }
      if HasDir(m, dir) { CountedIsListed(units, dir); }
    }
  }

  lemma CountedIsListed(units: seq<ManifestUnit>, dir: string)
    requires multiset(Map(DirOf(), units))[dir] == 1
    ensures Listed(units, dir)
  {
    var dirs := Map(DirOf(), units);
    assert dir in multiset(dirs);
    var i :| 0 <= i < |dirs| && dirs[i] == dir;
    DirIs(units[i]);
  }

  lemma ListedMatch(m: Entries, units: seq<ManifestUnit>)
    requires UnitNamesSplit(m) && ListedOneToOne(m, units)
    ensures ManifestMatches(units, UnitDirs(m))
  {
    forall mu | mu in units
      ensures DirOf()(mu) in UnitDirs(m)
    {
      var i :| 0 <= i < |units| && units[i] == mu;
      DirIs(mu);
      assert Listed(units, DirFor(mu));
      DirsAre(m, DirFor(mu));
    }
    forall dir | dir in UnitDirs(m)
      ensures multiset(Map(DirOf(), units))[dir] == 1
    {
      DirsAre(m, dir);
      DirsOf(units);
      CountsOne(units, Map(DirOf(), units), dir);
    }
  }

  // ---- digests ----

  // The names of all entries but the manifest and the integrity block, in order.
  ghost predicate ContentNames(m: Entries, names: seq<string>) {
    && Sorted(names) && Distinct(names)
    && forall n :: n in names <==> n in m && n != "manifest.json" && n != "integrity.json"
  }

  // Both recorded digests are the hash of those entries, one after the other.
  ghost predicate DigestIs(hash: Hash, m: Entries, names: seq<string>, b: Blocks) {
    b.integrity.digest == b.manifest.digest == hash(Joined(m, names)) && b.integrity.digest != ""
  }

  lemma {:induction false} JoinedAlike(m: Entries, m': Entries, names: seq<string>)
    requires forall n :: n in names ==> (n in m <==> n in m') && (n in m ==> m[n] == m'[n])
    ensures Joined(m, names) == Joined(m', names)
  {
    if names != [] {
      assert names[|names| - 1] in names;
      JoinedAlike(m, m', names[..|names| - 1]);
    }
  }

  lemma DigestIff(hash: Hash, m: Entries, names: seq<string>, b: Blocks)
    requires ContentNames(m, names)
    ensures PackageDigestHolds(PackageDigest(hash, m), b) <==> DigestIs(hash, m, names, b)
  {
    SortedIsAscending(names, Digested(m).Keys);
    JoinedAlike(m, Digested(m), names);
  }

  // The last record under the key.
  ghost predicate LastRecord(records: seq<Recorded>, k: nat, key: string) {
    k < |records| && records[k].key == key && forall j :: k < j < |records| ==> records[j].key != key
  }

  ghost predicate RecordFits(records: seq<Recorded>, key: string, digest: string) {
    forall k: nat :: LastRecord(records, k, key) ==> records[k].digest == digest
  }

  lemma {:induction false} ByKeyAt(records: seq<Recorded>, key: string)
    ensures key in ByKey(records) <==> exists k: nat :: LastRecord(records, k, key)
    ensures forall k: nat :: LastRecord(records, k, key) ==> ByKey(records)[key] == records[k].digest
  {
    if records != [] {
      var n := |records| - 1;
      ByKeyAt(records[..n], key);
      if records[n].key == key {
        assert LastRecord(records, n, key);
      } else {
        forall k: nat
          ensures LastRecord(records, k, key) <==> LastRecord(records[..n], k, key)
        {
        }
      }
    }
  }

  lemma RecordIff(records: seq<Recorded>, key: string, digest: string)
    ensures RecordAgrees(ByKey(records), key, digest) <==> RecordFits(records, key, digest)
  {
    ByKeyAt(records, key);
  }

  // The bytes of the unit as they lie in the package.
  function UnitBytes(m: Entries, u: PackedUnit): Bytes {
    var i := u.doc.identity;
    var name := "units/" + i.ns + "/" + i.typ + "-" + i.id + "-v" + Itoa(i.version) + "/unit.json";
    (if name in m then m[name] else "") + u.content
  }

  ghost predicate UnitDigestsFit(hash: Hash, m: Entries, b: Blocks, units: seq<PackedUnit>) {
    && (forall u :: u in units ==> UnitDigestFits(hash, m, b, u))
    && |KeysOf(b.integrity.units)| == |units|
  }

  ghost predicate UnitDigestFits(hash: Hash, m: Entries, b: Blocks, u: PackedUnit) {
    && (forall mu :: mu in b.manifest.units && mu.form == u.doc.form ==> mu.digest == hash(UnitBytes(m, u)))
    && RecordFits(b.integrity.units, u.doc.form, hash(UnitBytes(m, u)))
  }

  lemma UnitDigestsIff(hash: Hash, m: Entries, b: Blocks, units: seq<PackedUnit>)
    ensures UnitDigestsHold(hash, m, b, units) <==> UnitDigestsFit(hash, m, b, units)
  {
    ByKeyKeys(b.integrity.units);
    assert |ByKey(b.integrity.units)| == |ByKey(b.integrity.units).Keys|;
    forall u
      ensures StoredHash(hash, m, u) == hash(UnitBytes(m, u))
      ensures RecordAgrees(ByKey(b.integrity.units), u.doc.form, StoredHash(hash, m, u)) <==>
              RecordFits(b.integrity.units, u.doc.form, hash(UnitBytes(m, u)))
    {
      RecordIff(b.integrity.units, u.doc.form, StoredHash(hash, m, u));
    }
  }

  ghost predicate AttachmentDigestsFit(hash: Hash, b: Blocks, attachments: seq<Attachment>) {
    && (forall a :: a in attachments ==> RecordFits(b.integrity.attachments, a.id, hash(a.data)))
    && |KeysOf(b.integrity.attachments)| == |attachments|
  }

  lemma AttachmentDigestsIff(hash: Hash, b: Blocks, attachments: seq<Attachment>)
    ensures AttachmentDigestsHold(hash, b, attachments) <==> AttachmentDigestsFit(hash, b, attachments)
  {
    ByKeyKeys(b.integrity.attachments);
    assert |ByKey(b.integrity.attachments)| == |ByKey(b.integrity.attachments).Keys|;
    forall a: Attachment
      ensures RecordAgrees(ByKey(b.integrity.attachments), a.id, hash(a.data)) <==>
              RecordFits(b.integrity.attachments, a.id, hash(a.data))
    {
      RecordIff(b.integrity.attachments, a.id, hash(a.data));
    }
  }

  // ---- echoes ----

  ghost predicate EchoesFit(b: Blocks, units: nat, attachments: nat) {
    && b.manifest.serialization == b.header.serialization && b.manifest.exchange == b.header.exchange
    && b.manifest.specification == b.header.specification && b.manifest.packageLabel == b.header.packageLabel
    && b.manifest.scope == b.header.scope
    && b.manifest.counts.units == units && b.manifest.counts.attachments == attachments
    && (b.header.serialization in {"2", "1.1"} ==>
          b.header.packageLabel == "rsf-" + b.header.scope + "-" + (if b.header.ns == "" then "" else b.header.ns + "-")
                                   + b.header.serialization)
  }

  lemma EchoesIff(b: Blocks, units: nat, attachments: nat)
    ensures SelfConsistent(b, units, attachments) <==> EchoesFit(b, units, attachments)
  {
    var h := b.header;
    assert "rsf-" + h.scope + "-" + "" == "rsf-" + h.scope + "-";
    Regroup("rsf-" + h.scope + "-", h.ns, "-");
  }

  // ---- the whole package ----

  // Everything the loader asks of the entries m to return l.
  ghost predicate ReadsAs(c: Codec, hash: Hash, m: Entries, l: Loaded, names: seq<string>, listing: seq<PackedUnit>) {
    && NamesKnown(m) && UnitNamesSplit(m) && BlocksAre(c, m, l.blocks)
    && ListedOneToOne(m, l.blocks.manifest.units)
    && UnitsRead(c, l.blocks.legacy, m, l.blocks.manifest.units, listing)
    && multiset(l.units) == multiset(listing) && SortedBy(l.units, FormOf())
    && AreAttachments(m, l.attachments)
    && DigestIs(hash, m, names, l.blocks)
    && UnitDigestsFit(hash, m, l.blocks, l.units) && AttachmentDigestsFit(hash, l.blocks, l.attachments)
    && EchoesFit(l.blocks, |l.units|, |l.attachments|)
  }

  lemma OpensIff(c: Codec, m: Entries, b: Blocks)
    ensures Opens(c, m) && HasBlocks(m) && DecodeBlocks(c, m) == Some(b) <==>
            NamesKnown(m) && UnitNamesSplit(m) && BlocksAre(c, m, b)
  {
    NamesIff(m);
    BlocksIff(c, m, b);
  }

  lemma VerifiesIff(hash: Hash, m: Entries, b: Blocks, units: seq<PackedUnit>, attachments: seq<Attachment>,
      names: seq<string>)
    requires ContentNames(m, names)
    ensures Verifies(hash, m, b, units, attachments) <==>
              && DigestIs(hash, m, names, b) && UnitDigestsFit(hash, m, b, units)
              && AttachmentDigestsFit(hash, b, attachments) && EchoesFit(b, |units|, |attachments|)
  {
    DigestIff(hash, m, names, b);
    UnitDigestsIff(hash, m, b, units);
    AttachmentDigestsIff(hash, b, attachments);
    EchoesIff(b, |units|, |attachments|);
  }

  lemma HasUnitsIff(c: Codec, m: Entries, b: Blocks, listing: seq<PackedUnit>)
    requires UnitNamesSplit(m)
    ensures ManifestMatches(b.manifest.units, UnitDirs(m)) && LoadUnits(c, b.legacy, m, b.manifest.units) == Some(listing)
            <==> ListedOneToOne(m, b.manifest.units) && UnitsRead(c, b.legacy, m, b.manifest.units, listing)
  {
    UnitsReadIff(c, b.legacy, m, b.manifest.units, listing);
    if ManifestMatches(b.manifest.units, UnitDirs(m)) { MatchesAreListed(m, b.manifest.units); }
    if ListedOneToOne(m, b.manifest.units) { ListedMatch(m, b.manifest.units); }
  }

  // The loader returns l exactly when the names, the bytes and the decoded blocks fit together.
  lemma LoadsIff(c: Codec, hash: Hash, m: Entries, l: Loaded, names: seq<string>)
    requires ContentNames(m, names)
    ensures LoadsAs(c, hash, m, l) <==> exists listing :: ReadsAs(c, hash, m, l, names, listing)
  {
    OpensIff(c, m, l.blocks);
    VerifiesIff(hash, m, l.blocks, l.units, l.attachments, names);
    if LoadsAs(c, hash, m, l) {
      var listing := LoadUnits(c, l.blocks.legacy, m, l.blocks.manifest.units).value;
      HasUnitsIff(c, m, l.blocks, listing);
      assert ReadsAs(c, hash, m, l, names, listing);
    }
    if exists listing :: ReadsAs(c, hash, m, l, names, listing) {
      var listing :| ReadsAs(c, hash, m, l, names, listing);
      HasUnitsIff(c, m, l.blocks, listing);
    }
  }

  // ---- tampering ----

  lemma {:induction false} JoinedDiffers(m: Entries, names: seq<string>, n: string, data: Bytes)
    requires Distinct(names) && n in names && n in m && data != m[n]
    ensures Joined(m[n := data], names) != Joined(m, names)
  {
    var last, rest := names[|names| - 1], names[..|names| - 1];
    assert names == rest + [last];
    if last == n {
      JoinedAlike(m, m[n := data], rest);
      assert (Joined(m, rest) + m[n])[|Joined(m, rest)|..] == m[n];
      assert (Joined(m, rest) + data)[|Joined(m, rest)|..] == data;
    } else {
      JoinedDiffers(m, rest, n, data);
      var tail := if last in m then m[last] else "";
      SameTail(Joined(m, rest), Joined(m[n := data], rest), tail);
    }
  }

  lemma SameTail(a: string, b: string, tail: string)
    ensures a + tail == b + tail ==> a == b
  {
    assert (a + tail)[..|a|] == a && (b + tail)[..|b|] == b;
  }

  lemma NamesExist(m: Entries) returns (names: seq<string>)
    ensures ContentNames(m, names)
  {
    names := Ordering.Ascending(Digested(m).Keys);
    AscendingIsSorted(Digested(m).Keys);
  }

  lemma AcceptedDigest(c: Codec, hash: Hash, m: Entries, l: Loaded, names: seq<string>)
    requires LoadsAs(c, hash, m, l) && ContentNames(m, names)
    ensures l.blocks.integrity.digest == hash(Joined(m, names)) && BlocksAre(c, m, l.blocks)
  {
    LoadsIff(c, hash, m, l, names);
  }

  // An integrity block that reads in both versions reads the same: only legacy keys are renamed, and the current
  // version refuses them.
  ghost predicate VersionsAgree(c: Codec) {
    forall data :: c.getIntegrity(true, data).Some? && c.getIntegrity(false, data).Some? ==>
      c.getIntegrity(true, data) == c.getIntegrity(false, data)
  }

  // No single entry outside the manifest and the integrity block can be exchanged in an accepted package: not the
  // header, the declarations, a part of a unit or an attachment.
  lemma TamperedIsRefused(c: Codec, hash: Hash, m: Entries, n: string, data: Bytes)
    requires VersionsAgree(c) && Injective(hash) && Accepts(c, hash, m) && n in m && data != m[n]
    requires n != "manifest.json" && n != "integrity.json"
    ensures !Accepts(c, hash, m[n := data])
  {
    var l :| LoadsAs(c, hash, m, l);
    var names := NamesExist(m);
    AcceptedDigest(c, hash, m, l, names);
    JoinedDiffers(m, names, n, data);
    forall l' | LoadsAs(c, hash, m[n := data], l')
      ensures l'.blocks.integrity.digest != l.blocks.integrity.digest && BlocksAre(c, m[n := data], l'.blocks)
    {
      AcceptedDigest(c, hash, m[n := data], l', names);
    }
  }

  // ---- what comes back ----

  // A well-formed package comes back with exactly what was put in: its label, scope and namespace under the current
  // versions, its seeds and external references, its units and its attachments.
  lemma PackageComesBack(c: Codec, hash: Hash, b: Built)
    requires Lossless(c) && NonEmptyHash(hash) && WellFormedBuilt(b)
    ensures var l := BuiltLoaded(c, hash, b);
            && LoadsAs(c, hash, AllEntries(c, hash, b), l)
            && l.blocks.header == Header("2", "1", "1.3", "eka", b.packageLabel, b.scope, b.ns)
            && l.blocks.declarations == Declarations(Closure(b.scope, b.seeds), b.externals, [])
            && l.blocks.manifest.closure == Closure(b.scope, b.seeds)
            && l.blocks.manifest.counts == Counts(|b.units|, |b.attachments|, |b.externals|, 0)
            && multiset(l.units) == multiset(b.units) && multiset(l.attachments) == multiset(b.attachments)
  {
    RoundTrip(c, hash, b);
    SortBySorts(b.units, FormOf());
    SortBySorts(b.attachments, IdOf());
  }

  // What the manifest says of a unit.
  function ListedAs(c: Codec, hash: Hash, u: PackedUnit): ManifestUnit {
    var d, i := u.doc, u.doc.identity;
    ManifestUnit(d.form, i.typ, i.id, i.ns, i.version, d.revision, d.representation,
                 "units/" + i.ns + "/" + i.typ + "-" + i.id + "-v" + Itoa(i.version) + "/content",
                 hash(c.putUnit(d) + u.content))
  }

  lemma ListedIs(c: Codec, hash: Hash, u: PackedUnit)
    ensures ManifestUnitOf(c, hash)(u) == ListedAs(c, hash, u)
  {
  }

  lemma MappedFrom<T, U>(f: T -> U, s: seq<T>, y: U)
    ensures y in Map(f, s) <==> exists x :: x in s && y == f(x)
  {
    if y in Map(f, s) {
      var i :| 0 <= i < |Map(f, s)| && Map(f, s)[i] == y;
      assert s[i] in s;
    }
    if exists x :: x in s && y == f(x) {
      var x :| x in s && y == f(x);
      var i :| 0 <= i < |s| && s[i] == x;
      assert Map(f, s)[i] == y;
    }
  }

  // The manifest of an assembled package lists its units, one entry each, with their own fields and digests.
  lemma ManifestLists(c: Codec, hash: Hash, b: Built, mu: ManifestUnit)
    ensures |ManifestUnits(c, hash, b)| == |b.units|
    ensures mu in ManifestUnits(c, hash, b) <==> exists u :: u in b.units && mu == ListedAs(c, hash, u)
  {
    var listed := Map(ManifestUnitOf(c, hash), b.units);
    SortBySorts(listed, ManifestForm());
    assert |multiset(SortBy(listed, ManifestForm()))| == |multiset(listed)|;
    assert mu in SortBy(listed, ManifestForm()) <==> mu in multiset(listed);
    MappedFrom(ManifestUnitOf(c, hash), b.units, mu);
    forall u
      ensures ManifestUnitOf(c, hash)(u) == ListedAs(c, hash, u)
    {
      ListedIs(c, hash, u);
    }
  }
}
