/** What the source loader accepts, said of entry names, bytes and decoded blocks alone (exchange/snapshot.go). */
module SnapshotReading {
  import opened Ordering
  import opened Taxonomy
  import opened Text
  import opened References
  import opened KeyedSort
  import opened RsfModel
  import opened RsfAssemble
  import opened RsfRoundTrip
  import opened SnapshotSource
  import Snapshot

  // The header is there, in the current version, with a label and a scope.
  ghost predicate HeaderIs(c: Codec, m: Entries, h: Header) {
    && "header.json" in m && !c.legacy(m["header.json"]) && c.getHeader(false, m["header.json"]) == Some(h)
    && h.packageLabel != "" && h.scope != ""
  }

  // The block of a unit, in the current keys or, where those do not read, in renamed ones.
  ghost predicate DocIs(c: Codec, data: Bytes, doc: UnitDoc) {
    || c.getUnit(false, data) == Some(doc)
    || (c.getUnit(false, data) == None && c.legacyUnit(data) && c.getUnit(true, data) == Some(doc))
  }

  // Both entries of the directory are there, and it is the directory of the identity in the block.
  ghost predicate UnitIs(c: Codec, m: Entries, dir: string, u: PackedUnit) {
    var i := u.doc.identity;
    && dir + "/unit.json" in m && DocIs(c, m[dir + "/unit.json"], u.doc)
    && dir + "/content" in m && u.content == m[dir + "/content"]
    && dir == "units/" + i.ns + "/" + i.typ + "-" + i.id + "-v" + Itoa(i.version)
  }

  // Some unit reads in the directory.
  ghost predicate SomeUnit(c: Codec, m: Entries, dir: string) {
    exists u :: UnitIs(c, m, dir, u)
  }

  ghost predicate IsPart(n: string, dir: string) {
    n == dir + "/unit.json" || n == dir + "/content"
  }

  // Every entry under units is part of a unit, and every part of a unit, wherever it lies, belongs to one that reads.
  ghost predicate PartsRead(c: Codec, m: Entries) {
    && (forall n :: n in m && "units/" <= n ==> exists dir :: IsPart(n, dir))
    && (forall n, dir :: n in m && IsPart(n, dir) ==> SomeUnit(c, m, dir))
  }

  // The units that read, ascending by directory, no form twice.
  ghost predicate UnitsAre(c: Codec, m: Entries, units: seq<PackedUnit>) {
    && (forall i, j :: 0 <= i < j < |units| ==>
          Less(DirText(units[i]), DirText(units[j])) && units[i].doc.form != units[j].doc.form)
    && forall u :: u in units <==> UnitIs(c, m, DirText(u), u)
  }

  function DirText(u: PackedUnit): string {
    var i := u.doc.identity;
    "units/" + i.ns + "/" + i.typ + "-" + i.id + "-v" + Itoa(i.version)
  }

  ghost predicate AttachmentsAre(m: Entries, attachments: seq<Attachment>) {
    && (forall i, j :: 0 <= i < j < |attachments| ==> Less(attachments[i].id, attachments[j].id))
    && forall a :: a in attachments <==>
         a.id != "" && "attachments/" + a.id in m && m["attachments/" + a.id] == a.data
  }

  // ---- the readings ----

  lemma HeaderIff(c: Codec, m: Entries, h: Header)
    ensures ReadHeader(c, m) == Some(h) <==> HeaderIs(c, m, h)
  {
  }

  lemma DocIff(c: Codec, data: Bytes, doc: UnitDoc)
    ensures DecodeUnit(c, data) == Some(doc) <==> DocIs(c, data, doc)
  {
  }

  lemma UnitIff(c: Codec, m: Entries, dir: string, u: PackedUnit)
    ensures SourceUnit(c, m, dir) == Some(u) <==> UnitIs(c, m, dir, u)
  {
    if DocName(dir) in m { DocIff(c, m[DocName(dir)], u.doc); }
  }

  lemma LooksIff(n: string)
    ensures LooksLikeUnit(n) <==> exists dir :: IsPart(n, dir)
  {
    SuffixPut(n);
    forall dir
      ensures IsPart(n, dir) ==> LooksLikeUnit(n)
    {
      SuffixCut(dir);
    }
    if EndsWith(n, DOC) { assert IsPart(n, CutSuffix(n, DOC)); }
    if EndsWith(n, CONTENT) { assert IsPart(n, CutSuffix(n, CONTENT)); }
  }

  lemma SomeUnitIff(c: Codec, m: Entries, dir: string)
    ensures SourceUnit(c, m, dir).Some? <==> SomeUnit(c, m, dir)
  {
    forall u
      ensures SourceUnit(c, m, dir) == Some(u) <==> UnitIs(c, m, dir, u)
    {
      UnitIff(c, m, dir, u);
    }
  }

  lemma DirIff(m: Entries, dir: string)
    ensures IsDir(m, dir) <==> exists n :: n in m && IsPart(n, dir)
  {
    assert IsPart(dir + "/unit.json", dir) && IsPart(dir + "/content", dir);
  }

  lemma PartsIff(c: Codec, m: Entries)
    ensures UnitsReadable(c, m) <==> PartsRead(c, m)
  {
    forall n
      ensures LooksLikeUnit(n) <==> exists dir :: IsPart(n, dir)
    {
      LooksIff(n);
    }
    forall dir
      ensures SourceUnit(c, m, dir).Some? <==> SomeUnit(c, m, dir)
      ensures IsDir(m, dir) <==> exists n :: n in m && IsPart(n, dir)
    {
      SomeUnitIff(c, m, dir);
      DirIff(m, dir);
    }
    if PartsRead(c, m) {
      forall dir | IsDir(m, dir)
        ensures SourceUnit(c, m, dir).Some?
      {
        var n :| n in m && IsPart(n, dir);
      }
    }
  }

  lemma AscendingIff<T>(s: seq<T>, key: T -> string)
    ensures SortedBy(s, key) && KeyedApart(s, key) <==> forall i, j :: 0 <= i < j < |s| ==> Less(key(s[i]), key(s[j]))
  {
    if SortedBy(s, key) && KeyedApart(s, key) {
      forall i, j | 0 <= i < j < |s|
        ensures Less(key(s[i]), key(s[j]))
      {
        assert AtMost(key(s[i]), key(s[j])) && key(s[i]) != key(s[j]);
      }
    }
    if forall i, j :: 0 <= i < j < |s| ==> Less(key(s[i]), key(s[j])) {
      forall i, j | 0 <= i < j < |s|
        ensures AtMost(key(s[i]), key(s[j])) && key(s[i]) != key(s[j])
      {
        LessIrreflexive(key(s[i]));
      }
    }
  }

  lemma DirIs(u: PackedUnit)
    ensures UnitDir()(u) == DirText(u)
  {
  }

  lemma UnitsIff(c: Codec, m: Entries, units: seq<PackedUnit>)
    ensures AreUnits(c, m, units) <==> UnitsAre(c, m, units)
  {
    AscendingIff(units, UnitDir());
    forall u: PackedUnit
      ensures UnitDir()(u) == DirText(u)
      ensures SourceUnit(c, m, UnitDir()(u)) == Some(u) <==> UnitIs(c, m, DirText(u), u)
    {
      DirIs(u);
      UnitIff(c, m, DirText(u), u);
    }
  }

  lemma AttachmentsIff(m: Entries, attachments: seq<Attachment>)
    ensures AreSourceAttachments(m, attachments) <==> AttachmentsAre(m, attachments)
  {
    AscendingIff(attachments, IdOf());
  }

  // The names of the source entries, in order.
  ghost predicate SourceNames(m: Entries, names: seq<string>) {
    && Sorted(names) && Distinct(names)
    && forall n :: n in names <==> n in m && n !in {"manifest.json", "declarations.json", "integrity.json"}
  }

  // Every name and every content, each closed by a zero byte.
  ghost function Closed(m: Entries, names: seq<string>): string {
    if names == [] then ""
    else names[0] + ['\0'] + (if names[0] in m then m[names[0]] else "") + ['\0'] + Closed(m, names[1..])
  }

  lemma {:induction false} StreamIs(m: Entries, source: Entries, names: seq<string>)
    requires forall n :: n in names ==> n in source && n in m && source[n] == m[n]
    ensures Snapshot.Stream(names, source) == Closed(m, names)
  {
    if names != [] {
      StreamIs(m, source, names[1..]);
      FrameIs(names[0], m[names[0]], Closed(m, names[1..]));
    }
  }

  lemma FrameIs(name: string, data: string, rest: string)
    ensures Snapshot.Framed(name, data) + rest == name + ['\0'] + data + ['\0'] + rest
  {
    assert name + ['\0'] + (data + ['\0']) == name + ['\0'] + data + ['\0'];
  }

  lemma DigestIff(m: Entries, names: seq<string>)
    requires SourceNames(m, names)
    ensures Snapshot.FingerprintInput(m) == Closed(m, names)
  {
    SortedIsAscending(names, Snapshot.Source(m).Keys);
    StreamIs(m, Snapshot.Source(m), names);
  }

  // ---- the whole snapshot ----

  ghost predicate SourceReads(c: Codec, m: Entries, s: SourceSnapshot, names: seq<string>) {
    && HeaderIs(c, m, s.header) && PartsRead(c, m) && UnitsAre(c, m, s.units) && AttachmentsAre(m, s.attachments)
    && s.digest == Snapshot.Sha256(Closed(m, names))
  }

  // The loader returns s exactly when names, bytes and decoded blocks fit together.
  lemma LoadsSourceIff(c: Codec, m: Entries, s: SourceSnapshot, names: seq<string>)
    requires SourceNames(m, names)
    ensures LoadsSource(c, m, s) <==> SourceReads(c, m, s, names)
  {
    HeaderIff(c, m, s.header);
    PartsIff(c, m);
    UnitsIff(c, m, s.units);
    AttachmentsIff(m, s.attachments);
    DigestIff(m, names);
  }
}
