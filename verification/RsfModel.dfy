/** The package model of the EKA Reference Serialization Format (exchange/model.go, exchange/discover.go). */
module RsfModel {
  import opened Ordering
  import opened Taxonomy
  import opened Text
  import opened References
  import opened KeyedSort

  // Byte strings.
  type Bytes = string

  // Entry names to contents.
  type Entries = map<string, Bytes>

  // An identity as decoded: nothing about its components has been checked.
  datatype RawIdentity = RawIdentity(ns: string, typ: string, id: string, version: int)

  function Raw(i: Identity): RawIdentity {
    RawIdentity(i.ns, Spelling(i.typ), i.id, i.version)
  }

  function RawForm(i: RawIdentity): string {
    i.ns + "/" + i.typ + ":" + i.id + ":" + Itoa(i.version)
  }

  function RawDir(i: RawIdentity): string {
    UnitDirOf(i.ns, i.typ, i.id, i.version)
  }

  // unit.json; body stands for the fields no check looks at.
  datatype UnitDoc = UnitDoc(
    identity: RawIdentity, form: string, revision: int, representation: string, file: string, body: string)

  datatype PackedUnit = PackedUnit(doc: UnitDoc, content: Bytes)

  datatype Attachment = Attachment(id: string, data: Bytes)

  datatype Header = Header(
    serialization: string, exchange: string, specification: string, exporter: string,
    packageLabel: string, scope: string, ns: string)

  datatype ManifestUnit = ManifestUnit(
    form: string, typ: string, id: string, ns: string, version: int, revision: int,
    representation: string, contentFile: string, digest: string)

  datatype Counts = Counts(units: int, attachments: int, externals: int, extensions: int)

  datatype Closure = Closure(scope: string, seeds: seq<string>)

  datatype Manifest = Manifest(
    scope: string, packageLabel: string, serialization: string, exchange: string, specification: string,
    digest: string, units: seq<ManifestUnit>, counts: Counts, closure: Closure)

  datatype Declarations = Declarations(closure: Closure, externals: seq<string>, extensions: seq<string>)

  // The digest recorded for a unit form or an attachment ID.
  datatype Recorded = Recorded(key: string, digest: string)

  datatype Integrity = Integrity(digest: string, units: seq<Recorded>, attachments: seq<Recorded>)

  const SERIALIZATION := "2"
  const LEGACY_SERIALIZATION := "1.1"
  const EXCHANGE_FORMAT := "1"
  const SPECIFICATION := "1.3"
  const EXPORTER := "eka"
  const STRUCTURED_TEXT := "eka/structured-text/1"
  const STRUCTURED_JSON := "eka/structured-json/1"

  function Label(scope: string, ns: string, version: string): string {
    if ns == "" then "rsf-" + scope + "-" + version
    else "rsf-" + scope + "-" + ns + "-" + version
  }

  // The JSON library: one printer and one strict reader per block. legacy tells the headers whose package has its
  // keys renamed before it is read, legacyUnit the unit blocks that are read with renamed keys on their own.
  datatype Codec = Codec(
    putHeader: Header -> Bytes, getHeader: (bool, Bytes) -> Option<Header>,
    putManifest: Manifest -> Bytes, getManifest: (bool, Bytes) -> Option<Manifest>,
    putDeclarations: Declarations -> Bytes, getDeclarations: (bool, Bytes) -> Option<Declarations>,
    putIntegrity: Integrity -> Bytes, getIntegrity: (bool, Bytes) -> Option<Integrity>,
    putUnit: UnitDoc -> Bytes, getUnit: (bool, Bytes) -> Option<UnitDoc>,
    legacy: Bytes -> bool, legacyUnit: Bytes -> bool)

  // Reading back what was printed, in the current version, gives the same block.
  ghost predicate Lossless(c: Codec) {
    && (forall h: Header :: h.serialization == SERIALIZATION ==> !c.legacy(c.putHeader(h)))
    && (forall h :: c.getHeader(false, c.putHeader(h)) == Some(h))
    && (forall m :: c.getManifest(false, c.putManifest(m)) == Some(m))
    && (forall d :: c.getDeclarations(false, c.putDeclarations(d)) == Some(d))
    && (forall i :: c.getIntegrity(false, c.putIntegrity(i)) == Some(i))
    && (forall u :: c.getUnit(false, c.putUnit(u)) == Some(u))
  }

  type Hash = Bytes -> string

  // ---- entry names ----

  const UNITS := "units/"
  const ATTACHMENTS := "attachments/"

  predicate IsRootEntry(name: string) {
    name == "header.json" || name == "manifest.json" || name == "declarations.json" || name == "integrity.json"
  }

  predicate IsKnownEntry(name: string) {
    IsRootEntry(name) || UNITS <= name || ATTACHMENTS <= name
  }

  function DocName(dir: string): string {
    dir + "/unit.json"
  }

  function ContentName(dir: string): string {
    dir + "/content"
  }

  // The directory of a unit entry.
  function SplitUnitEntry(name: string): Option<string>
    requires UNITS <= name
  {
    var rest := name[|UNITS|..];
    var slash := LastIndexOfChar(rest, '/');
    if slash < 0 then None
    else if rest[slash + 1..] == "unit.json" || rest[slash + 1..] == "content" then Some(UNITS + rest[..slash])
    else None
  }

  lemma RawDirPrefix(i: RawIdentity)
    ensures RawDir(i) == UNITS + RawDir(i)[|UNITS|..] && UNITS <= RawDir(i)
  {
    UnitDirShape(i.ns, i.typ, i.id, i.version);
  }

  lemma BehindPrefix(p: string, rest: string, kind: string)
    ensures p <= p + rest + "/" + kind && (p + rest + "/" + kind)[|p|..] == rest + "/" + kind
  {
  }

  lemma SplitsBack(dir: string, kind: string)
    requires UNITS <= dir && (kind == "unit.json" || kind == "content")
    ensures UNITS <= dir + "/" + kind && SplitUnitEntry(dir + "/" + kind) == Some(dir)
  {
    var rest := dir[|UNITS|..];
    assert dir == UNITS + rest;
    BehindPrefix(UNITS, rest, kind);
    SplitLast(rest, '/', kind);
  }

  lemma NameShape(dir: string)
    ensures DocName(dir) == dir + "/" + "unit.json" && ContentName(dir) == dir + "/" + "content"
  {
    Regroup(dir, "/", "unit.json");
    Regroup(dir, "/", "content");
    assert "/" + "unit.json" == "/unit.json" && "/" + "content" == "/content";
  }

  lemma CutAt(n: string, p: string, rest: string, i: nat)
    requires n == p + rest && i < |rest| && rest[i] == '/'
    ensures n == (p + rest[..i]) + "/" + rest[i + 1..]
  {
    assert rest == rest[..i] + ("/" + rest[i + 1..]);
    Regroup(p, rest[..i], "/" + rest[i + 1..]);
    Regroup(p + rest[..i], "/", rest[i + 1..]);
  }

  lemma SplitIsName(n: string)
    requires UNITS <= n && SplitUnitEntry(n).Some?
    ensures var dir := SplitUnitEntry(n).value; UNITS <= dir && (n == DocName(dir) || n == ContentName(dir))
  {
    var rest := n[|UNITS|..];
    var slash := LastIndexOfChar(rest, '/');
    assert n == UNITS + rest;
    CutAt(n, UNITS, rest, slash);
    NameShape(UNITS + rest[..slash]);
  }

  // A name splits into a directory under units/ and one of the two parts, or not at all.
  lemma SplitEntryIff(n: string, dir: string)
    requires UNITS <= n
    ensures SplitUnitEntry(n) == Some(dir) <==> UNITS <= dir && (n == DocName(dir) || n == ContentName(dir))
  {
    if SplitUnitEntry(n).Some? { SplitIsName(n); }
    if UNITS <= dir {
      NameShape(dir);
      SplitsBack(dir, "unit.json");
      SplitsBack(dir, "content");
    }
  }

  // ---- digests ----

  // The contents of the named entries, one after the other.
  function Joined(m: Entries, names: seq<string>): Bytes {
    if names == [] then ""
    else Joined(m, names[..|names| - 1]) + if names[|names| - 1] in m then m[names[|names| - 1]] else ""
  }

  // The entries the package digest covers.
  function Digested(m: Entries): Entries {
    map n | n in m && n != "manifest.json" && n != "integrity.json" :: m[n]
  }

  ghost function PackageDigest(hash: Hash, m: Entries): string {
    hash(Joined(Digested(m), Ordering.Ascending(Digested(m).Keys)))
  }

  // A table of recorded digests; the last record of a key counts.
  function ByKey(records: seq<Recorded>): map<string, string> {
    if records == [] then map[]
    else ByKey(records[..|records| - 1])[records[|records| - 1].key := records[|records| - 1].digest]
  }

  ghost predicate KeysApart(records: seq<Recorded>) {
    forall i, j :: 0 <= i < j < |records| ==> records[i].key != records[j].key
  }

  ghost function KeysOf(records: seq<Recorded>): set<string> {
    set r | r in records :: r.key
  }

  lemma KeysOfStep(records: seq<Recorded>)
    requires records != []
    ensures KeysOf(records) == KeysOf(records[..|records| - 1]) + {records[|records| - 1].key}
  {
    assert records == records[..|records| - 1] + [records[|records| - 1]];
  }

  lemma {:induction false} ByKeyKeys(records: seq<Recorded>)
    ensures ByKey(records).Keys == KeysOf(records)
  {
    if records != [] {
      ByKeyKeys(records[..|records| - 1]);
      KeysOfStep(records);
    }
  }

  // A record under a new key makes the table one longer and leaves the others.
  lemma ByKeyStep(records: seq<Recorded>)
    requires records != [] && KeysApart(records)
    ensures var rest, last := records[..|records| - 1], records[|records| - 1];
            && last.key !in ByKey(rest) && |ByKey(records)| == |ByKey(rest)| + 1
            && ByKey(records) == ByKey(rest)[last.key := last.digest]
  {
    var rest, last := records[..|records| - 1], records[|records| - 1];
    ByKeyKeys(rest);
    forall r | r in rest
      ensures r.key != last.key
    {
      var i :| 0 <= i < |rest| && rest[i] == r;
      assert records[i] == r;
    }
    assert ByKey(records).Keys == ByKey(rest).Keys + {last.key};
    assert |ByKey(records).Keys| == |ByKey(rest).Keys| + 1;
  }

  lemma {:induction false} ByKeyHolds(records: seq<Recorded>)
    requires KeysApart(records)
    ensures |ByKey(records)| == |records|
    ensures forall i :: 0 <= i < |records| ==> records[i].key in ByKey(records) && ByKey(records)[records[i].key] == records[i].digest
  {
    if records != [] {
      var rest := records[..|records| - 1];
      ByKeyHolds(rest);
      ByKeyStep(records);
      forall i | 0 <= i < |rest|
        ensures records[i].key in ByKey(records) && ByKey(records)[records[i].key] == records[i].digest
      {
        assert rest[i] == records[i];
      }
    }
  }

  // Recording every entry of a table and reading the records back gives the table.
  lemma TableOf(table: map<string, string>, records: seq<Recorded>)
    requires KeysApart(records) && KeysOf(records) == table.Keys
    requires forall i :: 0 <= i < |records| && records[i].key in table ==> table[records[i].key] == records[i].digest
    ensures ByKey(records) == table
  {
    ByKeyHolds(records);
    ByKeyKeys(records);
    forall k | k in table
      ensures ByKey(records)[k] == table[k]
    {
      var r :| r in records && r.key == k;
      var i :| 0 <= i < |records| && records[i] == r;
    }
  }

  // Sorted listing of the entry names.
  method SortedNames(m: Entries) returns (names: seq<string>)
    ensures names == Ordering.Ascending(m.Keys)
  {
    names := [];
    var todo := m.Keys;
    while todo != {}
      invariant todo <= m.Keys && Distinct(names)
      invariant forall n :: n in names <==> n in m && n !in todo
    {
      var name :| name in todo;
      todo := todo - {name};
      names := names + [name];
    }
    SortKeepsElements(names);
    names := SortStrings(names);
    SortedIsAscending(names, m.Keys);
  }
}
