/** Emitting and loading the source entries of a package (exchange/snapshot.go, exchange/decode.go). */
module SnapshotSource {
  import opened Ordering
  import opened Taxonomy
  import opened Text
  import opened References
  import opened KeyedSort
  import opened RsfModel
  import opened RsfAssemble
  import opened RsfLoad
  import opened RsfRoundTrip
  import Snapshot

  // ---- emitting ----

  ghost function SourceEntries(c: Codec, hash: Hash, b: Built): Entries {
    Snapshot.Source(AllEntries(c, hash, b))
  }

  // The named entries of m, in the order of the names.
  function Listing(m: Entries, names: seq<string>): seq<NamedEntry> {
    if names == [] then []
    else
      var n := names[|names| - 1];
      Listing(m, names[..|names| - 1]) + [NamedEntry(n, if n in m then m[n] else "")]
  }

  function WithoutAggregates(names: seq<string>): seq<string> {
    if names == [] then []
    else
      var n := names[|names| - 1];
      WithoutAggregates(names[..|names| - 1]) + if Snapshot.IsAggregate(n) then [] else [n]
  }

  lemma {:induction false} FilteredNames(names: seq<string>)
    requires Sorted(names) && Distinct(names)
    ensures Sorted(WithoutAggregates(names)) && Distinct(WithoutAggregates(names))
    ensures forall x :: x in WithoutAggregates(names) <==> x in names && !Snapshot.IsAggregate(x)
  {
    if names != [] {
      var rest, last := names[..|names| - 1], names[|names| - 1];
      FilteredNames(rest);
      assert names == rest + [last];
      var kept := WithoutAggregates(rest);
      forall i | 0 <= i < |kept|
        ensures AtMost(kept[i], last) && kept[i] != last
      {
        assert kept[i] in rest;
      }
    }
  }

  lemma FilteredAscending(all: Entries)
    ensures WithoutAggregates(Ordering.Ascending(all.Keys)) == Ordering.Ascending(Snapshot.Source(all).Keys)
  {
    AscendingIsSorted(all.Keys);
    FilteredNames(Ordering.Ascending(all.Keys));
    SortedIsAscending(WithoutAggregates(Ordering.Ascending(all.Keys)), Snapshot.Source(all).Keys);
  }

  // The assembled entries without the aggregates, in name order, and their fingerprint.
  method EmitSource(c: Codec, hash: Hash, b: Built) returns (src: seq<NamedEntry>, fingerprint: Snapshot.Digest)
    ensures var m := SourceEntries(c, hash, b);
            && src == Listing(m, Ordering.Ascending(m.Keys))
            && fingerprint == Snapshot.Sha256(Snapshot.FingerprintInput(m))
  {
    var files := Assemble(c, hash, b);
    src, fingerprint := EmitFiles(files, AllEntries(c, hash, b));
  }

  method EmitFiles(files: seq<NamedEntry>, ghost all: Entries)
    returns (src: seq<NamedEntry>, fingerprint: Snapshot.Digest)
    requires Files(files, all)
    ensures var m := Snapshot.Source(all);
            && src == Listing(m, Ordering.Ascending(m.Keys))
            && fingerprint == Snapshot.Sha256(Snapshot.FingerprintInput(m))
  {
    FilteredAscending(all);
    var entryMap: Entries;
    src, entryMap := DropAggregates(files, all);
    fingerprint := Snapshot.SnapshotFingerprint(entryMap);
  }

  // The entries among the given names that are no aggregates.
  ghost function Remaining(all: Entries, names: seq<string>): Entries {
    map n | n in all && n in names && !Snapshot.IsAggregate(n) :: all[n]
  }

  lemma RemainingStep(all: Entries, names: seq<string>, k: nat)
    requires k < |names| && names[k] in all
    ensures Remaining(all, names[..k + 1]) ==
            if Snapshot.IsAggregate(names[k]) then Remaining(all, names[..k])
            else Remaining(all, names[..k])[names[k] := all[names[k]]]
  {
    assert names[..k + 1] == names[..k] + [names[k]];
  }

  lemma ListingStep(all: Entries, names: seq<string>, k: nat)
    requires k < |names| && names[k] in all
    ensures var m := Snapshot.Source(all);
            Listing(m, WithoutAggregates(names[..k + 1])) ==
              Listing(m, WithoutAggregates(names[..k]))
              + if Snapshot.IsAggregate(names[k]) then [] else [NamedEntry(names[k], all[names[k]])]
  {
    assert names[..k + 1][..k] == names[..k];
    var kept := WithoutAggregates(names[..k]);
    assert (kept + [names[k]])[..|kept|] == kept && kept + [] == kept;
  }

  // The first k files have been looked at.
  ghost predicate Dropped(all: Entries, names: seq<string>, k: nat, src: seq<NamedEntry>, entryMap: Entries)
    requires k <= |names|
  {
    src == Listing(Snapshot.Source(all), WithoutAggregates(names[..k])) && entryMap == Remaining(all, names[..k])
  }

  lemma DropStep(all: Entries, names: seq<string>, k: nat, src: seq<NamedEntry>, entryMap: Entries)
    requires k < |names| && names[k] in all && Dropped(all, names, k, src, entryMap)
    ensures if Snapshot.IsAggregate(names[k]) then Dropped(all, names, k + 1, src, entryMap)
            else Dropped(all, names, k + 1, src + [NamedEntry(names[k], all[names[k]])], entryMap[names[k] := all[names[k]]])
  {
    ListingStep(all, names, k);
    RemainingStep(all, names, k);
    assert src + [] == src;
  }

  method DropAggregates(files: seq<NamedEntry>, ghost all: Entries) returns (src: seq<NamedEntry>, entryMap: Entries)
    requires Files(files, all)
    ensures entryMap == Snapshot.Source(all)
    ensures src == Listing(Snapshot.Source(all), WithoutAggregates(Ordering.Ascending(all.Keys)))
  {
    ghost var names := Ordering.Ascending(all.Keys);
    src, entryMap := [], map[];
    for k := 0 to |files|
      invariant Dropped(all, names, k, src, entryMap)
    {
      assert names[k] in all;
      DropStep(all, names, k, src, entryMap);
      var f := files[k];
      if !Snapshot.IsAggregate(f.name) {
        src := src + [f];
        entryMap := entryMap[f.name := f.data];
      }
    }
    assert names[..|names|] == names;
    assert Remaining(all, names) == Snapshot.Source(all);
  }

  // ---- loading ----

  datatype SourceSnapshot = SourceSnapshot(
    header: Header, units: seq<PackedUnit>, attachments: seq<Attachment>, digest: Snapshot.Digest)

  predicate EndsWith(s: string, suffix: string) {
    |suffix| <= |s| && s[|s| - |suffix|..] == suffix
  }

  function CutSuffix(s: string, suffix: string): string
    requires EndsWith(s, suffix)
  {
    s[..|s| - |suffix|]
  }

  const DOC := "/unit.json"
  const CONTENT := "/content"

  // A name that is read as part of a unit, wherever it lies.
  predicate LooksLikeUnit(name: string) {
    EndsWith(name, DOC) || EndsWith(name, CONTENT)
  }

  lemma SuffixesApart(s: string)
    ensures EndsWith(s, DOC) ==> s[|s| - 1] == 'n'
    ensures EndsWith(s, CONTENT) ==> s[|s| - 1] == 't'
  {
    if EndsWith(s, DOC) { assert s[|s| - |DOC|..][|DOC| - 1] == s[|s| - 1]; }
    if EndsWith(s, CONTENT) { assert s[|s| - |CONTENT|..][|CONTENT| - 1] == s[|s| - 1]; }
  }

  lemma SuffixCut(d: string)
    ensures EndsWith(DocName(d), DOC) && CutSuffix(DocName(d), DOC) == d
    ensures EndsWith(ContentName(d), CONTENT) && CutSuffix(ContentName(d), CONTENT) == d
  {
  }

  lemma SuffixPut(s: string)
    ensures EndsWith(s, DOC) ==> s == DocName(CutSuffix(s, DOC))
    ensures EndsWith(s, CONTENT) ==> s == ContentName(CutSuffix(s, CONTENT))
  {
  }

  function ReadHeader(c: Codec, m: Entries): Option<Header> {
    if "header.json" !in m || c.legacy(m["header.json"]) then None
    else
      match c.getHeader(false, m["header.json"])
      case None => None
      case Some(h) => if h.packageLabel == "" || h.scope == "" then None else Some(h)
  }

  function DecodeUnit(c: Codec, data: Bytes): Option<UnitDoc> {
    var u := c.getUnit(false, data);
    if u.None? && c.legacyUnit(data) then c.getUnit(true, data) else u
  }

  // The unit of a directory: both entries present, its identity that of the directory.
  function SourceUnit(c: Codec, m: Entries, dir: string): Option<PackedUnit> {
    if DocName(dir) !in m || ContentName(dir) !in m then None
    else
      match DecodeUnit(c, m[DocName(dir)])
      case None => None
      case Some(doc) => if RawDir(doc.identity) == dir then Some(PackedUnit(doc, m[ContentName(dir)])) else None
  }

  ghost predicate IsDir(m: Entries, dir: string) {
    DocName(dir) in m || ContentName(dir) in m
  }

  ghost predicate UnitsReadable(c: Codec, m: Entries) {
    && (forall n :: n in m && UNITS <= n ==> LooksLikeUnit(n))
    && (forall d :: IsDir(m, d) ==> SourceUnit(c, m, d).Some?)
  }

  // One unit per directory, in the order of the directories.
  ghost predicate AreUnits(c: Codec, m: Entries, units: seq<PackedUnit>) {
    && SortedBy(units, UnitDir()) && KeyedApart(units, UnitDir()) && KeyedApart(units, FormOf())
    && forall u :: u in units <==> SourceUnit(c, m, UnitDir()(u)) == Some(u)
  }

  // Attachments with an ID.
  ghost predicate AreSourceAttachments(m: Entries, attachments: seq<Attachment>) {
    && SortedBy(attachments, IdOf()) && KeyedApart(attachments, IdOf())
    && forall a :: a in attachments <==> a.id != "" && ATTACHMENTS + a.id in m && m[ATTACHMENTS + a.id] == a.data
  }

  ghost predicate LoadsSource(c: Codec, m: Entries, s: SourceSnapshot) {
    && ReadHeader(c, m) == Some(s.header)
    && UnitsReadable(c, m) && AreUnits(c, m, s.units)
    && AreSourceAttachments(m, s.attachments)
    && s.digest == Snapshot.Sha256(Snapshot.FingerprintInput(m))
  }

  ghost predicate AcceptsSource(c: Codec, m: Entries) {
    exists s :: LoadsSource(c, m, s)
  }

  // ---- the operation ----

  // docs and contents hold the entries of units, by directory.
  ghost predicate Gathered(m: Entries, seen: set<string>, docs: Entries, contents: Entries) {
    && (forall d :: d in docs <==> DocName(d) in seen && DocName(d) in m)
    && (forall d :: d in docs ==> docs[d] == m[DocName(d)])
    && (forall d :: d in contents <==> ContentName(d) in seen && ContentName(d) in m)
    && (forall d :: d in contents ==> contents[d] == m[ContentName(d)])
  }

  lemma GatherStep(m: Entries, seen: set<string>, docs: Entries, contents: Entries, n: string)
    requires Gathered(m, seen, docs, contents) && n in m
    ensures EndsWith(n, DOC) ==> Gathered(m, seen + {n}, docs[CutSuffix(n, DOC) := m[n]], contents)
    ensures EndsWith(n, CONTENT) ==> Gathered(m, seen + {n}, docs, contents[CutSuffix(n, CONTENT) := m[n]])
    ensures !LooksLikeUnit(n) ==> Gathered(m, seen + {n}, docs, contents)
  {
    SuffixesApart(n);
    SuffixPut(n);
    forall d
      ensures DocName(d) == n ==> EndsWith(n, DOC) && d == CutSuffix(n, DOC)
      ensures ContentName(d) == n ==> EndsWith(n, CONTENT) && d == CutSuffix(n, CONTENT)
    {
      SuffixCut(d);
    }
  }

  method GatherUnits(m: Entries) returns (ok: bool, docs: Entries, contents: Entries)
    ensures ok <==> forall n :: n in m && UNITS <= n ==> LooksLikeUnit(n)
    ensures ok ==> Gathered(m, m.Keys, docs, contents)
  {
    docs, contents := map[], map[];
    var todo := m.Keys;
    ghost var seen: set<string> := {};
    while todo != {}
      invariant todo <= m.Keys && seen == m.Keys - todo
      invariant forall n :: n in seen && UNITS <= n ==> LooksLikeUnit(n)
      invariant Gathered(m, seen, docs, contents)
    {
      var name :| name in todo;
      todo := todo - {name};
      GatherStep(m, seen, docs, contents, name);
      seen := seen + {name};
      if EndsWith(name, DOC) {
        docs := docs[CutSuffix(name, DOC) := m[name]];
      } else if EndsWith(name, CONTENT) {
        contents := contents[CutSuffix(name, CONTENT) := m[name]];
      } else if UNITS <= name {
        return false, docs, contents;
      }
    }
    assert seen == m.Keys;
    return true, docs, contents;
  }

  // The unit of each directory, as long as all read and no form repeats.
  ghost predicate ReadsAll(c: Codec, m: Entries, dirs: seq<string>, units: seq<PackedUnit>) {
    && |units| == |dirs|
    && (forall i :: 0 <= i < |dirs| ==> SourceUnit(c, m, dirs[i]) == Some(units[i]))
    && KeyedApart(units, FormOf())
  }

  // The unit of one directory.
  method ReadSourceUnit(c: Codec, m: Entries, docs: Entries, contents: Entries,
      dir: string) returns (u: Option<PackedUnit>)
    requires Gathered(m, m.Keys, docs, contents) && dir in docs
    ensures u == SourceUnit(c, m, dir)
  {
    if dir !in contents {
      return None;
    }
    var doc := DecodeUnit(c, docs[dir]);
    if doc.None? || RawDir(doc.value.identity) != dir {
      return None;
    }
    return Some(PackedUnit(doc.value, contents[dir]));
  }

  ghost predicate FormsSeen(read: seq<PackedUnit>, seen: set<string>) {
    forall f :: f in seen <==> exists j :: 0 <= j < |read| && read[j].doc.form == f
  }

  lemma FormsSeenStep(read: seq<PackedUnit>, seen: set<string>, u: PackedUnit)
    requires FormsSeen(read, seen)
    ensures FormsSeen(read + [u], seen + {u.doc.form})
  {
    forall f
      ensures f in seen + {u.doc.form} <==> exists j :: 0 <= j < |read + [u]| && (read + [u])[j].doc.form == f
    {
      if f in seen {
        var j :| 0 <= j < |read| && read[j].doc.form == f;
        assert (read + [u])[j].doc.form == f;
      }
      if f == u.doc.form { assert (read + [u])[|read|].doc.form == f; }
    }
  }

  method ReadSourceUnits(c: Codec, m: Entries, docs: Entries, contents: Entries, dirs: seq<string>)
    returns (units: Option<seq<PackedUnit>>)
    requires Gathered(m, m.Keys, docs, contents) && forall d :: d in dirs ==> d in docs
    ensures units.Some? ==> ReadsAll(c, m, dirs, units.value)
    ensures units.None? ==> forall us :: !ReadsAll(c, m, dirs, us)
  {
    var read: seq<PackedUnit> := [];
    var seen: set<string> := {};
    for i := 0 to |dirs|
      invariant ReadsAll(c, m, dirs[..i], read) && FormsSeen(read, seen)
    {
      var u := ReadSourceUnit(c, m, docs, contents, dirs[i]);
      if u.None? {
        NotReadable(c, m, dirs, i);
        return None;
      }
      if u.value.doc.form in seen {
        FormRepeats(c, m, dirs, read, i, u.value);
        return None;
      }
      ReadStep(c, m, dirs, i, read, u.value);
      FormsSeenStep(read, seen, u.value);
      seen := seen + {u.value.doc.form};
      read := read + [u.value];
    }
    assert dirs[..|dirs|] == dirs;
    units := Some(read);
  }

  lemma ReadStep(c: Codec, m: Entries, dirs: seq<string>, i: nat, read: seq<PackedUnit>, u: PackedUnit)
    requires i < |dirs| && ReadsAll(c, m, dirs[..i], read) && SourceUnit(c, m, dirs[i]) == Some(u)
    requires forall j :: 0 <= j < i ==> read[j].doc.form != u.doc.form
    ensures ReadsAll(c, m, dirs[..i + 1], read + [u])
  {
    forall j | 0 <= j < i + 1
      ensures SourceUnit(c, m, dirs[..i + 1][j]) == Some((read + [u])[j])
    {
      if j < i { assert SourceUnit(c, m, dirs[..i][j]) == Some(read[j]); }
    }
  }

  lemma NotReadable(c: Codec, m: Entries, dirs: seq<string>, i: nat)
    requires i < |dirs| && SourceUnit(c, m, dirs[i]).None?
    ensures forall us :: !ReadsAll(c, m, dirs, us)
  {
  }

  lemma FormRepeats(c: Codec, m: Entries, dirs: seq<string>, read: seq<PackedUnit>, i: nat, u: PackedUnit)
    requires i < |dirs| && ReadsAll(c, m, dirs[..i], read) && SourceUnit(c, m, dirs[i]) == Some(u)
    requires exists j :: 0 <= j < i && read[j].doc.form == u.doc.form
    ensures forall us :: !ReadsAll(c, m, dirs, us)
  {
    var j :| 0 <= j < i && read[j].doc.form == u.doc.form;
    assert SourceUnit(c, m, dirs[..i][j]) == Some(read[j]);
    forall us
      ensures !ReadsAll(c, m, dirs, us)
    {
      if |us| == |dirs| && us[j] == read[j] && us[i] == u {
        assert FormOf()(us[j]) == FormOf()(us[i]);
      }
    }
  }

  lemma ReadUnitsAre(c: Codec, m: Entries, dirs: seq<string>, units: seq<PackedUnit>)
    requires Sorted(dirs) && Distinct(dirs) && (forall d :: d in dirs <==> DocName(d) in m) && ReadsAll(c, m, dirs, units)
    ensures AreUnits(c, m, units)
  {
    forall i | 0 <= i < |units|
      ensures UnitDir()(units[i]) == dirs[i]
    {
      assert SourceUnit(c, m, dirs[i]) == Some(units[i]);
    }
    forall u
      ensures u in units <==> SourceUnit(c, m, UnitDir()(u)) == Some(u)
    {
      if SourceUnit(c, m, UnitDir()(u)) == Some(u) {
        assert UnitDir()(u) in dirs;
        var i :| 0 <= i < |dirs| && dirs[i] == UnitDir()(u);
        assert units[i] == u;
      }
    }
  }

  // A loadable package reads all its directories.
  lemma AreUnitsReads(c: Codec, m: Entries, dirs: seq<string>, units: seq<PackedUnit>)
    requires Sorted(dirs) && Distinct(dirs) && forall d :: d in dirs <==> DocName(d) in m
    requires UnitsReadable(c, m) && AreUnits(c, m, units)
    ensures exists us :: ReadsAll(c, m, dirs, us)
  {
    var us := seq(|dirs|, i requires 0 <= i < |dirs| => Readable(c, m, dirs[i]));
    forall i | 0 <= i < |dirs|
      ensures SourceUnit(c, m, dirs[i]) == Some(us[i]) && us[i] in units && UnitDir()(us[i]) == dirs[i]
    {
      assert dirs[i] in dirs && IsDir(m, dirs[i]);
    }
    forall i, j | 0 <= i < j < |us|
      ensures FormOf()(us[i]) != FormOf()(us[j])
    {
      var p :| 0 <= p < |units| && units[p] == us[i];
      var q :| 0 <= q < |units| && units[q] == us[j];
      assert p != q;
      KeysDiffer(units, FormOf(), p, q);
    }
    assert ReadsAll(c, m, dirs, us);
  }

  ghost function Readable(c: Codec, m: Entries, dir: string): PackedUnit {
    if SourceUnit(c, m, dir).Some? then SourceUnit(c, m, dir).value
    else PackedUnit(UnitDoc(RawIdentity("", "", "", 0), "", 0, "", "", ""), "")
  }

  method ReadSourceAttachments(m: Entries) returns (attachments: seq<Attachment>)
    ensures AreSourceAttachments(m, attachments)
  {
    var all := ReadAttachments(m - {ATTACHMENTS});
    attachments := all;
    assert forall a: Attachment :: ATTACHMENTS + a.id == ATTACHMENTS <==> a.id == "" by {
      assert forall a: Attachment :: |ATTACHMENTS + a.id| == |ATTACHMENTS| + |a.id|;
    }
  }

  method LoadSnapshotSource(c: Codec, m: Entries) returns (r: Result<SourceSnapshot, PackageError>)
    ensures r.Ok? <==> AcceptsSource(c, m)
    ensures r.Ok? ==> LoadsSource(c, m, r.value)
  {
    var header := ReadHeader(c, m);
    if header.None? {
      return Err(MissingBlock);
    }
    var split, docs, contents := GatherUnits(m);
    if !split {
      return Err(UnknownEntry);
    }
    var dirs := SortedNames(docs);
    AscendingIsSorted(docs.Keys);
    var units := ReadSourceUnits(c, m, docs, contents, dirs);
    if units.None? {
      forall s
        ensures !LoadsSource(c, m, s)
      {
        if LoadsSource(c, m, s) { AreUnitsReads(c, m, dirs, s.units); }
      }
      return Err(BadUnit);
    }
    var paired := forall d :: d in contents ==> d in docs;
    if !paired {
      Unpaired(c, m, docs, contents);
      return Err(BadUnit);
    }
    ReadUnitsAre(c, m, dirs, units.value);
    Paired(c, m, docs, contents, dirs, units.value);
    var attachments := ReadSourceAttachments(m);
    var fingerprint := Snapshot.SnapshotFingerprint(m);
    r := Ok(SourceSnapshot(header.value, units.value, attachments, fingerprint));
    assert LoadsSource(c, m, r.value);
  }

  lemma Unpaired(c: Codec, m: Entries, docs: Entries, contents: Entries)
    requires Gathered(m, m.Keys, docs, contents) && exists d :: d in contents && d !in docs
    ensures !AcceptsSource(c, m)
  {
    var d :| d in contents && d !in docs;
    assert IsDir(m, d) && SourceUnit(c, m, d).None?;
  }

  lemma Paired(c: Codec, m: Entries, docs: Entries, contents: Entries, dirs: seq<string>, units: seq<PackedUnit>)
    requires Gathered(m, m.Keys, docs, contents) && (forall d :: d in contents ==> d in docs)
    requires (forall d :: d in dirs <==> d in docs) && ReadsAll(c, m, dirs, units)
    requires forall n :: n in m && UNITS <= n ==> LooksLikeUnit(n)
    ensures UnitsReadable(c, m)
  {
    forall d | IsDir(m, d)
      ensures SourceUnit(c, m, d).Some?
    {
      assert d in dirs;
      var i :| 0 <= i < |dirs| && dirs[i] == d;
      assert SourceUnit(c, m, dirs[i]) == Some(units[i]);
    }
  }

  // ---- the round trip of the source entries ----

  lemma SourceAt(c: Codec, hash: Hash, b: Built, n: string)
    requires UNITS <= n || ATTACHMENTS <= n || n == "header.json"
    ensures n in SourceEntries(c, hash, b) <==> n in AllEntries(c, hash, b)
  {
    PrefixesDiffer(n);
    PrefixesDiffer("manifest.json");
    PrefixesDiffer("integrity.json");
    PrefixesDiffer("declarations.json");
  }

  lemma SourceHolds(c: Codec, hash: Hash, b: Built)
    requires WellFormedUnits(b.units) && KeyedApart(b.attachments, IdOf())
    ensures HoldsUnits(c, SourceEntries(c, hash, b), b.units)
    ensures HoldsAttachments(SourceEntries(c, hash, b), b.attachments)
  {
    var all, m := AllEntries(c, hash, b), SourceEntries(c, hash, b);
    UnitsHeld(c, hash, b);
    AttachmentsHeld(c, hash, b);
    forall i | 0 <= i < |b.units|
      ensures Stored(c, m, b.units[i])
    {
      var dir := UnitDir()(b.units[i]);
      assert Stored(c, all, b.units[i]);
      UnitNamesPrefixed(DocName(dir), b.units[i]);
      UnitNamesPrefixed(ContentName(dir), b.units[i]);
      SourceAt(c, hash, b, DocName(dir));
      SourceAt(c, hash, b, ContentName(dir));
    }
    forall i | 0 <= i < |b.attachments|
      ensures && ATTACHMENTS + b.attachments[i].id in m
              && m[ATTACHMENTS + b.attachments[i].id] == b.attachments[i].data
    {
      SourceAt(c, hash, b, ATTACHMENTS + b.attachments[i].id);
    }
  }

  lemma SourceHeader(c: Codec, hash: Hash, b: Built)
    requires Lossless(c) && b.scope != "" && b.packageLabel != ""
    ensures ReadHeader(c, SourceEntries(c, hash, b)) == Some(HeaderOf(b))
  {
    BlocksPrinted(c, hash, b);
    SourceAt(c, hash, b, "header.json");
    var m := SourceEntries(c, hash, b);
    assert m["header.json"] == c.putHeader(HeaderOf(b));
    assert c.getHeader(false, c.putHeader(HeaderOf(b))) == Some(HeaderOf(b));
  }

  // No attachment is named like a part of a unit.
  ghost predicate AttachmentsPlain(b: Built) {
    forall a :: a in b.attachments ==> !LooksLikeUnit(ATTACHMENTS + a.id)
  }

  // A part of a unit outside units/ stands in a directory no unit has.
  lemma StrayPart(c: Codec, m: Entries, n: string)
    requires LooksLikeUnit(n) && !(UNITS <= n) && n in m
    ensures !UnitsReadable(c, m)
  {
    SuffixPut(n);
    var dir := if EndsWith(n, DOC) then CutSuffix(n, DOC) else CutSuffix(n, CONTENT);
    assert IsDir(m, dir) && dir <= n;
    ReadableDirectory(c, m, dir);
    StartsAlike(dir, n);
  }

  lemma ReadableDirectory(c: Codec, m: Entries, dir: string)
    ensures SourceUnit(c, m, dir).Some? ==> UNITS <= dir
  {
    if SourceUnit(c, m, dir).Some? { RawDirPrefix(SourceUnit(c, m, dir).value.doc.identity); }
  }

  lemma StartsAlike(dir: string, n: string)
    requires dir <= n
    ensures UNITS <= dir ==> UNITS <= n
  {
  }

  lemma SourceReadsBack(c: Codec, m: Entries, u: PackedUnit)
    requires Lossless(c) && Stored(c, m, u)
    ensures SourceUnit(c, m, UnitDir()(u)) == Some(u)
  {
    assert c.getUnit(false, c.putUnit(u.doc)) == Some(u.doc);
  }

  // What is read as part of a unit is part of a unit.
  lemma UnitNamesOnly(c: Codec, hash: Hash, b: Built, n: string)
    requires WellFormedUnits(b.units) && KeyedApart(b.attachments, IdOf()) && AttachmentsPlain(b)
    requires n in SourceEntries(c, hash, b) && LooksLikeUnit(n)
    ensures UNITS <= n
  {
    EntryAt(c, hash, b, n);
    RootsLookPlain(n);
    AttachmentsHeld(c, hash, b);
    assert n in AllEntries(c, hash, b);
    assert ATTACHMENTS <= n ==> exists a :: a in b.attachments && n == ATTACHMENTS + a.id;
  }

  lemma SameDirectory(n: string, dir: string, u: PackedUnit)
    requires n == DocName(dir) || n == ContentName(dir)
    requires NamedBy(n, u)
    ensures UnitDir()(u) == dir
  {
    NamesApart(dir, UnitDir()(u));
    NamesApart(UnitDir()(u), dir);
  }

  // The directories are those of the units.
  lemma DirsAreUnits(c: Codec, hash: Hash, b: Built, dir: string)
    requires WellFormedUnits(b.units) && KeyedApart(b.attachments, IdOf()) && AttachmentsPlain(b)
    requires IsDir(SourceEntries(c, hash, b), dir)
    ensures exists u :: u in b.units && UnitDir()(u) == dir
  {
    var m := SourceEntries(c, hash, b);
    var n := if DocName(dir) in m then DocName(dir) else ContentName(dir);
    SuffixCut(dir);
    UnitNamesOnly(c, hash, b, n);
    SourceHolds(c, hash, b);
    var u :| u in b.units && NamedBy(n, u);
    SameDirectory(n, dir, u);
  }

  lemma RootsLookPlain(n: string)
    ensures IsRootEntry(n) ==> !LooksLikeUnit(n)
  {
    if EndsWith(n, DOC) { assert n[|n| - |DOC|..][0] == '/' && n[|n| - |DOC|] == '/'; }
    if EndsWith(n, CONTENT) { assert n[|n| - |CONTENT|..][0] == '/' && n[|n| - |CONTENT|] == '/'; }
  }

  // The units in the order of their directories.
  function ByDirectory(b: Built): seq<PackedUnit> {
    SortBy(b.units, UnitDir())
  }

  ghost function BuiltSnapshot(c: Codec, hash: Hash, b: Built): SourceSnapshot {
    SourceSnapshot(HeaderOf(b), ByDirectory(b), AttachmentsInOrder(b),
                   Snapshot.Sha256(Snapshot.FingerprintInput(SourceEntries(c, hash, b))))
  }

  lemma UnitOfDirectory(c: Codec, hash: Hash, b: Built, dir: string) returns (u: PackedUnit)
    requires Lossless(c) && WellFormedUnits(b.units) && KeyedApart(b.attachments, IdOf()) && AttachmentsPlain(b)
    requires IsDir(SourceEntries(c, hash, b), dir)
    ensures u in b.units && UnitDir()(u) == dir && SourceUnit(c, SourceEntries(c, hash, b), dir) == Some(u)
  {
    DirsAreUnits(c, hash, b, dir);
    u :| u in b.units && UnitDir()(u) == dir;
    SourceHolds(c, hash, b);
    InOrderStored(c, SourceEntries(c, hash, b), b, u);
    SourceReadsBack(c, SourceEntries(c, hash, b), u);
  }

  lemma UnitNamesLook(c: Codec, m: Entries, units: seq<PackedUnit>)
    requires HoldsUnits(c, m, units)
    ensures forall n :: n in m && UNITS <= n ==> LooksLikeUnit(n)
  {
    forall n | n in m && UNITS <= n
      ensures LooksLikeUnit(n)
    {
      var u :| u in units && NamedBy(n, u);
      SuffixCut(UnitDir()(u));
    }
  }

  lemma SourceUnitsReadable(c: Codec, hash: Hash, b: Built)
    requires Lossless(c) && WellFormedUnits(b.units) && KeyedApart(b.attachments, IdOf()) && AttachmentsPlain(b)
    ensures UnitsReadable(c, SourceEntries(c, hash, b))
  {
    var m := SourceEntries(c, hash, b);
    SourceHolds(c, hash, b);
    UnitNamesLook(c, m, b.units);
    forall d | IsDir(m, d)
      ensures SourceUnit(c, m, d).Some?
    {
      var u := UnitOfDirectory(c, hash, b, d);
    }
  }

  lemma SourceUnitsAre(c: Codec, hash: Hash, b: Built)
    requires Lossless(c) && WellFormedUnits(b.units) && KeyedApart(b.attachments, IdOf()) && AttachmentsPlain(b)
    ensures AreUnits(c, SourceEntries(c, hash, b), ByDirectory(b))
  {
    var m := SourceEntries(c, hash, b);
    UnitsApart(b.units);
    SortBySorts(b.units, UnitDir());
    SortByKeeps(b.units, UnitDir());
    KeyedApartKept(b.units, ByDirectory(b), UnitDir());
    KeyedApartKept(b.units, ByDirectory(b), FormOf());
    forall u
      ensures u in b.units <==> SourceUnit(c, m, UnitDir()(u)) == Some(u)
    {
      if u in b.units {
        SourceHolds(c, hash, b);
        InOrderStored(c, m, b, u);
        SourceReadsBack(c, m, u);
      } else if SourceUnit(c, m, UnitDir()(u)) == Some(u) {
        var v := UnitOfDirectory(c, hash, b, UnitDir()(u));
      }
    }
  }

  lemma SourceAttachmentsAre(c: Codec, hash: Hash, b: Built)
    requires WellFormedUnits(b.units) && KeyedApart(b.attachments, IdOf()) && forall a :: a in b.attachments ==> a.id != ""
    ensures AreSourceAttachments(SourceEntries(c, hash, b), AttachmentsInOrder(b))
  {
    SourceHolds(c, hash, b);
    AttachmentsLoad(SourceEntries(c, hash, b), b);
    OrderedAttachments(b);
  }

  lemma PlainSourceLoads(c: Codec, hash: Hash, b: Built)
    requires Lossless(c) && WellFormedBuilt(b) && b.scope != "" && forall a :: a in b.attachments ==> a.id != ""
    requires AttachmentsPlain(b)
    ensures LoadsSource(c, SourceEntries(c, hash, b), BuiltSnapshot(c, hash, b))
  {
    SourceHeader(c, hash, b);
    SourceUnitsReadable(c, hash, b);
    SourceUnitsAre(c, hash, b);
    SourceAttachmentsAre(c, hash, b);
  }

  lemma StraySourceRefused(c: Codec, hash: Hash, b: Built)
    requires WellFormedUnits(b.units) && KeyedApart(b.attachments, IdOf()) && !AttachmentsPlain(b)
    ensures !AcceptsSource(c, SourceEntries(c, hash, b))
  {
    var a :| a in b.attachments && LooksLikeUnit(ATTACHMENTS + a.id);
    SourceHolds(c, hash, b);
    var i :| 0 <= i < |b.attachments| && b.attachments[i] == a;
    PrefixesDiffer(ATTACHMENTS + a.id);
    StrayPart(c, SourceEntries(c, hash, b), ATTACHMENTS + a.id);
  }

  // The source entries of a well-formed package load back, with its own units and attachments, exactly when no
  // attachment is named like a part of a unit.
  lemma SourceRoundTripIff(c: Codec, hash: Hash, b: Built)
    requires Lossless(c) && WellFormedBuilt(b) && b.scope != "" && forall a :: a in b.attachments ==> a.id != ""
    ensures AcceptsSource(c, SourceEntries(c, hash, b)) <==> AttachmentsPlain(b)
    ensures AttachmentsPlain(b) ==> LoadsSource(c, SourceEntries(c, hash, b), BuiltSnapshot(c, hash, b))
  {
    if AttachmentsPlain(b) {
      PlainSourceLoads(c, hash, b);
    } else {
      StraySourceRefused(c, hash, b);
    }
  }

  // A file docs/content is such an attachment: the source entries of its package are refused.
  lemma DocumentNamedContent(c: Codec, hash: Hash, b: Built, data: Bytes)
    requires WellFormedBuilt(b) && Attachment("docs/content", data) in b.attachments
    ensures !AcceptsSource(c, SourceEntries(c, hash, b))
  {
    var name := ATTACHMENTS + "docs/content";
    assert name[|name| - |CONTENT|..] == CONTENT;
    assert LooksLikeUnit(name);
    StraySourceRefused(c, hash, b);
  }

  // ---- entries the loader does not know ----

  // A name the loader looks at.
  predicate Looked(n: string) {
    n == "header.json" || UNITS <= n || ATTACHMENTS <= n || LooksLikeUnit(n)
  }

  ghost predicate LookAlike(m: Entries, m': Entries) {
    forall n :: Looked(n) ==> (n in m <==> n in m') && (n in m ==> m[n] == m'[n])
  }

  lemma UnitNamesLooked(dir: string)
    ensures Looked(DocName(dir)) && Looked(ContentName(dir))
  {
    SuffixCut(dir);
  }

  lemma SameUnit(c: Codec, m: Entries, m': Entries, dir: string)
    requires LookAlike(m, m')
    ensures SourceUnit(c, m, dir) == SourceUnit(c, m', dir) && (IsDir(m, dir) <==> IsDir(m', dir))
  {
    UnitNamesLooked(dir);
  }

  lemma SameUnitsRead(c: Codec, m: Entries, m': Entries, units: seq<PackedUnit>)
    requires LookAlike(m, m') && UnitsReadable(c, m) && AreUnits(c, m, units)
    ensures UnitsReadable(c, m') && AreUnits(c, m', units)
  {
    forall n | n in m' && UNITS <= n
      ensures LooksLikeUnit(n)
    {
      assert Looked(n);
    }
    forall d | IsDir(m', d)
      ensures SourceUnit(c, m', d).Some?
    {
      SameUnit(c, m, m', d);
    }
    forall u
      ensures SourceUnit(c, m, UnitDir()(u)) == SourceUnit(c, m', UnitDir()(u))
    {
      SameUnit(c, m, m', UnitDir()(u));
    }
  }

  lemma SameAttachmentsRead(m: Entries, m': Entries, attachments: seq<Attachment>)
    requires LookAlike(m, m') && AreSourceAttachments(m, attachments)
    ensures AreSourceAttachments(m', attachments)
  {
    forall a: Attachment
      ensures ATTACHMENTS + a.id in m && m[ATTACHMENTS + a.id] == a.data <==>
              ATTACHMENTS + a.id in m' && m'[ATTACHMENTS + a.id] == a.data
    {
      assert Looked(ATTACHMENTS + a.id);
    }
  }

  lemma LookAlikeAccepts(c: Codec, m: Entries, m': Entries)
    requires LookAlike(m, m') && AcceptsSource(c, m)
    ensures AcceptsSource(c, m')
  {
    var s :| LoadsSource(c, m, s);
    assert Looked("header.json");
    SameUnitsRead(c, m, m', s.units);
    SameAttachmentsRead(m, m', s.attachments);
    assert LoadsSource(c, m', s.(digest := Snapshot.Sha256(Snapshot.FingerprintInput(m'))));
  }

  // An entry outside the known names is ignored, whatever it holds, unless it is named like a part of a unit: then
  // the snapshot is refused.
  lemma UnknownEntryIff(c: Codec, m: Entries, n: string, data: Bytes)
    requires n != "header.json" && !(UNITS <= n) && !(ATTACHMENTS <= n)
    ensures AcceptsSource(c, m[n := data]) <==> !LooksLikeUnit(n) && AcceptsSource(c, m)
  {
    if LooksLikeUnit(n) {
      StrayPart(c, m[n := data], n);
    } else {
      assert !Looked(n);
      assert LookAlike(m, m[n := data]) && LookAlike(m[n := data], m);
      if AcceptsSource(c, m) { LookAlikeAccepts(c, m, m[n := data]); }
      if AcceptsSource(c, m[n := data]) { LookAlikeAccepts(c, m[n := data], m); }
    }
  }

  // Under units/ the rejection is as promised.
  lemma UnknownUnitEntryRefused(c: Codec, m: Entries, n: string, data: Bytes)
    requires UNITS <= n && !LooksLikeUnit(n)
    ensures !AcceptsSource(c, m[n := data])
  {
    assert n in m[n := data];
  }
}
