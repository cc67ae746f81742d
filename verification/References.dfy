/** Reference and identity grammar (conformance/rules.go, exchange/deserialize.go, exchange/model.go,
    exchange/integrate.go, exchange/load.go). */
module References {
  import opened Taxonomy
  import opened Text

  datatype Result<+T, +E> = Ok(value: T) | Err(error: E)

  // ---- the reference grammar ----

  const MAX_INT: int := 0x7fff_ffff_ffff_ffff

  datatype Reference = Reference(ns: string, typ: TypeToken, id: string, version: Option<int>)

  datatype ReferenceError = EmptyReference | EmptyNamespace | MissingType | UnknownType | BadVersion | BadId

  // defNs and defType are the referrer's namespace and type; without a defType a bare id is refused.
  function ParseReference(s: string, defNs: string, defType: Option<TypeToken>): Result<Reference, ReferenceError> {
    var t := TrimSpace(s);
    var slash := IndexOfChar(t, '/');
    if t == "" then Err(EmptyReference)
    else if slash < 0 then ParseTyped(t, defNs, defType)
    else if slash == 0 then Err(EmptyNamespace)
    else ParseTyped(t[slash + 1..], t[..slash], defType)
  }

  function ParseTyped(rest: string, ns: string, defType: Option<TypeToken>): Result<Reference, ReferenceError> {
    var colon := IndexOfChar(rest, ':');
    var typ := if colon >= 0 then ParseToken(rest[..colon]) else defType;
    if typ.None? then Err(if colon >= 0 then UnknownType else MissingType)
    else ParseVersioned(rest[colon + 1..], ns, typ.value)
  }

  // An all-digit suffix behind the last colon is the instance version.
  function ParseVersioned(rest: string, ns: string, typ: TypeToken): Result<Reference, ReferenceError> {
    var last := LastIndexOfChar(rest, ':');
    if last >= 0 && AllDigits(rest[last + 1..]) then
      if Number(rest[last + 1..]) > MAX_INT then Err(BadVersion)
      else CheckId(Reference(ns, typ, rest[..last], Some(Number(rest[last + 1..]))))
    else CheckId(Reference(ns, typ, rest, None))
  }

  function CheckId(ref: Reference): Result<Reference, ReferenceError> {
    if ref.id == "" || ':' in ref.id then Err(BadId) else Ok(ref)
  }

  // ---- canonical identities ----

  datatype Identity = Identity(ns: string, typ: TypeToken, id: string, version: int)

  function CanonicalForm(i: Identity): string {
    i.ns + "/" + Spelling(i.typ) + ":" + i.id + ":" + Itoa(i.version)
  }

  datatype IdentityError = Malformed(error: ReferenceError) | Incomplete | NotCanonical

  function ParseCanonicalIdentity(form: string): Result<Identity, IdentityError> {
    match ParseReference(form, "", None)
    case Err(e) => Err(Malformed(e))
    case Ok(ref) =>
      if ref.ns == "" || ref.version.None? then Err(Incomplete)
      else
        var i := Identity(ref.ns, ref.typ, ref.id, ref.version.value);
        if CanonicalForm(i) != form then Err(NotCanonical) else Ok(i)
  }

  // The identities whose printed form is a canonical form.
  predicate Printable(i: Identity) {
    && i.ns != "" && '/' !in i.ns && !IsSpace(i.ns[0])
    && i.id != "" && ':' !in i.id
    && 0 <= i.version <= MAX_INT
  }

  // The charset guard on identity components.
  predicate CharsetValid(c: string) {
    && c != ""
    && (forall i :: 0 <= i < |c| ==> c[i] != '/' && c[i] != ':' && c[i] != '\\' && !IsSpace(c[i]))
    && (forall i :: 0 <= i < |c| - 1 ==> !(c[i] == '.' && c[i + 1] == '.'))
    && c[0] != '.' && c[|c| - 1] != '.'
  }

  predicate WellFormed(i: Identity) {
    CharsetValid(i.ns) && CharsetValid(i.id) && 1 <= i.version <= MAX_INT
  }

  lemma ParsesVersioned(id: string, version: int, ns: string, typ: TypeToken)
    requires id != "" && ':' !in id && 0 <= version <= MAX_INT
    ensures ParseVersioned(id + ":" + Itoa(version), ns, typ) == Ok(Reference(ns, typ, id, Some(version)))
  {
    NumberOfDigits(version);
    DigitsAreNotSpecial(Itoa(version));
    SplitLast(id, ':', Itoa(version));
  }

  lemma ParsesUnversioned(id: string, ns: string, typ: TypeToken)
    requires id != "" && ':' !in id
    ensures ParseVersioned(id, ns, typ) == Ok(Reference(ns, typ, id, None))
  {
  }

  lemma ParsesTyped(typ: TypeToken, tail: string, ns: string, defType: Option<TypeToken>)
    ensures ParseTyped(Spelling(typ) + ":" + tail, ns, defType) == ParseVersioned(tail, ns, typ)
  {
    SpellingIsPlain(typ);
    SplitFirst(Spelling(typ), ':', tail);
    TokenTable(Spelling(typ), typ);
  }

  lemma ParsesQualified(ns: string, rest: string, defNs: string, defType: Option<TypeToken>)
    requires ns != "" && '/' !in ns && !IsSpace(ns[0])
    requires rest != "" && !IsSpace(rest[|rest| - 1])
    ensures ParseReference(ns + "/" + rest, defNs, defType) == ParseTyped(rest, ns, defType)
  {
    var s := ns + "/" + rest;
    assert s[0] == ns[0] && s[|s| - 1] == rest[|rest| - 1];
    NothingToTrim(s);
    SplitFirst(ns, '/', rest);
  }

  lemma ParsesLocal(rest: string, defNs: string, defType: Option<TypeToken>)
    requires rest != "" && '/' !in rest && !IsSpace(rest[0]) && !IsSpace(rest[|rest| - 1])
    ensures ParseReference(rest, defNs, defType) == ParseTyped(rest, defNs, defType)
  {
    NothingToTrim(rest);
  }

  lemma CanonicalFormShape(i: Identity)
    ensures CanonicalForm(i) == i.ns + "/" + (Spelling(i.typ) + ":" + (i.id + ":" + Itoa(i.version)))
  {
  }

  lemma PrintedReference(i: Identity)
    requires Printable(i)
    ensures ParseReference(CanonicalForm(i), "", None) == Ok(Reference(i.ns, i.typ, i.id, Some(i.version)))
  {
    var version := Itoa(i.version);
    var tail := i.id + ":" + version;
    var rest := Spelling(i.typ) + ":" + tail;
    CanonicalFormShape(i);
    NumberOfDigits(i.version);
    DigitsAreNotSpecial(version);
    assert rest[|rest| - 1] == version[|version| - 1];
    ParsesQualified(i.ns, rest, "", None);
    ParsesTyped(i.typ, tail, i.ns, None);
    ParsesVersioned(i.id, i.version, i.ns, i.typ);
  }

  // What an accepted reference looks like.
  ghost predicate PlainParts(ref: Reference, defNs: string) {
    && (ref.ns == defNs || (ref.ns != "" && '/' !in ref.ns && !IsSpace(ref.ns[0])))
    && ref.id != "" && ':' !in ref.id
    && (ref.version.Some? ==> 0 <= ref.version.value <= MAX_INT)
  }

  lemma VersionedParts(rest: string, ns: string, typ: TypeToken)
    ensures ParseVersioned(rest, ns, typ).Ok? ==>
              ParseVersioned(rest, ns, typ).value.ns == ns && PlainParts(ParseVersioned(rest, ns, typ).value, ns)
  {
    var last := LastIndexOfChar(rest, ':');
    if last >= 0 && AllDigits(rest[last + 1..]) {
      CheckedParts(Reference(ns, typ, rest[..last], Some(Number(rest[last + 1..]))));
    } else {
      CheckedParts(Reference(ns, typ, rest, None));
    }
  }

  lemma CheckedParts(ref: Reference)
    ensures CheckId(ref).Ok? ==> CheckId(ref).value == ref && ref.id != "" && ':' !in ref.id
  {
  }

  lemma TypedParts(rest: string, ns: string, defType: Option<TypeToken>)
    ensures ParseTyped(rest, ns, defType).Ok? ==>
              ParseTyped(rest, ns, defType).value.ns == ns && PlainParts(ParseTyped(rest, ns, defType).value, ns)
  {
    var colon := IndexOfChar(rest, ':');
    var typ := if colon >= 0 then ParseToken(rest[..colon]) else defType;
    if typ.Some? { VersionedParts(rest[colon + 1..], ns, typ.value); }
  }

  lemma NamespacePart(t: string, slash: nat)
    requires 0 < slash < |t| && !IsSpace(t[0]) && '/' !in t[..slash]
    ensures t[..slash] != "" && '/' !in t[..slash] && !IsSpace(t[..slash][0])
  {
  }

  lemma ParsedParts(s: string, defNs: string, defType: Option<TypeToken>)
    ensures ParseReference(s, defNs, defType).Ok? ==> PlainParts(ParseReference(s, defNs, defType).value, defNs)
  {
    TrimmedStart(s);
    var t := TrimSpace(s);
    var slash := IndexOfChar(t, '/');
    if slash > 0 {
      NamespacePart(t, slash);
      TypedParts(t[slash + 1..], t[..slash], defType);
    } else {
      TypedParts(t, defNs, defType);
    }
  }

  lemma PrintedParses(i: Identity)
    requires Printable(i)
    ensures ParseCanonicalIdentity(CanonicalForm(i)) == Ok(i)
  {
    PrintedReference(i);
  }

  lemma ParsedIsPrintable(form: string)
    ensures ParseCanonicalIdentity(form).Ok? ==>
              Printable(ParseCanonicalIdentity(form).value) && form == CanonicalForm(ParseCanonicalIdentity(form).value)
  {
    ParsedParts(form, "", None);
  }

  // Printing and parsing are mutually inverse, and the accepted strings are exactly the printed forms.
  lemma CanonicalRoundTrip(form: string, i: Identity)
    ensures ParseCanonicalIdentity(form) == Ok(i) <==> Printable(i) && form == CanonicalForm(i)
  {
    ParsedIsPrintable(form);
    if Printable(i) { PrintedParses(i); }
  }

  lemma WellFormedIsPrintable(i: Identity)
    requires WellFormed(i)
    ensures Printable(i)
  {
  }

  lemma CanonicalFormInjective(i: Identity, j: Identity)
    requires Printable(i) && Printable(j) && CanonicalForm(i) == CanonicalForm(j)
    ensures i == j
  {
    CanonicalRoundTrip(CanonicalForm(i), i);
    CanonicalRoundTrip(CanonicalForm(i), j);
  }

  // ---- entry directories of units ----

  // The entry directory for a raw type string.
  function UnitDirOf(ns: string, typ: string, id: string, version: int): string {
    "units/" + ns + "/" + typ + "-" + id + "-v" + Itoa(version)
  }

  function UnitDirName(i: Identity): string {
    UnitDirOf(i.ns, Spelling(i.typ), i.id, i.version)
  }

  lemma UnitDirShape(ns: string, typ: string, id: string, version: int)
    ensures UnitDirOf(ns, typ, id, version) == "units/" + (ns + "/" + ((typ + "-" + id + "-") + "v" + Itoa(version)))
  {
  }

  // Two identities share an entry directory exactly when they agree on namespace, version and the joined
  // "<type>-<id>": a hyphen inside a type would make the directory ambiguous.
  lemma UnitDirSharedIff(ns: string, typ: string, id: string, v: int, ns': string, typ': string, id': string, v': int)
    requires '/' !in ns && '/' !in ns'
    ensures UnitDirOf(ns, typ, id, v) == UnitDirOf(ns', typ', id', v') <==>
            ns == ns' && v == v' && typ + "-" + id == typ' + "-" + id'
  {
    UnitDirShape(ns, typ, id, v);
    UnitDirShape(ns', typ', id', v');
    if UnitDirOf(ns, typ, id, v) == UnitDirOf(ns', typ', id', v') {
      var tail := (typ + "-" + id + "-") + "v" + Itoa(v);
      var tail' := (typ' + "-" + id' + "-") + "v" + Itoa(v');
      SamePrefix("units/", ns + "/" + tail, ns' + "/" + tail');
      SameFirstSplit(ns, tail, '/', ns', tail');
      NoVInItoa(v);
      NoVInItoa(v');
      SameLastSplit(typ + "-" + id + "-", Itoa(v), 'v', typ' + "-" + id' + "-", Itoa(v'));
      ItoaInjective(v, v');
      SameSuffix(typ + "-" + id, typ' + "-" + id', "-");
    }
  }

  lemma UnitDirHyphenAmbiguous()
    ensures UnitDirOf("n", "a-b", "c", 1) == UnitDirOf("n", "a", "b-c", 1)
  {
    assert "a-b" + "-" + "c" == "a" + "-" + "b-c";
    UnitDirSharedIff("n", "a-b", "c", 1, "n", "a", "b-c", 1);
  }

  // No type token contains a hyphen, so the directory determines the identity.
  lemma UnitDirInjective(i: Identity, j: Identity)
    requires '/' !in i.ns && '/' !in j.ns && UnitDirName(i) == UnitDirName(j)
    ensures i == j
  {
    UnitDirSharedIff(i.ns, Spelling(i.typ), i.id, i.version, j.ns, Spelling(j.typ), j.id, j.version);
    SpellingIsPlain(i.typ);
    SpellingIsPlain(j.typ);
    SameFirstSplit(Spelling(i.typ), i.id, '-', Spelling(j.typ), j.id);
    SpellingInjective(i.typ, j.typ);
  }

  // ---- the repository's own references ----

  datatype Line = Line(ns: string, typ: TypeToken, id: string)

  function LineOf(i: Identity): Line {
    Line(i.ns, i.typ, i.id)
  }

  datatype RepoReferenceError = NotAForm(error: IdentityError) | CrossNamespaceVersion

  // The repository spelling of a canonical target, as written in a unit of sourceNs.
  function CanonicalToRepoReference(form: string, sourceNs: string): Result<string, RepoReferenceError> {
    match ParseCanonicalIdentity(form)
    case Err(e) => Err(NotAForm(e))
    case Ok(i) =>
      if i.ns != sourceNs && i.version != 1 then Err(CrossNamespaceVersion)
      else Ok(RepoText(i, sourceNs))
  }

  function RepoText(i: Identity, sourceNs: string): string {
    if i.ns == sourceNs then
      if NamesInstance(i) then InstanceText(i) else LineText(i)
    else QualifiedText(i)
  }

  predicate NamesInstance(i: Identity) {
    IsVersionedType(i.typ) || i.version > 1
  }

  function InstanceText(i: Identity): string {
    Spelling(i.typ) + ":" + i.id + ":" + Itoa(i.version)
  }

  function LineText(i: Identity): string {
    Spelling(i.typ) + ":" + i.id
  }

  function QualifiedText(i: Identity): string {
    i.ns + "/" + Spelling(i.typ) + ":" + i.id
  }

  // The instances of each line in ascending version order.
  type LineIndex = map<Line, seq<Identity>>

  ghost predicate Ascending(bucket: seq<Identity>) {
    forall i, j :: 0 <= i < j < |bucket| ==> bucket[i].version <= bucket[j].version
  }

  ghost predicate Indexes(byLine: LineIndex, artifacts: seq<Identity>) {
    && (forall l :: l in byLine ==> byLine[l] != [] && Ascending(byLine[l]))
    && (forall l, a :: l in byLine ==> (a in byLine[l] <==> a in artifacts && LineOf(a) == l))
    && (forall a :: a in artifacts ==> LineOf(a) in byLine)
  }

  function FirstWithVersion(bucket: seq<Identity>, version: int): Option<Identity> {
    if bucket == [] then None
    else if bucket[0].version == version then Some(bucket[0])
    else FirstWithVersion(bucket[1..], version)
  }

  // A versioned reference names the instance, a line reference its lowest instance.
  function ResolveRef(byLine: LineIndex, ref: Reference): Option<Identity> {
    var l := Line(ref.ns, ref.typ, ref.id);
    if l !in byLine || byLine[l] == [] then None
    else if ref.version.Some? then FirstWithVersion(byLine[l], ref.version.value)
    else Some(byLine[l][0])
  }

  lemma {:induction false} FirstWithVersionFinds(bucket: seq<Identity>, a: Identity)
    requires a in bucket && forall b :: b in bucket ==> LineOf(b) == LineOf(a)
    ensures FirstWithVersion(bucket, a.version) == Some(a)
  {
    assert bucket[0] in bucket;
    if bucket[0].version != a.version {
      assert forall b :: b in bucket[1..] ==> b in bucket;
      FirstWithVersionFinds(bucket[1..], a);
    }
  }

  lemma ResolvesVersioned(byLine: LineIndex, artifacts: seq<Identity>, a: Identity)
    requires Indexes(byLine, artifacts) && a in artifacts
    ensures ResolveRef(byLine, Reference(a.ns, a.typ, a.id, Some(a.version))) == Some(a)
  {
    FirstWithVersionFinds(byLine[LineOf(a)], a);
  }

  // The line form finds an instance exactly when no lower one exists.
  lemma ResolvesLine(byLine: LineIndex, artifacts: seq<Identity>, a: Identity)
    requires Indexes(byLine, artifacts) && a in artifacts
    ensures ResolveRef(byLine, Reference(a.ns, a.typ, a.id, None)) == Some(a) <==>
            forall b :: b in artifacts && LineOf(b) == LineOf(a) ==> a.version <= b.version
  {
    var bucket := byLine[LineOf(a)];
    assert bucket[0] in bucket;
    var i :| 0 <= i < |bucket| && bucket[i] == a;
    forall b | b in artifacts && LineOf(b) == LineOf(a)
      ensures bucket[0].version <= b.version
    {
      var j :| 0 <= j < |bucket| && bucket[j] == b;
    }
  }

  lemma PlainSpaces(c: string)
    requires CharsetValid(c)
    ensures '/' !in c && ':' !in c && !IsSpace(c[0]) && !IsSpace(c[|c| - 1])
  {
  }

  lemma LineReferenceParses(i: Identity, defNs: string, defType: Option<TypeToken>)
    requires CharsetValid(i.id) && defNs == i.ns
    ensures ParseReference(LineText(i), defNs, defType) == Ok(Reference(i.ns, i.typ, i.id, None))
  {
    PlainSpaces(i.id);
    UnversionedText(i.typ, i.id);
    ParsesLocal(Spelling(i.typ) + ":" + i.id, defNs, defType);
    ParsesTyped(i.typ, i.id, i.ns, defType);
    ParsesUnversioned(i.id, i.ns, i.typ);
  }

  lemma QualifiedReferenceParses(i: Identity, defNs: string, defType: Option<TypeToken>)
    requires CharsetValid(i.ns) && CharsetValid(i.id)
    ensures ParseReference(QualifiedText(i), defNs, defType)
            == Ok(Reference(i.ns, i.typ, i.id, None))
  {
    PlainSpaces(i.ns);
    PlainSpaces(i.id);
    UnversionedText(i.typ, i.id);
    ParsesQualified(i.ns, LineText(i), defNs, defType);
    QualifiedShape(i);
    ParsesTyped(i.typ, i.id, i.ns, defType);
    ParsesUnversioned(i.id, i.ns, i.typ);
  }

  lemma InstanceReferenceParses(i: Identity, defNs: string, defType: Option<TypeToken>)
    requires CharsetValid(i.id) && 0 <= i.version <= MAX_INT && defNs == i.ns
    ensures ParseReference(InstanceText(i), defNs, defType)
            == Ok(Reference(i.ns, i.typ, i.id, Some(i.version)))
  {
    PlainSpaces(i.id);
    var tail := i.id + ":" + Itoa(i.version);
    VersionedText(i.typ, i.id, i.version);
    ParsesLocal(Spelling(i.typ) + ":" + tail, defNs, defType);
    assert Spelling(i.typ) + ":" + i.id + ":" + Itoa(i.version) == Spelling(i.typ) + ":" + tail;
    ParsesTyped(i.typ, tail, i.ns, defType);
    ParsesVersioned(i.id, i.version, i.ns, i.typ);
  }

  lemma QualifiedShape(i: Identity)
    ensures QualifiedText(i) == i.ns + "/" + LineText(i)
  {
  }

  // The reference a repository text stands for.
  function Meant(i: Identity, sourceNs: string): Reference {
    Reference(i.ns, i.typ, i.id, 
      if i.ns == sourceNs && (i.typ == Scp || i.typ == Plan || i.version > 1) then Some(i.version) else None)
  }

  // The written reference reads back as the target's line or instance.
  lemma RepoTextParses(i: Identity, sourceNs: string, sourceType: TypeToken)
    requires WellFormed(i)
    ensures ParseReference(RepoText(i, sourceNs), sourceNs, Some(sourceType)) == Ok(Meant(i, sourceNs))
  {
    if i.ns != sourceNs {
      QualifiedReferenceParses(i, sourceNs, Some(sourceType));
    } else if NamesInstance(i) {
      InstanceReferenceParses(i, sourceNs, Some(sourceType));
    } else {
      LineReferenceParses(i, sourceNs, Some(sourceType));
    }
  }

  lemma UnversionedText(typ: TypeToken, id: string)
    requires CharsetValid(id)
    ensures var s := Spelling(typ) + ":" + id; s != "" && '/' !in s && !IsSpace(s[0]) && !IsSpace(s[|s| - 1])
  {
    SpellingIsPlain(typ);
    var s := Spelling(typ) + ":" + id;
    assert s[0] == Spelling(typ)[0] && s[|s| - 1] == id[|id| - 1];
  }

  lemma VersionedText(typ: TypeToken, id: string, version: nat)
    requires CharsetValid(id)
    ensures var s := Spelling(typ) + ":" + (id + ":" + Itoa(version));
            s != "" && '/' !in s && !IsSpace(s[0]) && !IsSpace(s[|s| - 1])
  {
    SpellingIsPlain(typ);
    NumberOfDigits(version);
    DigitsAreNotSpecial(Itoa(version));
    var s := Spelling(typ) + ":" + (id + ":" + Itoa(version));
    assert s[0] == Spelling(typ)[0] && s[|s| - 1] == Itoa(version)[|Itoa(version)| - 1];
  }

  // A target is expressible exactly inside its own namespace or at version 1, and whenever it is, the
  // written reference resolves to precisely that instance.
  lemma RepoReferenceResolves(byLine: LineIndex, artifacts: seq<Identity>, target: Identity,
                              sourceNs: string, sourceType: TypeToken)
    requires Indexes(byLine, artifacts) && target in artifacts
    requires forall a :: a in artifacts ==> WellFormed(a)
    ensures var out := CanonicalToRepoReference(CanonicalForm(target), sourceNs);
            && (out.Ok? <==> target.ns == sourceNs || target.version == 1)
            && (out.Ok? ==>
                 var ref := ParseReference(out.value, sourceNs, Some(sourceType));
                 ref.Ok? && ResolveRef(byLine, ref.value) == Some(target))
  {
    PrintedParses(target);
    RepoTextParses(target, sourceNs, sourceType);
    ResolvesVersioned(byLine, artifacts, target);
    ResolvesLine(byLine, artifacts, target);
  }

  // ---- building the index ----

  function InsertByVersion(a: Identity, bucket: seq<Identity>): seq<Identity> {
    if bucket == [] then [a]
    else if a.version <= bucket[0].version then [a] + bucket
    else [bucket[0]] + InsertByVersion(a, bucket[1..])
  }

  function SortByVersion(bucket: seq<Identity>): seq<Identity> {
    if bucket == [] then [] else InsertByVersion(bucket[0], SortByVersion(bucket[1..]))
  }

  lemma {:induction false} InsertByVersionSorts(a: Identity, bucket: seq<Identity>)
    requires Ascending(bucket)
    ensures Ascending(InsertByVersion(a, bucket))
    ensures forall x :: x in InsertByVersion(a, bucket) <==> x == a || x in bucket
  {
    if bucket != [] && a.version > bucket[0].version {
      InsertByVersionSorts(a, bucket[1..]);
      var t := InsertByVersion(a, bucket[1..]);
      forall j | 0 <= j < |t|
        ensures bucket[0].version <= t[j].version
      {
        assert t[j] in t;
      }
    }
  }

  lemma {:induction false} SortByVersionSorts(bucket: seq<Identity>)
    ensures Ascending(SortByVersion(bucket))
    ensures forall x :: x in SortByVersion(bucket) <==> x in bucket
  {
    if bucket != [] {
      SortByVersionSorts(bucket[1..]);
      InsertByVersionSorts(bucket[0], SortByVersion(bucket[1..]));
    }
  }

  ghost predicate Gathered(byLine: LineIndex, artifacts: seq<Identity>) {
    && (forall l :: l in byLine ==> byLine[l] != [])
    && (forall l, a :: l in byLine ==> (a in byLine[l] <==> a in artifacts && LineOf(a) == l))
    && (forall a :: a in artifacts ==> LineOf(a) in byLine)
  }

  // An artifact the load accepts: its components pass the charset guard and its content compiles.
  predicate Loadable(compiles: Identity -> bool, a: Identity) {
    CharsetValid(a.ns) && CharsetValid(a.id) && compiles(a)
  }

  predicate FirstRefused(artifacts: seq<Identity>, compiles: Identity -> bool, i: nat) {
    i < |artifacts| && !Loadable(compiles, artifacts[i]) && forall a :: a in artifacts[..i] ==> Loadable(compiles, a)
  }

  // Reads the repository: every artifact is loadable or the whole load is refused at the first that is not.
  method Load(artifacts: seq<Identity>, compiles: Identity -> bool) returns (r: Result<LineIndex, Identity>)
    ensures r.Ok? <==> forall a :: a in artifacts ==> Loadable(compiles, a)
    ensures r.Ok? ==> Indexes(r.value, artifacts)
    ensures r.Err? ==> exists i: nat :: FirstRefused(artifacts, compiles, i) && artifacts[i] == r.error
  {
    var byLine: LineIndex := map[];
    for i := 0 to |artifacts|
      invariant forall a :: a in artifacts[..i] ==> Loadable(compiles, a)
      invariant Gathered(byLine, artifacts[..i])
    {
      var a := artifacts[i];
      assert a in artifacts;
      if !CharsetValid(a.ns) || !CharsetValid(a.id) {
        return Err(a);
      }
      if !compiles(a) {
        return Err(a);
      }
      GatherOne(byLine, artifacts, i);
      byLine := byLine[LineOf(a) := (if LineOf(a) in byLine then byLine[LineOf(a)] else []) + [a]];
    }
    assert artifacts[..|artifacts|] == artifacts;
    SortingIndexes(byLine, artifacts);
    var unsorted := byLine;
    byLine := map l | l in unsorted :: SortByVersion(unsorted[l]);
    return Ok(byLine);
  }

  lemma GatherOne(byLine: LineIndex, artifacts: seq<Identity>, i: nat)
    requires i < |artifacts| && Gathered(byLine, artifacts[..i])
    ensures var a := artifacts[i];
            Gathered(byLine[LineOf(a) := (if LineOf(a) in byLine then byLine[LineOf(a)] else []) + [a]], artifacts[..i + 1])
    ensures artifacts[..i + 1] == artifacts[..i] + [artifacts[i]]
  {
    assert artifacts[..i + 1] == artifacts[..i] + [artifacts[i]];
  }

  lemma SortingIndexes(byLine: LineIndex, artifacts: seq<Identity>)
    requires Gathered(byLine, artifacts)
    ensures Indexes(map l | l in byLine :: SortByVersion(byLine[l]), artifacts)
  {
    forall l | l in byLine
      ensures SortByVersion(byLine[l]) != [] && Ascending(SortByVersion(byLine[l]))
    {
      SortByVersionSorts(byLine[l]);
      assert byLine[l][0] in SortByVersion(byLine[l]);
    }
    forall l, a | l in byLine
      ensures a in SortByVersion(byLine[l]) <==> a in artifacts && LineOf(a) == l
    {
      SortByVersionSorts(byLine[l]);
    }
  }
}
