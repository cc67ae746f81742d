/** The grammar of references, as a reader writes them (conformance/rules.go). */
module ReferenceReading {
  import opened Taxonomy
  import opened Text
  import opened References

  // The code points of white space.
  lemma SpaceIff(c: char)
    ensures IsSpace(c) <==>
            c as int in {0x09, 0x0a, 0x0b, 0x0c, 0x0d, 0x20, 0x85, 0xa0, 0x1680,
                         0x2000, 0x2001, 0x2002, 0x2003, 0x2004, 0x2005, 0x2006, 0x2007, 0x2008, 0x2009, 0x200a,
                         0x2028, 0x2029, 0x202f, 0x205f, 0x3000}
  {
  }

  predicate AllSpace(s: string) {
    forall i :: 0 <= i < |s| ==> IsSpace(s[i])
  }

  // What is left of s between its leading and trailing white space.
  predicate IsMiddle(s: string, i: nat, j: nat) {
    && i <= j <= |s| && AllSpace(s[..i]) && AllSpace(s[j..])
    && (i < j ==> !IsSpace(s[i]) && !IsSpace(s[j - 1]))
  }

  ghost predicate TrimsTo(s: string, t: string) {
    exists i: nat, j: nat :: IsMiddle(s, i, j) && t == s[i..j]
  }

  lemma {:induction false} LeftMiddle(s: string) returns (i: nat)
    ensures i <= |s| && TrimLeft(s) == s[i..] && AllSpace(s[..i]) && (i < |s| ==> !IsSpace(s[i]))
  {
    i := 0;
    if s != "" && IsSpace(s[0]) {
      var k := LeftMiddle(s[1..]);
      i := k + 1;
      assert s[1..][k..] == s[i..] && s[..i] == [s[0]] + s[1..][..k];
    }
  }

  lemma {:induction false} RightMiddle(s: string) returns (j: nat)
    ensures j <= |s| && TrimRight(s) == s[..j] && AllSpace(s[j..]) && (j > 0 ==> !IsSpace(s[j - 1]))
  {
    j := |s|;
    if s != "" && IsSpace(s[|s| - 1]) {
      var t := s[..|s| - 1];
      j := RightMiddle(t);
      assert t[..j] == s[..j] && s[j..] == t[j..] + [s[|s| - 1]];
    }
  }

  lemma TrimIsMiddle(s: string)
    ensures TrimsTo(s, TrimSpace(s))
  {
    var i := LeftMiddle(s);
    var k := RightMiddle(s[i..]);
    assert s[i..][..k] == s[i..i + k] && s[i..][k..] == s[i + k..];
    assert IsMiddle(s, i, i + k) by {
      if k > 0 { assert s[i..][k - 1] == s[i + k - 1]; }
    }
  }

  lemma SpaceAt(s: string, k: nat, l: nat)
    requires k <= l <= |s| && AllSpace(s[..k]) && AllSpace(s[l..])
    ensures forall m :: (0 <= m < k) || (l <= m < |s|) ==> IsSpace(s[m])
  {
    forall m | (0 <= m < k) || (l <= m < |s|)
      ensures IsSpace(s[m])
    {
      if m < k { assert s[..k][m] == s[m]; } else { assert s[l..][m - l] == s[m]; }
    }
  }

  lemma NotBefore(s: string, i: nat, j: nat, k: nat, l: nat)
    requires IsMiddle(s, i, j) && IsMiddle(s, k, l) && i < j
    ensures k <= i && j <= l
  {
    SpaceAt(s, k, l);
  }

  lemma MiddleUnique(s: string, i: nat, j: nat, k: nat, l: nat)
    requires IsMiddle(s, i, j) && IsMiddle(s, k, l)
    ensures s[i..j] == s[k..l]
  {
    if i < j { NotBefore(s, i, j, k, l); }
    if k < l { NotBefore(s, k, l, i, j); }
  }

  lemma TrimIff(s: string, t: string)
    ensures TrimSpace(s) == t <==> TrimsTo(s, t)
  {
    TrimIsMiddle(s);
    if TrimsTo(s, t) {
      var i: nat, j: nat :| IsMiddle(s, i, j) && t == s[i..j];
      var k: nat, l: nat :| IsMiddle(s, k, l) && TrimSpace(s) == s[k..l];
      MiddleUnique(s, i, j, k, l);
    }
  }

  // ---- the parts of a reference ----

  // The id alone, or the id and an instance version behind a colon.
  ghost predicate ReadsVersioned(tail: string, id: string, version: Option<int>) {
    && id != "" && ':' !in id
    && match version
       case None => tail == id
       case Some(v) => exists digits :: AllDigits(digits) && Number(digits) == v <= MAX_INT && tail == id + ":" + digits
  }

  // A type and a colon in front, or the referrer's type.
  ghost predicate ReadsTyped(rest: string, defType: Option<TypeToken>, ref: Reference) {
    || (':' !in rest && defType == Some(ref.typ) && ReadsVersioned(rest, ref.id, ref.version))
    || exists tail :: rest == Spelling(ref.typ) + ":" + tail && ReadsVersioned(tail, ref.id, ref.version)
  }

  // A namespace and a slash in front, or the referrer's namespace.
  ghost predicate ReadsQualified(t: string, defNs: string, defType: Option<TypeToken>, ref: Reference) {
    || ('/' !in t && ref.ns == defNs && ReadsTyped(t, defType, ref))
    || (ref.ns != "" && '/' !in ref.ns
        && exists rest :: t == ref.ns + "/" + rest && ReadsTyped(rest, defType, ref))
  }

  ghost predicate ReadsReference(s: string, defNs: string, defType: Option<TypeToken>, ref: Reference) {
    exists t :: TrimsTo(s, t) && ReadsQualified(t, defNs, defType, ref)
  }

  lemma CutAt(s: string, i: nat, c: char)
    requires i < |s| && s[i] == c
    ensures s == s[..i] + [c] + s[i + 1..]
  {
  }

  lemma CheckedIs(ref: Reference, r: Reference)
    requires CheckId(ref) == Ok(r)
    ensures r == ref && ref.id != "" && ':' !in ref.id
  {
  }

  lemma ReadsWithVersion(tail: string, id: string, digits: string)
    requires id != "" && ':' !in id && AllDigits(digits) && Number(digits) <= MAX_INT && tail == id + ":" + digits
    ensures ReadsVersioned(tail, id, Some(Number(digits)))
  {
  }

  lemma SuffixSound(tail: string, last: nat, ns: string, typ: TypeToken, ref: Reference)
    requires last < |tail| && tail[last] == ':' && AllDigits(tail[last + 1..]) && Number(tail[last + 1..]) <= MAX_INT
    requires CheckId(Reference(ns, typ, tail[..last], Some(Number(tail[last + 1..])))) == Ok(ref)
    ensures ref.ns == ns && ref.typ == typ && ReadsVersioned(tail, ref.id, ref.version)
  {
    CheckedIs(Reference(ns, typ, tail[..last], Some(Number(tail[last + 1..]))), ref);
    CutAt(tail, last, ':');
    ReadsWithVersion(tail, ref.id, tail[last + 1..]);
  }

  lemma VersionedSound(tail: string, ns: string, typ: TypeToken, ref: Reference)
    requires ParseVersioned(tail, ns, typ) == Ok(ref)
    ensures ref.ns == ns && ref.typ == typ && ReadsVersioned(tail, ref.id, ref.version)
  {
    var last := LastIndexOfChar(tail, ':');
    if last >= 0 && AllDigits(tail[last + 1..]) {
      SuffixSound(tail, last, ns, typ, ref);
    } else {
      CheckedIs(Reference(ns, typ, tail, None), ref);
    }
  }

  lemma VersionedComplete(tail: string, ns: string, typ: TypeToken, ref: Reference)
    requires ref.ns == ns && ref.typ == typ && ReadsVersioned(tail, ref.id, ref.version)
    ensures ParseVersioned(tail, ns, typ) == Ok(ref)
  {
    if ref.version.Some? {
      var digits :| AllDigits(digits) && Number(digits) == ref.version.value <= MAX_INT && tail == ref.id + ":" + digits;
      DigitsAreNotSpecial(digits);
      SplitLast(ref.id, ':', digits);
    }
  }

  lemma SpelledSound(rest: string, colon: nat, ns: string, typ: TypeToken, ref: Reference)
    requires colon < |rest| && rest[colon] == ':' && ParseToken(rest[..colon]) == Some(typ)
    requires ParseVersioned(rest[colon + 1..], ns, typ) == Ok(ref)
    ensures ref.ns == ns && rest == Spelling(ref.typ) + ":" + rest[colon + 1..]
    ensures ReadsVersioned(rest[colon + 1..], ref.id, ref.version)
  {
    VersionedSound(rest[colon + 1..], ns, typ, ref);
    TokenTable(rest[..colon], typ);
    CutAt(rest, colon, ':');
  }

  lemma TypedSound(rest: string, ns: string, defType: Option<TypeToken>, ref: Reference)
    requires ParseTyped(rest, ns, defType) == Ok(ref)
    ensures ref.ns == ns && ReadsTyped(rest, defType, ref)
  {
    var colon := IndexOfChar(rest, ':');
    if colon >= 0 {
      SpelledSound(rest, colon, ns, ParseToken(rest[..colon]).value, ref);
    } else {
      assert rest[colon + 1..] == rest;
      VersionedSound(rest, ns, defType.value, ref);
    }
  }

  lemma TypedComplete(rest: string, ns: string, defType: Option<TypeToken>, ref: Reference)
    requires ref.ns == ns && ReadsTyped(rest, defType, ref)
    ensures ParseTyped(rest, ns, defType) == Ok(ref)
  {
    if ':' !in rest && defType == Some(ref.typ) && ReadsVersioned(rest, ref.id, ref.version) {
      assert rest[IndexOfChar(rest, ':') + 1..] == rest;
      VersionedComplete(rest, ns, ref.typ, ref);
    } else {
      var tail :| rest == Spelling(ref.typ) + ":" + tail && ReadsVersioned(tail, ref.id, ref.version);
      VersionedComplete(tail, ns, ref.typ, ref);
      ParsesTyped(ref.typ, tail, ns, defType);
    }
  }

  lemma ForeignSound(t: string, slash: nat, defNs: string, defType: Option<TypeToken>, ref: Reference)
    requires 0 < slash < |t| && t[slash] == '/' && '/' !in t[..slash]
    requires ParseTyped(t[slash + 1..], t[..slash], defType) == Ok(ref)
    ensures ReadsQualified(t, defNs, defType, ref)
  {
    TypedSound(t[slash + 1..], t[..slash], defType, ref);
    CutAt(t, slash, '/');
    assert t == ref.ns + "/" + t[slash + 1..];
  }

  lemma QualifiedSound(s: string, t: string, defNs: string, defType: Option<TypeToken>, ref: Reference)
    requires t == TrimSpace(s) && ParseReference(s, defNs, defType) == Ok(ref)
    ensures ReadsQualified(t, defNs, defType, ref)
  {
    var slash := IndexOfChar(t, '/');
    if slash < 0 {
      TypedSound(t, defNs, defType, ref);
    } else {
      ForeignSound(t, slash, defNs, defType, ref);
    }
  }

  lemma LocalParses(s: string, defNs: string, defType: Option<TypeToken>)
    requires TrimSpace(s) != "" && '/' !in TrimSpace(s)
    ensures ParseReference(s, defNs, defType) == ParseTyped(TrimSpace(s), defNs, defType)
  {
  }

  lemma ForeignParses(s: string, defNs: string, defType: Option<TypeToken>, ns: string, rest: string)
    requires TrimSpace(s) == ns + "/" + rest && ns != "" && '/' !in ns
    ensures ParseReference(s, defNs, defType) == ParseTyped(rest, ns, defType)
  {
    SplitFirst(ns, '/', rest);
  }

  lemma NotEmpty(rest: string, defType: Option<TypeToken>, ref: Reference)
    ensures ReadsTyped(rest, defType, ref) ==> rest != ""
  {
  }

  lemma QualifiedComplete(s: string, t: string, defNs: string, defType: Option<TypeToken>, ref: Reference)
    requires t == TrimSpace(s) && ReadsQualified(t, defNs, defType, ref)
    ensures ParseReference(s, defNs, defType) == Ok(ref)
  {
    if '/' !in t && ref.ns == defNs && ReadsTyped(t, defType, ref) {
      NotEmpty(t, defType, ref);
      LocalParses(s, defNs, defType);
      TypedComplete(t, defNs, defType, ref);
    } else {
      var rest :| t == ref.ns + "/" + rest && ReadsTyped(rest, defType, ref);
      ForeignParses(s, defNs, defType, ref.ns, rest);
      TypedComplete(rest, ref.ns, defType, ref);
    }
  }

  // A text parses to a reference exactly when it is spelled like it: white space around, the namespace or the
  // referrer's, the type or the referrer's, the id and perhaps the version.
  lemma ReferenceIff(s: string, defNs: string, defType: Option<TypeToken>, ref: Reference)
    ensures ParseReference(s, defNs, defType) == Ok(ref) <==> ReadsReference(s, defNs, defType, ref)
  {
    TrimIff(s, TrimSpace(s));
    if ParseReference(s, defNs, defType) == Ok(ref) {
      QualifiedSound(s, TrimSpace(s), defNs, defType, ref);
    }
    if ReadsReference(s, defNs, defType, ref) {
      var t :| TrimsTo(s, t) && ReadsQualified(t, defNs, defType, ref);
      TrimIff(s, t);
      QualifiedComplete(s, t, defNs, defType, ref);
    }
  }

  // ---- the components of an identity ----

  ghost predicate Contains(c: string, part: string) {
    exists a, b :: c == a + part + b
  }

  // No separator, no white space, no two dots in a row, no dot at either end.
  ghost predicate IsComponent(c: string) {
    && c != "" && '/' !in c && ':' !in c && '\\' !in c && (forall x :: x in c ==> !IsSpace(x))
    && !Contains(c, "..") && !(exists b :: c == "." + b) && !(exists a :: c == a + ".")
  }

  lemma DotsAt(c: string)
    ensures Contains(c, "..") <==> exists i :: 0 <= i < |c| - 1 && c[i] == '.' && c[i + 1] == '.'
  {
    if Contains(c, "..") {
      var a, b :| c == a + ".." + b;
      assert c[|a|] == '.' && c[|a| + 1] == '.';
    }
    if exists i :: 0 <= i < |c| - 1 && c[i] == '.' && c[i + 1] == '.' {
      var i :| 0 <= i < |c| - 1 && c[i] == '.' && c[i + 1] == '.';
      assert c == c[..i] + ".." + c[i + 2..];
    }
  }

  lemma DotAtEnds(c: string)
    requires c != ""
    ensures (exists b :: c == "." + b) <==> c[0] == '.'
    ensures (exists a :: c == a + ".") <==> c[|c| - 1] == '.'
  {
    if c[0] == '.' { assert c == "." + c[1..]; }
    if c[|c| - 1] == '.' { assert c == c[..|c| - 1] + "."; }
  }

  // The charset guard refuses exactly those components.
  lemma ComponentIff(c: string)
    ensures CharsetValid(c) <==> IsComponent(c)
  {
    DotsAt(c);
    if c != "" { DotAtEnds(c); }
    assert forall i :: 0 <= i < |c| ==> c[i] in c;
  }
}
