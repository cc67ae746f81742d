/** What a relate refuses and publishes, said of the requested edges and their parsed targets alone
    (runtime/relate.go). */
module RelateReading {
  import opened Ordering
  import opened Taxonomy
  import opened Text
  import opened References
  import opened ReferenceReading
  import opened Units
  import opened PayloadStore
  import opened Queries
  import opened Lineage
  import opened Relate
  import opened Lifecycle
  import opened LifecycleRuns
  import opened ContainerInvariants
  import opened Tickets

  // ---- the structural checks ----

  predicate IsKnownField(t: string) {
    || t == "amends" || t == "supersedes" || t == "derives-from" || t == "depends-on" || t == "validates"
    || t == "discusses" || t == "replies-to" || t == "assigned-to"
  }

  // The reference is to the artifact itself: its line, without a version or with its own. A draft has no instance to
  // tell apart, so any reference to its line is one to itself.
  predicate IsSelf(i: Identity, draft: bool, ref: Reference) {
    && ref.ns == i.ns && ref.typ == i.typ && ref.id == i.id
    && (draft || ref.version == None || ref.version == Some(i.version))
  }

  ghost predicate Targets(i: Identity, target: string, ref: Reference) {
    ReadsReference(target, i.ns, Some(i.typ), ref)
  }

  // A known field, and a target that reads as a reference to something else.
  ghost predicate IsFine(i: Identity, draft: bool, rel: Relationship) {
    IsKnownField(rel.typ) && exists ref :: Targets(i, rel.target, ref) && !IsSelf(i, draft, ref)
  }

  lemma KnownIff(t: string)
    ensures t in RELATIONSHIP_FIELDS <==> IsKnownField(t)
  {
    var fields := RELATIONSHIP_FIELDS;
    assert fields[0] == "amends" && fields[1] == "supersedes" && fields[2] == "derives-from" && fields[3] == "depends-on";
    assert fields[4] == "validates" && fields[5] == "discusses" && fields[6] == "replies-to"
           && fields[7] == "assigned-to";
  }

  // Every refusal, in its own terms.
  lemma ProblemIff(i: Identity, draft: bool, rel: Relationship)
    ensures EdgeProblem(i, draft)(rel) == None <==> IsFine(i, draft, rel)
    ensures EdgeProblem(i, draft)(rel) == Some(UnknownRelationship) <==> !IsKnownField(rel.typ)
    ensures EdgeProblem(i, draft)(rel) == Some(BlankTarget) <==> IsKnownField(rel.typ) && TrimsTo(rel.target, "")
    ensures EdgeProblem(i, draft)(rel) == Some(SelfReference) <==>
            IsKnownField(rel.typ) && exists ref :: Targets(i, rel.target, ref) && IsSelf(i, draft, ref)
  {
    KnownIff(rel.typ);
    TrimIff(rel.target, "");
    forall ref
      ensures ParseReference(rel.target, i.ns, Some(i.typ)) == Ok(ref) <==> Targets(i, rel.target, ref)
    {
      ReferenceIff(rel.target, i.ns, Some(i.typ), ref);
    }
  }

  // ---- the published unit ----

  // The edge is asked for: some requested edge has its field and, trimmed, its target, which is not blank.
  ghost predicate Asked(adds: seq<Relationship>, rel: Relationship) {
    rel.target != "" && exists k :: 0 <= k < |adds| && adds[k].typ == rel.typ && TrimsTo(adds[k].target, rel.target)
  }

  lemma RequestedIff(adds: seq<Relationship>, rel: Relationship)
    ensures rel in Requested(adds) <==> Asked(adds, rel)
  {
    forall k | 0 <= k < |adds|
      ensures Trimmed(adds[k]) == rel <==> adds[k].typ == rel.typ && TrimsTo(adds[k].target, rel.target)
    {
      TrimIff(adds[k].target, rel.target);
    }
    if Asked(adds, rel) {
      var k :| 0 <= k < |adds| && adds[k].typ == rel.typ && TrimsTo(adds[k].target, rel.target);
      assert adds[k] in adds && Trimmed(adds[k]) == rel;
    }
  }

  // The published unit is the current one with the asked edges among its edges, in ascending order, and dated today;
  // the reference keeps its project and repository.
  lemma PublishedIs(s: Archive, f: Identity, adds: seq<Relationship>, today: string)
    requires f in s.refs
    ensures var u, p := UnitAt(s, f), RelateTo(s, f, adds, today);
            && p.unit == u.(relationships := p.unit.relationships, updated := today)
            && Ascends(p.unit.relationships)
            && (forall rel :: rel in p.unit.relationships <==> rel in u.relationships || Asked(adds, rel))
            && p.ref == PutRef(u.identity, u.identity.typ, u.identity.version, s.refs[f].project, s.refs[f].sourceRepo)
  {
    var u, p := UnitAt(s, f), RelateTo(s, f, adds, today);
    forall rel
      ensures rel in p.unit.relationships <==> rel in u.relationships || Asked(adds, rel)
    {
      RequestedIff(adds, rel);
      assert rel in p.unit.relationships <==> rel in Elems(p.unit.relationships);
    }
  }

  // ---- no artifact is made to point at itself ----

  lemma TrimsTwice(s: string, t: string)
    requires TrimsTo(s, t)
    ensures TrimsTo(t, t)
  {
    var i: nat, j: nat :| IsMiddle(s, i, j) && t == s[i..j];
    assert IsMiddle(t, 0, |t|) by {
      if i < j { assert t[0] == s[i] && t[|t| - 1] == s[j - 1]; }
    }
    assert t == t[0..|t|];
  }

  lemma TrimsOnce(s: string, t: string, x: string)
    requires TrimsTo(s, t)
    ensures TrimsTo(s, x) <==> x == t
  {
    TrimIff(s, t);
    TrimIff(s, x);
  }

  // Trimming a target does not change what it reads as.
  lemma TrimmedReads(s: string, t: string, i: Identity, ref: Reference)
    requires TrimsTo(s, t)
    ensures Targets(i, t, ref) <==> Targets(i, s, ref)
  {
    TrimsTwice(s, t);
    forall x
      ensures TrimsTo(s, x) <==> x == t
      ensures TrimsTo(t, x) <==> x == t
    {
      TrimsOnce(s, t, x);
      TrimsOnce(t, t, x);
    }
  }

  lemma AskedIsFine(i: Identity, draft: bool, adds: seq<Relationship>, rel: Relationship)
    requires Clean(EdgeProblem(i, draft), adds) && Asked(adds, rel)
    ensures IsFine(i, draft, rel)
  {
    var k :| 0 <= k < |adds| && adds[k].typ == rel.typ && TrimsTo(adds[k].target, rel.target);
    ProblemIff(i, draft, adds[k]);
    var ref :| Targets(i, adds[k].target, ref) && !IsSelf(i, draft, ref);
    TrimmedReads(adds[k].target, rel.target, i, ref);
  }

  // Every edge a relate adds reads as a reference to something else than the unit's own instance.
  lemma AddedEdgesAreFine(s: Archive, f: Identity, adds: seq<Relationship>, today: string, passes: Unit -> bool,
      rel: Relationship)
    requires f in s.refs && Relates(s, f, adds, today, passes)
    requires rel in RelateTo(s, f, adds, today).unit.relationships && rel !in UnitAt(s, f).relationships
    ensures IsFine(UnitAt(s, f).identity, false, rel)
  {
    PublishedIs(s, f, adds, today);
    AskedIsFine(UnitAt(s, f).identity, false, adds, rel);
  }

  // ---- over runs ----

  // The event gives the form an edge it did not have.
  ghost predicate Gains(s: Archive, e: Event, f: Identity, rel: Relationship) {
    && f in s.refs && f in After(s, e).refs && rel !in UnitAt(s, f).relationships
    && rel in UnitAt(After(s, e), f).relationships
  }

  lemma PutsKeepEdges(s: Archive, ctx: Context, req: Request, puts: seq<Put>, t: Archive, f: Identity)
    requires Coherent(s) && IsBatch(s, ctx, req, puts) && Changed(s, ctx, puts, t) && f in s.refs
    ensures f in t.refs && UnitAt(t, f).relationships == UnitAt(s, f).relationships
  {
    if p :| p in puts && p.ref.form == f {
      assert IsMove(s, ctx, req, p) && Published(ctx, p, t);
    } else {
      assert Avoids(puts, f);
    }
  }

  lemma TransitionsKeepEdges(s: Archive, ctx: Context, req: Request, f: Identity)
    requires Growing(s) && f in s.refs && Decide(s, ctx, req).Ok?
    ensures var t := PutAll(s, Decide(s, ctx, req).value);
            f in t.refs && UnitAt(t, f).relationships == UnitAt(s, f).relationships
  {
    var puts := Decide(s, ctx, req).value;
    GrowingIsCoherent(s);
    NothingSwallowed(s, ctx, req);
    BatchChanges(s, ctx, req, puts);
    PutsKeepEdges(s, ctx, req, puts, PutAll(s, puts), f);
  }

  lemma RelatedUnit(s: Archive, g: Identity, adds: seq<Relationship>, today: string, passes: Unit -> bool, f: Identity)
    requires Growing(s) && g in s.refs && f in s.refs && Relates(s, g, adds, today, passes)
    ensures var p := RelateTo(s, g, adds, today);
            var t := PutUnit(s, p, true).archive;
            f in t.refs && UnitAt(t, f) == if f == g then p.unit else UnitAt(s, f)
  {
    var p := RelateTo(s, g, adds, today);
    RelateExtends(s, g, adds, today, passes);
    GrowingIsCoherent(s);
    assert UnitAt(s, g).identity == g;
    if f != g { MovedLeavesOthers(s, p, PutUnit(s, p, true).archive, f); }
  }

  lemma PublishKeepsOthers(s: Archive, p: Put, f: Identity)
    requires Growing(s) && Named(p) && p.ref.form !in s.refs && f in s.refs
    ensures f in PutUnit(s, p, false).archive.refs && PutUnit(s, p, false).archive.refs[f] == s.refs[f]
  {
    ExtensionLands(s, p, false);
    MovedLeavesOthers(s, p, PutUnit(s, p, false).archive, f);
  }

  // An edge is gained only by a relate, and reads as a reference to something else than the form itself.
  lemma GainsAreFine(s: Archive, e: Event, f: Identity, rel: Relationship)
    requires Growing(s) && Fits(s, e) && Gains(s, e, f, rel)
    ensures e.Relating? && IsFine(f, false, rel)
  {
    GrowingIsCoherent(s);
    match e
    case Publish(p) =>
      PublishKeepsOthers(s, p, f);
    case Transit(ctx, req) =>
      if Decide(s, ctx, req).Ok? { TransitionsKeepEdges(s, ctx, req, f); }
    case Relating(line, adds, today, passes) =>
      if WouldRelate(s, e) {
        var g := Top(s.refs.Keys, line).value;
        RelatedUnit(s, g, adds, today, passes, f);
        assert UnitAt(s, f).identity == f;
        AddedEdgesAreFine(s, g, adds, today, passes, rel);
      }
  }

  // At every step of every run.
  lemma RunGainsAreFine(events: seq<Event>, k: nat, f: Identity, rel: Relationship)
    requires LegalRun(EMPTY, events) && k < |events| && Gains(Reached(EMPTY, events[..k]), events[k], f, rel)
    ensures events[k].Relating? && IsFine(f, false, rel)
  {
    LegalPrefix(EMPTY, events, k);
    RunGrows(events[..k]);
    GainsAreFine(Reached(EMPTY, events[..k]), events[k], f, rel);
  }
}
