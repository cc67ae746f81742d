/** Adding relationships to a published line (runtime/relate.go). */
module Relate {
  import opened Ordering
  import opened Taxonomy
  import opened Text
  import opened References
  import opened Units
  import opened PayloadStore
  import opened Queries

  const RELATIONSHIP_FIELDS: seq<string> :=
    ["amends", "supersedes", "derives-from", "depends-on", "validates", "discusses", "replies-to", "assigned-to"]

  // ---- the canonical order of edges ----

  predicate EdgeLess(a: Relationship, b: Relationship) {
    Less(a.typ, b.typ) || (a.typ == b.typ && Less(a.target, b.target))
  }

  lemma EdgeLessTotal(a: Relationship, b: Relationship)
    ensures EdgeLess(a, b) || a == b || EdgeLess(b, a)
  {
    LessTotal(a.typ, b.typ);
    LessTotal(a.target, b.target);
  }

  lemma EdgeLessTransitive(a: Relationship, b: Relationship, c: Relationship)
    requires EdgeLess(a, b) && EdgeLess(b, c)
    ensures EdgeLess(a, c)
  {
    if Less(a.typ, b.typ) && Less(b.typ, c.typ) {
      LessTransitive(a.typ, b.typ, c.typ);
    } else if a.typ == b.typ && b.typ == c.typ {
      LessTransitive(a.target, b.target, c.target);
    }
  }

  lemma EdgeLessAsymmetric(a: Relationship, b: Relationship)
    requires EdgeLess(a, b)
    ensures a != b && !EdgeLess(b, a)
  {
    if Less(a.typ, b.typ) {
      LessAsymmetric(a.typ, b.typ);
    } else {
      LessAsymmetric(a.target, b.target);
      LessIrreflexive(a.typ);
    }
  }

  // Strictly ascending, hence free of repetitions.
  ghost predicate Ascends(r: seq<Relationship>) {
    forall i, j :: 0 <= i < j < |r| ==> EdgeLess(r[i], r[j])
  }

  ghost predicate IsCanonical(r: seq<Relationship>, edges: set<Relationship>) {
    Ascends(r) && Elems(r) == edges
  }

  function InsertEdge(x: Relationship, s: seq<Relationship>): seq<Relationship> {
    if s == [] || EdgeLess(x, s[0]) then [x] + s else [s[0]] + InsertEdge(x, s[1..])
  }

  lemma {:induction false} InsertKeepsCanonical(x: Relationship, s: seq<Relationship>)
    requires Ascends(s) && x !in s
    ensures IsCanonical(InsertEdge(x, s), Elems(s) + {x})
  {
    if s == [] {
    } else if EdgeLess(x, s[0]) {
      forall j | 0 <= j < |s|
        ensures EdgeLess(x, s[j])
      {
        if j > 0 { EdgeLessTransitive(x, s[0], s[j]); }
      }
    } else {
      var t := InsertEdge(x, s[1..]);
      InsertKeepsCanonical(x, s[1..]);
      EdgeLessTotal(x, s[0]);
      assert s == [s[0]] + s[1..];
      forall j | 0 <= j < |t|
        ensures EdgeLess(s[0], t[j])
      {
        assert t[j] in Elems(s[1..]) + {x};
      }
      assert Elems(s) == Elems(s[1..]) + {s[0]};
      assert Elems([s[0]] + t) == Elems(t) + {s[0]};
    }
  }

  function SortEdges(s: seq<Relationship>): seq<Relationship> {
    if s == [] then [] else InsertEdge(s[|s| - 1], SortEdges(s[..|s| - 1]))
  }

  lemma {:induction false} SortIsCanonical(s: seq<Relationship>)
    requires Distinct(s)
    ensures IsCanonical(SortEdges(s), Elems(s))
  {
    if s != [] {
      var last, rest := s[|s| - 1], s[..|s| - 1];
      SortIsCanonical(rest);
      assert s == rest + [last];
      assert last !in Elems(rest);
      InsertKeepsCanonical(last, SortEdges(rest));
    }
  }

  // The canonical order of a set of edges is unique.
  lemma {:induction false} CanonicalUnique(r: seq<Relationship>, t: seq<Relationship>, edges: set<Relationship>)
    requires IsCanonical(r, edges) && IsCanonical(t, edges)
    ensures r == t
  {
    ElemsEmpty(r);
    ElemsEmpty(t);
    if r != [] {
      FirstIsLeast(r, t);
      FirstIsLeast(t, r);
      RestOf(r);
      RestOf(t);
      CanonicalUnique(r[1..], t[1..], edges - {r[0]});
    }
  }

  lemma FirstIsLeast(r: seq<Relationship>, t: seq<Relationship>)
    requires r != [] && t != [] && Ascends(r) && Ascends(t) && Elems(r) == Elems(t)
    ensures r[0] == t[0]
  {
    assert r[0] in Elems(t) && t[0] in Elems(r);
    if r[0] != t[0] {
      assert EdgeLess(t[0], r[0]);
      EdgeLessAsymmetric(t[0], r[0]);
    }
  }

  lemma RestOf(r: seq<Relationship>)
    requires r != [] && Ascends(r)
    ensures Ascends(r[1..]) && Elems(r[1..]) == Elems(r) - {r[0]}
  {
    forall j | 0 < j < |r|
      ensures r[j] != r[0]
    {
      EdgeLessAsymmetric(r[0], r[j]);
    }
    assert r == [r[0]] + r[1..];
  }

  lemma {:induction false} Listing(edges: set<Relationship>) returns (s: seq<Relationship>)
    ensures Distinct(s) && Elems(s) == edges
  {
    if edges == {} {
      s := [];
    } else {
      var x :| x in edges;
      var rest := Listing(edges - {x});
      assert forall y :: y in rest ==> y in Elems(rest);
      s := rest + [x];
      assert Elems(s) == Elems(rest) + {x} == edges;
    }
  }

  ghost function Canonical(edges: set<Relationship>): (r: seq<Relationship>)
    ensures IsCanonical(r, edges)
  {
    assert exists r :: IsCanonical(r, edges) by {
      var s := Listing(edges);
      SortIsCanonical(s);
    }
    var r :| IsCanonical(r, edges);
    r
  }

  // ---- merging ----

  function Trimmed(rel: Relationship): Relationship {
    Relationship(rel.typ, TrimSpace(rel.target))
  }

  // The requested edges; blank targets are skipped.
  ghost function Requested(adds: seq<Relationship>): set<Relationship> {
    set rel | rel in adds && Trimmed(rel).target != "" :: Trimmed(rel)
  }

  // The requested edges not seen before, each once, in the order of the request.
  function NewEdges(seen: set<Relationship>, adds: seq<Relationship>): seq<Relationship> {
    if adds == [] then []
    else
      var before := NewEdges(seen, adds[..|adds| - 1]);
      var x := Trimmed(adds[|adds| - 1]);
      if x.target == "" || x in seen || x in before then before else before + [x]
  }

  lemma RequestedStep(adds: seq<Relationship>)
    requires adds != []
    ensures var x := Trimmed(adds[|adds| - 1]);
            Requested(adds) == Requested(adds[..|adds| - 1]) + if x.target == "" then {} else {x}
  {
    assert adds == adds[..|adds| - 1] + [adds[|adds| - 1]];
  }

  lemma {:induction false} NewEdgesAre(seen: set<Relationship>, adds: seq<Relationship>)
    ensures Distinct(NewEdges(seen, adds))
    ensures Elems(NewEdges(seen, adds)) == Requested(adds) - seen
  {
    if adds != [] {
      var before := NewEdges(seen, adds[..|adds| - 1]);
      var x := Trimmed(adds[|adds| - 1]);
      NewEdgesAre(seen, adds[..|adds| - 1]);
      RequestedStep(adds);
      assert Elems(before + [x]) == Elems(before) + {x};
      assert x in before <==> x in Elems(before);
    }
  }

  // The first occurrences of the edges a unit already has.
  method Dedupe(existing: seq<Relationship>) returns (keys: seq<Relationship>, seen: set<Relationship>)
    ensures Distinct(keys) && Elems(keys) == seen == Elems(existing)
  {
    keys, seen := [], {};
    for i := 0 to |existing|
      invariant Distinct(keys) && Elems(keys) == seen == Elems(existing[..i])
    {
      assert existing[..i + 1] == existing[..i] + [existing[i]];
      if existing[i] !in seen {
        assert existing[i] !in Elems(keys);
        seen := seen + {existing[i]};
        keys := keys + [existing[i]];
      }
    }
    assert existing[..|existing|] == existing;
  }

  method MergeRelationships(existing: seq<Relationship>, adds: seq<Relationship>)
    returns (merged: seq<Relationship>, added: seq<Relationship>)
    ensures merged == Canonical(Elems(existing) + Requested(adds))
    ensures added == NewEdges(Elems(existing), adds)
  {
    var known, seen := Dedupe(existing);
    var keys := known;
    added := [];
    for i := 0 to |adds|
      invariant added == NewEdges(Elems(existing), adds[..i])
      invariant seen == Elems(existing) + Elems(added)
      invariant keys == known + added
    {
      var x := Trimmed(adds[i]);
      assert adds[..i + 1][..i] == adds[..i];
      assert x in seen <==> x in Elems(existing) || x in added;
      if x.target != "" && x !in seen {
        seen := seen + {x};
        keys := keys + [x];
        added := added + [x];
      }
    }
    assert adds[..|adds|] == adds;
    NewEdgesAre(Elems(existing), adds);
    KeysDistinct(known, added);
    SortIsCanonical(keys);
    assert Elems(keys) == Elems(existing) + Requested(adds);
    merged := SortEdges(keys);
    CanonicalUnique(merged, Canonical(Elems(existing) + Requested(adds)), Elems(existing) + Requested(adds));
  }

  lemma KeysDistinct(s: seq<Relationship>, t: seq<Relationship>)
    requires Distinct(s) && Distinct(t) && Elems(s) !! Elems(t)
    ensures Distinct(s + t) && Elems(s + t) == Elems(s) + Elems(t)
  {
    forall i, j | 0 <= i < j < |s + t|
      ensures (s + t)[i] != (s + t)[j]
    {
      if i < |s| <= j { assert s[i] in Elems(s) && t[j - |s|] in Elems(t); }
    }
  }

  // Relating the same edges again adds nothing.
  lemma RelateIsIdempotent(existing: seq<Relationship>, adds: seq<Relationship>)
    ensures NewEdges(Elems(Canonical(Elems(existing) + Requested(adds))), adds) == []
  {
    var merged := Canonical(Elems(existing) + Requested(adds));
    NewEdgesAre(Elems(merged), adds);
    ElemsEmpty(NewEdges(Elems(merged), adds));
  }

  lemma ElemsEmpty(s: seq<Relationship>)
    ensures s == [] <==> Elems(s) == {}
  {
    if s != [] { assert s[0] in Elems(s); }
  }

  // ---- the order of the added edges ----

  // adds[j] is a new edge that the request has not named before.
  predicate FirstAsked(seen: set<Relationship>, adds: seq<Relationship>, j: nat)
    requires j < |adds|
  {
    var y := Trimmed(adds[j]);
    y.target != "" && y !in seen && forall k :: 0 <= k < j ==> Trimmed(adds[k]) != y
  }

  predicate PairInOrder(seen: set<Relationship>, adds: seq<Relationship>, i: nat, j: nat)
    requires i < j < |adds|
  {
    FirstAsked(seen, adds, i) && FirstAsked(seen, adds, j) ==> EdgeLess(Trimmed(adds[i]), Trimmed(adds[j]))
  }

  // The request names its new edges in the canonical order.
  predicate AskedInOrder(seen: set<Relationship>, adds: seq<Relationship>) {
    forall i, j :: 0 <= i < j < |adds| ==> PairInOrder(seen, adds, i, j)
  }

  lemma FirstAskedBefore(seen: set<Relationship>, adds: seq<Relationship>, n: nat, j: nat)
    requires j < n <= |adds|
    ensures FirstAsked(seen, adds[..n], j) <==> FirstAsked(seen, adds, j)
  {
    assert forall k :: 0 <= k <= j ==> adds[..n][k] == adds[k];
  }

  ghost predicate AskedAt(seen: set<Relationship>, adds: seq<Relationship>, j: nat, x: Relationship) {
    j < |adds| && FirstAsked(seen, adds, j) && Trimmed(adds[j]) == x
  }

  // The added edges are those the request asks for first somewhere.
  lemma {:induction false} AddedIsAsked(seen: set<Relationship>, adds: seq<Relationship>, x: Relationship)
    ensures x in NewEdges(seen, adds) <==> exists j :: AskedAt(seen, adds, j, x)
  {
    if adds != [] {
      var n := |adds| - 1;
      AddedIsAsked(seen, adds[..n], x);
      forall j | 0 <= j < n
        ensures AskedAt(seen, adds[..n], j, x) <==> AskedAt(seen, adds, j, x)
      {
        FirstAskedBefore(seen, adds, n, j);
      }
      LastAsked(seen, adds);
      if x in NewEdges(seen, adds[..n]) {
        var j :| AskedAt(seen, adds[..n], j, x);
        assert AskedAt(seen, adds, j, x);
      } else if FirstAsked(seen, adds, n) && Trimmed(adds[n]) == x {
        assert AskedAt(seen, adds, n, x);
      }
    }
  }

  // The last edge is added exactly when it is first asked there.
  lemma LastAsked(seen: set<Relationship>, adds: seq<Relationship>)
    requires adds != []
    ensures var n := |adds| - 1;
            NewEdges(seen, adds) ==
              NewEdges(seen, adds[..n]) + if FirstAsked(seen, adds, n) then [Trimmed(adds[n])] else []
  {
    var n := |adds| - 1;
    var y, before := Trimmed(adds[n]), NewEdges(seen, adds[..n]);
    NewEdgesAre(seen, adds[..n]);
    assert y in before <==> y in Elems(before);
    if exists k :: 0 <= k < n && Trimmed(adds[k]) == y {
      var k :| 0 <= k < n && Trimmed(adds[k]) == y;
      assert adds[..n][k] in adds[..n];
    } else {
      assert forall rel :: rel in adds[..n] ==> Trimmed(rel) != y;
    }
    assert before + [] == before;
  }

  ghost predicate AllBelow(r: seq<Relationship>, y: Relationship) {
    forall x :: x in r ==> EdgeLess(x, y)
  }

  lemma AscendsWith(r: seq<Relationship>, y: Relationship)
    ensures Ascends(r + [y]) <==> Ascends(r) && AllBelow(r, y)
  {
    var t := r + [y];
    if Ascends(t) {
      forall i, j | 0 <= i < j < |r|
        ensures EdgeLess(r[i], r[j])
      {
        assert EdgeLess(t[i], t[j]);
      }
      forall x | x in r
        ensures EdgeLess(x, y)
      {
        var i :| 0 <= i < |r| && r[i] == x;
        assert EdgeLess(t[i], t[|r|]);
      }
    }
  }

  lemma PairBefore(seen: set<Relationship>, adds: seq<Relationship>, n: nat, i: nat, j: nat)
    requires i < j < n <= |adds|
    ensures PairInOrder(seen, adds[..n], i, j) <==> PairInOrder(seen, adds, i, j)
  {
    FirstAskedBefore(seen, adds, n, i);
    FirstAskedBefore(seen, adds, n, j);
  }

  lemma InOrderBefore(seen: set<Relationship>, adds: seq<Relationship>, n: nat)
    requires AskedInOrder(seen, adds) && n <= |adds|
    ensures AskedInOrder(seen, adds[..n])
  {
    forall i, j | 0 <= i < j < n
      ensures PairInOrder(seen, adds[..n], i, j)
    {
      PairBefore(seen, adds, n, i, j);
    }
  }

  lemma BelowLast(seen: set<Relationship>, adds: seq<Relationship>, n: nat, x: Relationship)
    requires |adds| == n + 1 && AskedInOrder(seen, adds) && FirstAsked(seen, adds, n)
    requires x in NewEdges(seen, adds[..n])
    ensures EdgeLess(x, Trimmed(adds[n]))
  {
    AddedIsAsked(seen, adds[..n], x);
    var i :| AskedAt(seen, adds[..n], i, x);
    FirstAskedBefore(seen, adds, n, i);
    assert PairInOrder(seen, adds, i, n);
  }

  lemma LastInOrder(seen: set<Relationship>, adds: seq<Relationship>, n: nat, i: nat)
    requires |adds| == n + 1 && i < n
    requires LastAbove(seen, adds, n)
    ensures PairInOrder(seen, adds, i, n)
  {
    FirstAskedBefore(seen, adds, n, i);
    if FirstAsked(seen, adds, i) {
      assert AskedAt(seen, adds[..n], i, Trimmed(adds[i]));
      AddedIsAsked(seen, adds[..n], Trimmed(adds[i]));
    }
  }

  ghost predicate LastAbove(seen: set<Relationship>, adds: seq<Relationship>, n: nat)
    requires |adds| == n + 1
  {
    FirstAsked(seen, adds, n) ==> AllBelow(NewEdges(seen, adds[..n]), Trimmed(adds[n]))
  }

  lemma InOrderSplits(seen: set<Relationship>, adds: seq<Relationship>, n: nat)
    requires |adds| == n + 1 && AskedInOrder(seen, adds)
    ensures AskedInOrder(seen, adds[..n]) && LastAbove(seen, adds, n)
  {
    InOrderBefore(seen, adds, n);
    forall x | x in NewEdges(seen, adds[..n]) && FirstAsked(seen, adds, n)
      ensures EdgeLess(x, Trimmed(adds[n]))
    {
      BelowLast(seen, adds, n, x);
    }
  }

  lemma InOrderJoins(seen: set<Relationship>, adds: seq<Relationship>, n: nat)
    requires |adds| == n + 1 && AskedInOrder(seen, adds[..n]) && LastAbove(seen, adds, n)
    ensures AskedInOrder(seen, adds)
  {
    forall i, j | 0 <= i < j < |adds|
      ensures PairInOrder(seen, adds, i, j)
    {
      if j < n {
        PairBefore(seen, adds, n, i, j);
      } else {
        LastInOrder(seen, adds, n, i);
      }
    }
  }

  // The added edges come in the canonical order exactly when the request names its new edges in that order.
  lemma {:induction false} AddedInOrderIff(seen: set<Relationship>, adds: seq<Relationship>)
    ensures Ascends(NewEdges(seen, adds)) <==> AskedInOrder(seen, adds)
  {
    if adds != [] {
      var n := |adds| - 1;
      AddedInOrderIff(seen, adds[..n]);
      LastAsked(seen, adds);
      if AskedInOrder(seen, adds) { InOrderSplits(seen, adds, n); }
      if AskedInOrder(seen, adds[..n]) && LastAbove(seen, adds, n) { InOrderJoins(seen, adds, n); }
      AscendsWith(NewEdges(seen, adds[..n]), Trimmed(adds[n]));
    }
  }

  // A request that names validates before amends: the added edges are in that order.
  lemma AddedOutOfOrder()
    ensures var adds := [Relationship("validates", "x"), Relationship("amends", "y")];
            NewEdges(Elems([]), adds) == adds && !Ascends(adds)
  {
    var x, y := Relationship("validates", "x"), Relationship("amends", "y");
    assert Trimmed(x) == x && Trimmed(y) == y;
    assert NewEdges(Elems([]), [x]) == [x] by { assert [x][..0] == []; }
    assert [x, y][..1] == [x];
    assert EdgeLess(y, x);
    EdgeLessAsymmetric(y, x);
  }

  // ---- structural checks ----

  datatype RelateRefusal =
    | UnknownRelationship | BlankTarget | MalformedTarget | SelfReference
    | NotPublished | Invalid

  type EdgeCheck = Relationship -> Option<RelateRefusal>

  // What is wrong with adding the edge to the artifact; a draft has no instance of its own to point at.
  function EdgeProblem(i: Identity, draft: bool): EdgeCheck {
    (rel: Relationship) =>
      if rel.typ !in RELATIONSHIP_FIELDS then Some(UnknownRelationship)
      else if TrimSpace(rel.target) == "" then Some(BlankTarget)
      else
        match ParseReference(rel.target, i.ns, Some(i.typ))
        case Err(_) => Some(MalformedTarget)
        case Ok(ref) =>
          if RefLine(ref) == LineOf(i) && (draft || ref.version.None? || ref.version.value == i.version)
          then Some(SelfReference) else None
  }

  predicate Clean(check: EdgeCheck, adds: seq<Relationship>) {
    forall k :: 0 <= k < |adds| ==> check(adds[k]) == None
  }

  ghost predicate IsFirstProblem(check: EdgeCheck, adds: seq<Relationship>, problem: Option<RelateRefusal>) {
    match problem
    case None => Clean(check, adds)
    case Some(_) => exists k :: 0 <= k < |adds| && check(adds[k]) == problem && Clean(check, adds[..k])
  }

  method CheckRelateEdges(check: EdgeCheck, adds: seq<Relationship>) returns (problem: Option<RelateRefusal>)
    ensures IsFirstProblem(check, adds, problem)
  {
    for k := 0 to |adds|
      invariant Clean(check, adds[..k])
    {
      problem := check(adds[k]);
      if problem.Some? {
        return;
      }
    }
    return None;
  }

  // ---- the published path ----

  datatype RelateOutcome = Unchanged | Repointed(hash: Digest, added: seq<Relationship>)

  function Related(u: Unit, merged: seq<Relationship>, today: string): Unit {
    u.(relationships := merged, updated := today)
  }

  function RelatePut(u: Unit, current: Ref): Put {
    Put(u, PutRef(u.identity, u.identity.typ, u.identity.version, current.project, current.sourceRepo))
  }

  // The put of a relate of the form's current unit.
  ghost function RelateTo(s: Archive, f: Identity, adds: seq<Relationship>, today: string): Put
    requires f in s.refs
  {
    var u := UnitAt(s, f);
    RelatePut(Related(u, Canonical(Elems(u.relationships) + Requested(adds)), today), s.refs[f])
  }

  // passes is the validation of the would-be unit against the store.
  ghost predicate Relates(s: Archive, f: Identity, adds: seq<Relationship>, today: string, passes: Unit -> bool)
    requires f in s.refs
  {
    && Clean(EdgeProblem(UnitAt(s, f).identity, false), adds)
    && NewEdges(Elems(UnitAt(s, f).relationships), adds) != []
    && passes(RelateTo(s, f, adds, today).unit)
  }

  method RelatePublished(st: Store, line: Line, adds: seq<Relationship>, today: string, passes: Unit -> bool)
    returns (outcome: Result<RelateOutcome, RelateRefusal>)
    requires Coherent(st.State())
    modifies st
    ensures var s := old(st.State());
            match Top(s.refs.Keys, line)
            case None => outcome == Err(NotPublished) && st.State() == s
            case Some(f) =>
              && f in s.refs
              && (outcome.Ok? && outcome.value.Repointed? <==> Relates(s, f, adds, today, passes))
              && (outcome == Ok(Unchanged) <==>
                    Clean(EdgeProblem(f, false), adds) && NewEdges(Elems(UnitAt(s, f).relationships), adds) == [])
              && (if Relates(s, f, adds, today, passes) then
                    && st.State() == PutUnit(s, RelateTo(s, f, adds, today), true).archive
                    && outcome == Ok(Repointed(HashUnit(RelateTo(s, f, adds, today).unit),
                                               NewEdges(Elems(UnitAt(s, f).relationships), adds)))
                  else st.State() == s)
  {
    var top := HighestInstance(st, line);
    TopNone(st.refs.Keys, line);
    if top.None? {
      return Err(NotPublished);
    }
    var u := st.refs[top.value].hash.unit;
    var problem := CheckRelateEdges(EdgeProblem(u.identity, false), adds);
    if problem.Some? {
      return Err(problem.value);
    }
    var merged, added := MergeRelationships(u.relationships, adds);
    if added == [] {
      return Ok(Unchanged);
    }
    var next := Related(u, merged, today);
    if !passes(next) {
      return Err(Invalid);
    }
    var hash, kept := st.PutTx(RelatePut(next, st.refs[top.value]), true);
    return Ok(Repointed(hash, added));
  }
}
