/** Reading units and lines from the store (store/units.go, store/refs.go, runtime/transition.go). */
module Queries {
  import opened Taxonomy
  import opened References
  import opened Units
  import opened PayloadStore

  // Every reference points at an archived payload of its own form: no read fails.
  ghost predicate Coherent(s: Archive) {
    forall f :: f in s.refs ==> s.refs[f].hash in s.rows && s.refs[f].hash.unit.identity == f
  }

  // The unit a reference resolves to.
  function UnitAt(s: Archive, f: Identity): Unit
    requires f in s.refs
  {
    s.refs[f].hash.unit
  }

  ghost function ProjectForms(s: Archive, project: string): set<Identity> {
    set f | f in s.refs && s.refs[f].project == project
  }

  // ---- the highest instance of a line ----

  ghost predicate IsTop(forms: set<Identity>, l: Line, f: Identity) {
    f in forms && LineOf(f) == l && forall g :: g in forms && LineOf(g) == l ==> g.version <= f.version
  }

  ghost function Top(forms: set<Identity>, l: Line): Option<Identity> {
    if exists f :: IsTop(forms, l, f) then
      var f :| IsTop(forms, l, f);
      Some(f)
    else None
  }

  lemma TopUnique(forms: set<Identity>, l: Line, f: Identity)
    requires IsTop(forms, l, f)
    ensures Top(forms, l) == Some(f)
  {
  }

  lemma {:induction false} TopExists(forms: set<Identity>, l: Line, f: Identity) returns (top: Identity)
    requires f in forms && LineOf(f) == l
    ensures IsTop(forms, l, top)
    decreases forms
  {
    if IsTop(forms, l, f) {
      top := f;
    } else {
      var g :| g in forms && LineOf(g) == l && g.version > f.version;
      top := TopExists(forms - {f}, l, g);
    }
  }

  lemma TopNone(forms: set<Identity>, l: Line)
    ensures Top(forms, l) == None <==> forall f :: f in forms ==> LineOf(f) != l
    ensures Top(forms, l).Some? ==> IsTop(forms, l, Top(forms, l).value)
  {
    forall f | f in forms && LineOf(f) == l
      ensures Top(forms, l).Some?
    {
      var top := TopExists(forms, l, f);
    }
  }

  // The current state of a line: its highest instance among all projects.
  method HighestInstance(st: Store, l: Line) returns (top: Option<Identity>)
    ensures top == Top(st.refs.Keys, l)
  {
    top := None;
    var todo := st.refs.Keys;
    while todo != {}
      invariant todo <= st.refs.Keys
      invariant top.None? ==> forall g :: g in st.refs && g !in todo ==> LineOf(g) != l
      invariant top.Some? ==> IsTop(st.refs.Keys - todo, l, top.value)
    {
      var f :| f in todo;
      if LineOf(f) == l && (top.None? || f.version > top.value.version) {
        top := Some(f);
      }
      todo := todo - {f};
    }
    assert st.refs.Keys - todo == st.refs.Keys;
    TopNone(st.refs.Keys, l);
    if top.Some? { TopUnique(st.refs.Keys, l, top.value); }
  }

  // ---- relationships ----

  // The reference a relationship target stands for, if it parses.
  function Target(u: Unit, rel: Relationship): Option<Reference> {
    match ParseReference(rel.target, u.identity.ns, Some(u.identity.typ))
    case Ok(ref) => Some(ref)
    case Err(_) => None
  }

  function RefLine(ref: Reference): Line {
    Line(ref.ns, ref.typ, ref.id)
  }

  // The line a relationship names, when it is of the given type and its target parses.
  function NamedLine(u: Unit, rel: Relationship, typ: string): Option<Line> {
    if rel.typ == typ && Target(u, rel).Some? then Some(RefLine(Target(u, rel).value)) else None
  }

  // The k-th relationship of u has the type, and its target parses to the reference.
  predicate RefAt(u: Unit, k: nat, typ: string, ref: Reference) {
    && k < |u.relationships| && u.relationships[k].typ == typ
    && ParseReference(u.relationships[k].target, u.identity.ns, Some(u.identity.typ)) == Ok(ref)
  }

  // The same, down to the line.
  predicate RelAt(u: Unit, k: nat, typ: string, l: Line) {
    && k < |u.relationships| && u.relationships[k].typ == typ
    && match ParseReference(u.relationships[k].target, u.identity.ns, Some(u.identity.typ))
       case Ok(ref) => ref.ns == l.ns && ref.typ == l.typ && ref.id == l.id
       case Err(_) => false
  }

  ghost predicate NamesBy(u: Unit, typ: string, l: Line) {
    exists k: nat :: RelAt(u, k, typ, l)
  }

  lemma NamedLineIs(u: Unit, k: nat, typ: string, l: Line)
    requires k < |u.relationships|
    ensures NamedLine(u, u.relationships[k], typ) == Some(l) <==> RelAt(u, k, typ, l)
  {
  }

  // Some relationship is hit.
  ghost predicate Hits(rels: seq<Relationship>, hit: Relationship -> bool) {
    exists rel :: rel in rels && hit(rel)
  }

  method FindHit(rels: seq<Relationship>, hit: Relationship -> bool) returns (found: bool)
    ensures found <==> Hits(rels, hit)
  {
    for k := 0 to |rels|
      invariant forall j :: 0 <= j < k ==> !hit(rels[j])
    {
      if hit(rels[k]) {
        assert rels[k] in rels;
        return true;
      }
    }
    return false;
  }

  // A relationship of the given type that names the line.
  function RefersBy(u: Unit, typ: string, l: Line): Relationship -> bool {
    rel => NamedLine(u, rel, typ) == Some(l)
  }

  ghost predicate Refers(u: Unit, typ: string, l: Line) {
    Hits(u.relationships, RefersBy(u, typ, l))
  }

  ghost predicate HitAt(rels: seq<Relationship>, hit: Relationship -> bool, k: nat) {
    k < |rels| && hit(rels[k])
  }

  lemma HitsIff(rels: seq<Relationship>, hit: Relationship -> bool)
    ensures Hits(rels, hit) <==> exists k: nat :: HitAt(rels, hit, k)
  {
    if Hits(rels, hit) {
      var rel :| rel in rels && hit(rel);
      var k: nat :| k < |rels| && rels[k] == rel;
      assert HitAt(rels, hit, k);
    }
    if exists k: nat :: HitAt(rels, hit, k) {
      var k: nat :| HitAt(rels, hit, k);
      assert rels[k] in rels;
    }
  }

  lemma RefersByIs(u: Unit, typ: string, l: Line, k: nat)
    ensures HitAt(u.relationships, RefersBy(u, typ, l), k) <==> RelAt(u, k, typ, l)
  {
    if k < |u.relationships| { NamedLineIs(u, k, typ, l); }
  }

  lemma RefersIff(u: Unit, typ: string, l: Line)
    ensures Refers(u, typ, l) <==> NamesBy(u, typ, l)
  {
    HitsIff(u.relationships, RefersBy(u, typ, l));
    forall k: nat
      ensures HitAt(u.relationships, RefersBy(u, typ, l), k) <==> RelAt(u, k, typ, l)
    {
      RefersByIs(u, typ, l, k);
    }
  }

  // ---- current instances, read off the references ----

  // f is the highest instance of the line in the whole workspace.
  ghost predicate IsCurrent(s: Archive, l: Line, f: Identity) {
    && f in s.refs && f.ns == l.ns && f.typ == l.typ && f.id == l.id
    && forall g :: g in s.refs && g.ns == l.ns && g.typ == l.typ && g.id == l.id ==> g.version <= f.version
  }

  // f is the highest instance of the line in the project.
  ghost predicate IsCurrentIn(s: Archive, project: string, l: Line, f: Identity) {
    && f in s.refs && s.refs[f].project == project && f.ns == l.ns && f.typ == l.typ && f.id == l.id
    && forall g :: g in s.refs && s.refs[g].project == project && g.ns == l.ns && g.typ == l.typ && g.id == l.id ==>
         g.version <= f.version
  }

  lemma TopIsCurrent(s: Archive, l: Line, f: Identity)
    ensures Top(s.refs.Keys, l) == Some(f) <==> IsCurrent(s, l, f)
    ensures IsTop(s.refs.Keys, l, f) <==> IsCurrent(s, l, f)
  {
    assert forall g :: LineOf(g) == l <==> g.ns == l.ns && g.typ == l.typ && g.id == l.id;
    TopNone(s.refs.Keys, l);
    if IsCurrent(s, l, f) {
      assert IsTop(s.refs.Keys, l, f);
    }
    if Top(s.refs.Keys, l) == Some(f) {
      assert IsTop(s.refs.Keys, l, f);
    }
  }

  lemma TopInIsCurrent(s: Archive, project: string, l: Line, f: Identity)
    ensures IsTop(ProjectForms(s, project), l, f) <==> IsCurrentIn(s, project, l, f)
  {
    assert forall g :: g in ProjectForms(s, project) && LineOf(g) == l <==>
                       g in s.refs && s.refs[g].project == project && g.ns == l.ns && g.typ == l.typ && g.id == l.id;
  }
}
