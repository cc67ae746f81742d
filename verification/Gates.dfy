/** The gates a transition is checked against, read off the store (runtime/transition.go). */
module Gates {
  import opened Taxonomy
  import opened References
  import opened Units
  import opened PayloadStore
  import opened Queries
  import opened PlanClosure
  import opened Graphs

  // ---- active containers ----

  // f is the current instance of an active container line of the project.
  ghost predicate IsActive(s: Archive, project: string, f: Identity) {
    f.typ == Ctr && IsTop(ProjectForms(s, project), LineOf(f), f) && UnitAt(s, f).states.container == Active
  }

  // The highest instance of every container line among the given forms.
  ghost predicate ContainerTops(forms: set<Identity>, byLine: map<Line, Identity>) {
    && (forall l :: l in byLine ==> l.typ == Ctr && IsTop(forms, l, byLine[l]))
    && (forall f :: f in forms && f.typ == Ctr ==> LineOf(f) in byLine)
  }

  lemma TopsExtend(forms: set<Identity>, byLine: map<Line, Identity>, f: Identity)
    requires ContainerTops(forms, byLine) && f !in forms && f.typ == Ctr
    ensures ContainerTops(forms + {f},
              if LineOf(f) !in byLine || f.version > byLine[LineOf(f)].version then byLine[LineOf(f) := f] else byLine)
  {
  }

  lemma TopsIgnore(forms: set<Identity>, byLine: map<Line, Identity>, f: Identity)
    requires ContainerTops(forms, byLine) && f.typ != Ctr
    ensures ContainerTops(forms + {f}, byLine)
  {
  }

  method CurrentContainers(st: Store, project: string) returns (byLine: map<Line, Identity>)
    ensures ContainerTops(ProjectForms(st.State(), project), byLine)
  {
    byLine := map[];
    var todo := st.refs.Keys;
    ghost var seen: set<Identity> := {};
    while todo != {}
      invariant todo <= st.refs.Keys
      invariant seen == ProjectForms(st.State(), project) - todo
      invariant ContainerTops(seen, byLine)
    {
      var f :| f in todo;
      todo := todo - {f};
      if st.refs[f].project == project {
        if f.typ == Ctr {
          TopsExtend(seen, byLine, f);
          if LineOf(f) !in byLine || f.version > byLine[LineOf(f)].version {
            byLine := byLine[LineOf(f) := f];
          }
        } else {
          TopsIgnore(seen, byLine, f);
        }
        seen := seen + {f};
      }
    }
    assert seen == ProjectForms(st.State(), project);
  }

  ghost predicate ActiveTop(s: Archive, byLine: map<Line, Identity>, f: Identity) {
    LineOf(f) in byLine && byLine[LineOf(f)] == f && f in s.refs && UnitAt(s, f).states.container == Active
  }

  lemma ActiveTops(s: Archive, project: string, byLine: map<Line, Identity>, f: Identity)
    requires ContainerTops(ProjectForms(s, project), byLine)
    ensures IsActive(s, project, f) <==> ActiveTop(s, byLine, f)
  {
  }

  method ActiveContainers(st: Store, project: string) returns (active: set<Identity>)
    ensures forall f :: f in active <==> IsActive(st.State(), project, f)
  {
    var byLine := CurrentContainers(st, project);
    active := {};
    var todo := byLine.Keys;
    while todo != {}
      invariant todo <= byLine.Keys
      invariant forall f :: f in active <==> LineOf(f) !in todo && ActiveTop(st.State(), byLine, f)
    {
      var l :| l in todo;
      if st.refs[byLine[l]].hash.unit.states.container == Active {
        active := active + {byLine[l]};
      }
      todo := todo - {l};
    }
    forall f { ActiveTops(st.State(), project, byLine, f); }
  }

  // Every active container line of the project except the target's own.
  method OtherActiveContainers(st: Store, project: string, me: Line) returns (out: set<Identity>)
    ensures forall f :: f in out <==> IsActive(st.State(), project, f) && LineOf(f) != me
  {
    var active := ActiveContainers(st, project);
    out := set f | f in active && LineOf(f) != me;
  }

  ghost predicate DependsOn(s: Archive, plan: Line, f: Identity) {
    f in s.refs && PlanOf(UnitAt(s, f)) == ThePlan(plan)
  }

  // The active containers whose single plan is the given line.
  ghost predicate ActiveOnPlan(s: Archive, project: string, plan: Line, f: Identity) {
    IsActive(s, project, f) && DependsOn(s, plan, f)
  }

  method ActiveContainersForPlan(st: Store, project: string, plan: Line) returns (out: set<Identity>)
    ensures forall f :: f in out <==> ActiveOnPlan(st.State(), project, plan, f)
  {
    var active := ActiveContainers(st, project);
    assert forall f :: f in active ==> f in st.refs;
    out := {};
    var todo := active;
    while todo != {}
      invariant todo <= active
      invariant forall f :: f in out <==> f in active && f !in todo && DependsOn(st.State(), plan, f)
    {
      var f :| f in todo;
      var p := ResolveDependsOnPlan(st.refs[f].hash.unit);
      if p == ThePlan(plan) {
        out := out + {f};
      }
      todo := todo - {f};
    }
  }

  // ---- disjoint closures ----

  // No line is reachable from the plans of both containers.
  ghost predicate DisjointClosures(s: Archive, u: Unit, v: Unit) {
    PlanOf(u).ThePlan? && PlanOf(v).ThePlan? && forall l :: !(InClosure(s, u, l) && InClosure(s, v, l))
  }

  method ClosuresDisjoint(st: Store, u: Unit, v: Unit) returns (disjoint: bool)
    requires Coherent(st.State())
    ensures disjoint <==> DisjointClosures(st.State(), u, v)
  {
    var p := ResolveDependsOnPlan(u);
    var q := ResolveDependsOnPlan(v);
    if !p.ThePlan? || !q.ThePlan? {
      return false;
    }
    var mine := Closure(st, p.line);
    var theirs := Closure(st, q.line);
    disjoint := mine * theirs == {};
    DisjointSets(st.State(), u, v, mine, theirs);
  }

  lemma DisjointSets(s: Archive, u: Unit, v: Unit, mine: set<Line>, theirs: set<Line>)
    requires PlanOf(u).ThePlan? && PlanOf(v).ThePlan?
    requires forall l :: l in mine <==> Reaches(LineGraph(s), PlanOf(u).line, l)
    requires forall l :: l in theirs <==> Reaches(LineGraph(s), PlanOf(v).line, l)
    ensures mine * theirs == {} <==> DisjointClosures(s, u, v)
  {
    forall l
      ensures l in mine * theirs <==> InClosure(s, u, l) && InClosure(s, v, l)
    {
    }
  }

  // ---- replacements ----

  // A supersedes relationship naming exactly this instance, or its line.
  function SupersedesBy(u: Unit, i: Identity): Relationship -> bool {
    rel =>
      && NamedLine(u, rel, "supersedes") == Some(LineOf(i))
      && (Target(u, rel).Some? && Target(u, rel).value.version.Some? ==> Target(u, rel).value.version.value == i.version)
  }

  ghost predicate Supersedes(u: Unit, i: Identity) {
    Hits(u.relationships, SupersedesBy(u, i))
  }

  ghost predicate HasSuperseder(s: Archive, project: string, i: Identity) {
    exists f :: f in ProjectForms(s, project) && f != i && Supersedes(UnitAt(s, f), i)
  }

  method FindSuperseder(st: Store, project: string, i: Identity) returns (found: bool)
    ensures found <==> HasSuperseder(st.State(), project, i)
  {
    var todo := st.refs.Keys;
    while todo != {}
      invariant todo <= st.refs.Keys
      invariant forall f :: f in ProjectForms(st.State(), project) && f !in todo && f != i ==> !Supersedes(UnitAt(st.State(), f), i)
    {
      var f :| f in todo;
      todo := todo - {f};
      if st.refs[f].project == project && f != i {
        var u := st.refs[f].hash.unit;
        var hit := FindHit(u.relationships, SupersedesBy(u, i));
        if hit {
          assert f in ProjectForms(st.State(), project);
          return true;
        }
      }
    }
    return false;
  }

  // ---- tickets ----

  predicate IsMember(u: Unit, rel: Relationship, known: set<Line>, container: bool) {
    match NamedLine(u, rel, "derives-from")
    case Some(l) => l in known && if container then l.typ == Ctr else IsWorkItem(l.typ)
    case None => false
  }

  // The first container, or the first work item, a ticket derives from among the known lines.
  function FirstMember(u: Unit, rels: seq<Relationship>, known: set<Line>, container: bool): Option<Line> {
    if rels == [] then None
    else if IsMember(u, rels[0], known, container) then NamedLine(u, rels[0], "derives-from")
    else FirstMember(u, rels[1..], known, container)
  }

  ghost function KnownLines(s: Archive, project: string): set<Line> {
    set f | f in ProjectForms(s, project) :: LineOf(f)
  }

  // The ticket f registers the work item with the container.
  ghost predicate Registers(s: Archive, project: string, f: Identity, container: Line, item: Line) {
    && f in ProjectForms(s, project) && f.typ == Tkt
    && FirstMember(UnitAt(s, f), UnitAt(s, f).relationships, KnownLines(s, project), true) == Some(container)
    && FirstMember(UnitAt(s, f), UnitAt(s, f).relationships, KnownLines(s, project), false) == Some(item)
  }

  // The current execution state of a line in the project is done or canceled.
  ghost predicate Settled(s: Archive, project: string, item: Line) {
    forall f :: IsTop(ProjectForms(s, project), item, f) ==>
      UnitAt(s, f).states.execution == Done || UnitAt(s, f).states.execution == Canceled
  }

  // Every work item registered with the container is settled.
  ghost predicate AllSettled(s: Archive, project: string, container: Line) {
    forall f, item :: Registers(s, project, f, container, item) ==> Settled(s, project, item)
  }

  // A ticket registers the work item with a container of which some instance is active.
  ghost predicate RegisteredActive(s: Archive, project: string, item: Line) {
    exists f, container :: Registers(s, project, f, container, item) && SomeActive(s, project, container)
  }

  ghost predicate SomeActive(s: Archive, project: string, container: Line) {
    exists f :: f in ProjectForms(s, project) && f.typ == Ctr && LineOf(f) == container && UnitAt(s, f).states.container == Active
  }

  method CollectLines(st: Store, project: string) returns (known: set<Line>)
    ensures known == KnownLines(st.State(), project)
  {
    known := {};
    var todo := st.refs.Keys;
    while todo != {}
      invariant todo <= st.refs.Keys
      invariant known == set f | f in ProjectForms(st.State(), project) - todo :: LineOf(f)
    {
      var f :| f in todo;
      if st.refs[f].project == project {
        known := known + {LineOf(f)};
      }
      todo := todo - {f};
    }
    assert ProjectForms(st.State(), project) - todo == ProjectForms(st.State(), project);
  }

  method IsSettled(st: Store, project: string, item: Line) returns (settled: bool)
    ensures settled <==> Settled(st.State(), project, item)
  {
    ghost var forms := ProjectForms(st.State(), project);
    var top: Option<Identity> := None;
    var todo := st.refs.Keys;
    while todo != {}
      invariant todo <= st.refs.Keys
      invariant top.None? ==> forall g :: g in forms && g !in todo ==> LineOf(g) != item
      invariant top.Some? ==> IsTop(forms - todo, item, top.value)
    {
      var f :| f in todo;
      if st.refs[f].project == project && LineOf(f) == item && (top.None? || f.version > top.value.version) {
        top := Some(f);
      }
      todo := todo - {f};
    }
    assert forms - todo == forms;
    if top.None? {
      return true;
    }
    var state := st.refs[top.value].hash.unit.states.execution;
    settled := state == Done || state == Canceled;
  }

  method PendingItems(st: Store, project: string, container: Line) returns (pending: bool)
    ensures pending <==> !AllSettled(st.State(), project, container)
  {
    ghost var s := st.State();
    var known := CollectLines(st, project);
    var todo := st.refs.Keys;
    while todo != {}
      invariant todo <= st.refs.Keys
      invariant forall f, item :: f !in todo && Registers(s, project, f, container, item) ==> Settled(s, project, item)
    {
      var f :| f in todo;
      todo := todo - {f};
      if st.refs[f].project == project && f.typ == Tkt {
        var u := st.refs[f].hash.unit;
        var item := FirstMember(u, u.relationships, known, false);
        if FirstMember(u, u.relationships, known, true) == Some(container) && item.Some? {
          assert Registers(s, project, f, container, item.value);
          var settled := IsSettled(st, project, item.value);
          if !settled {
            return true;
          }
        }
      }
    }
    return false;
  }

  method HasActiveInstance(st: Store, project: string, container: Line) returns (active: bool)
    ensures active <==> SomeActive(st.State(), project, container)
  {
    var todo := st.refs.Keys;
    while todo != {}
      invariant todo <= st.refs.Keys
      invariant forall f :: f in ProjectForms(st.State(), project) && f !in todo && f.typ == Ctr && LineOf(f) == container ==>
        UnitAt(st.State(), f).states.container != Active
    {
      var f :| f in todo;
      todo := todo - {f};
      if st.refs[f].project == project && f.typ == Ctr && LineOf(f) == container && st.refs[f].hash.unit.states.container == Active {
        assert f in ProjectForms(st.State(), project);
        return true;
      }
    }
    return false;
  }

  method IsRegistered(st: Store, project: string, item: Line) returns (registered: bool)
    ensures registered <==> RegisteredActive(st.State(), project, item)
  {
    ghost var s := st.State();
    var known := CollectLines(st, project);
    var todo := st.refs.Keys;
    while todo != {}
      invariant todo <= st.refs.Keys
      invariant forall f, container :: f !in todo && Registers(s, project, f, container, item) ==> !SomeActive(s, project, container)
    {
      var f :| f in todo;
      todo := todo - {f};
      if st.refs[f].project == project && f.typ == Tkt {
        var u := st.refs[f].hash.unit;
        var container := FirstMember(u, u.relationships, known, true);
        if container.Some? && FirstMember(u, u.relationships, known, false) == Some(item) {
          assert Registers(s, project, f, container.value, item);
          var active := HasActiveInstance(st, project, container.value);
          if active {
            return true;
          }
        }
      }
    }
    return false;
  }

  // ---- notes ----

  datatype GateNote = GateNote(implementation: bool, state: Value)

  // The note forms of the project that discuss the target.
  ghost function Discussing(s: Archive, project: string, target: Line): set<Identity> {
    set f | f in ProjectForms(s, project) && f.typ == Cmt && Refers(UnitAt(s, f), "discusses", target)
  }

  // The current note of each discussing line.
  ghost predicate IsNote(s: Archive, project: string, target: Line, f: Identity) {
    IsTop(Discussing(s, project, target), LineOf(f), f)
  }

  ghost predicate ResolvedNote(s: Archive, f: Identity) {
    f in s.refs && UnitAt(s, f).states.note == Resolved
  }

  // role decides whether a unit is an implementation note.
  ghost predicate ResolvedImplementation(s: Archive, role: Unit -> bool, f: Identity) {
    ResolvedNote(s, f) && role(UnitAt(s, f))
  }

  ghost predicate SomeImplementation(s: Archive, project: string, target: Line, role: Unit -> bool) {
    exists f :: IsNote(s, project, target, f) && ResolvedImplementation(s, role, f)
  }

  ghost predicate AllNotesResolved(s: Archive, project: string, target: Line) {
    forall f :: IsNote(s, project, target, f) ==> ResolvedNote(s, f)
  }

  predicate SomeDraftImplementation(drafts: seq<GateNote>) {
    exists d :: d in drafts && d.implementation && d.state == Resolved
  }

  predicate AllDraftsResolved(drafts: seq<GateNote>) {
    forall d :: d in drafts ==> d.state == Resolved
  }

  // What in-review and done ask of the notes.
  ghost predicate NotesAllow(s: Archive, project: string, target: Line, role: Unit -> bool, drafts: seq<GateNote>,
      to: Value) {
    match to
    case InReview => SomeImplementation(s, project, target, role) || SomeDraftImplementation(drafts)
    case Done => AllNotesResolved(s, project, target) && AllDraftsResolved(drafts)
    case _ => true
  }

  ghost predicate NoteTops(forms: set<Identity>, latest: map<Line, Identity>) {
    && (forall l :: l in latest ==> IsTop(forms, l, latest[l]))
    && (forall f :: f in forms ==> LineOf(f) in latest)
  }

  lemma NoteTopsExtend(forms: set<Identity>, latest: map<Line, Identity>, f: Identity)
    requires NoteTops(forms, latest) && f !in forms
    ensures NoteTops(forms + {f},
              if LineOf(f) !in latest || f.version > latest[LineOf(f)].version then latest[LineOf(f) := f] else latest)
  {
  }

  method Discusses(st: Store, project: string, target: Line, f: Identity) returns (discusses: bool)
    requires f in st.refs
    ensures discusses <==> f in Discussing(st.State(), project, target)
  {
    if st.refs[f].project != project || f.typ != Cmt {
      return false;
    }
    var u := st.refs[f].hash.unit;
    discusses := FindHit(u.relationships, RefersBy(u, "discusses", target));
  }

  method CollectNotes(st: Store, project: string, target: Line) returns (latest: map<Line, Identity>)
    ensures NoteTops(Discussing(st.State(), project, target), latest)
  {
    latest := map[];
    var todo := st.refs.Keys;
    ghost var seen: set<Identity> := {};
    while todo != {}
      invariant todo <= st.refs.Keys
      invariant seen == Discussing(st.State(), project, target) - todo
      invariant NoteTops(seen, latest)
    {
      var f :| f in todo;
      todo := todo - {f};
      var discusses := Discusses(st, project, target, f);
      if discusses {
        NoteTopsExtend(seen, latest, f);
        if LineOf(f) !in latest || f.version > latest[LineOf(f)].version {
          latest := latest[LineOf(f) := f];
        }
        seen := seen + {f};
      }
    }
    assert seen == Discussing(st.State(), project, target);
  }

  method ScanNotes(st: Store, latest: map<Line, Identity>, role: Unit -> bool) returns (someImplementation: bool,
      allResolved: bool)
    requires forall l :: l in latest ==> latest[l] in st.refs
    ensures someImplementation <==> exists l :: l in latest && ResolvedImplementation(st.State(), role, latest[l])
    ensures allResolved <==> forall l :: l in latest ==> ResolvedNote(st.State(), latest[l])
  {
    someImplementation, allResolved := false, true;
    var todo := latest.Keys;
    while todo != {}
      invariant todo <= latest.Keys
      invariant someImplementation <==> exists l :: l in latest && l !in todo && ResolvedImplementation(st.State(), role, latest[l])
      invariant allResolved <==> forall l :: l in latest && l !in todo ==> ResolvedNote(st.State(), latest[l])
    {
      var l :| l in todo;
      var u := st.refs[latest[l]].hash.unit;
      if u.states.note == Resolved {
        someImplementation := someImplementation || role(u);
      } else {
        allResolved := false;
      }
      todo := todo - {l};
    }
  }

  lemma NotesMatch(s: Archive, project: string, target: Line, latest: map<Line, Identity>, role: Unit -> bool)
    requires NoteTops(Discussing(s, project, target), latest)
    ensures (exists l :: l in latest && ResolvedImplementation(s, role, latest[l])) <==>
            SomeImplementation(s, project, target, role)
    ensures (forall l :: l in latest ==> ResolvedNote(s, latest[l])) <==>
            AllNotesResolved(s, project, target)
  {
    assert forall f :: IsNote(s, project, target, f) ==> LineOf(f) in latest && latest[LineOf(f)] == f;
    assert forall l :: l in latest ==> IsNote(s, project, target, latest[l]) && LineOf(latest[l]) == l;
  }

  // Some current note is a resolved implementation; all current notes are resolved.
  method ScanDiscussion(st: Store, project: string, target: Line, role: Unit -> bool)
    returns (someImplementation: bool, allResolved: bool)
    ensures someImplementation <==> SomeImplementation(st.State(), project, target, role)
    ensures allResolved <==> AllNotesResolved(st.State(), project, target)
  {
    var latest := CollectNotes(st, project, target);
    someImplementation, allResolved := ScanNotes(st, latest, role);
    NotesMatch(st.State(), project, target, latest, role);
  }

  method NoteGate(st: Store, project: string, target: Line, role: Unit -> bool, drafts: seq<GateNote>,
      to: Value) returns (allowed: bool)
    ensures allowed <==> NotesAllow(st.State(), project, target, role, drafts, to)
  {
    if to != InReview && to != Done {
      return true;
    }
    var someImplementation, allResolved := ScanDiscussion(st, project, target, role);
    allowed := if to == InReview then someImplementation || SomeDraftImplementation(drafts)
               else allResolved && AllDraftsResolved(drafts);
  }
}
