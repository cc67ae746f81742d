/** When a line that is not in the store blocks an activation (runtime/transition.go). */
module AbsentLines {
  import opened Taxonomy
  import opened References
  import opened Units
  import opened PayloadStore
  import opened Lineage
  import opened Queries
  import opened Graphs
  import opened PlanClosure
  import opened Gates
  import opened Lifecycle

  // The current instance of m depends on or derives from l.
  ghost predicate CurrentNames(s: Archive, m: Line, l: Line) {
    var top := Top(s.refs.Keys, m);
    top.Some? && top.value in s.refs && l in Followed(UnitAt(s, top.value))
  }

  ghost predicate NamedVia(s: Archive, start: Line, m: Line, l: Line) {
    m in Lines(s) && Reaches(LineGraph(s), start, m) && CurrentNames(s, m, l)
  }

  // l is the plan of u, or a line of the store in the closure of u names it.
  ghost predicate LeadsTo(s: Archive, u: Unit, l: Line) {
    PlanOf(u).ThePlan? && (PlanOf(u).line == l || exists m :: NamedVia(s, PlanOf(u).line, m, l))
  }

  lemma EdgeIsNaming(s: Archive, m: Line, l: Line)
    requires Coherent(s)
    ensures Edge(LineGraph(s), m, l) <==> m in Lines(s) && CurrentNames(s, m, l)
  {
    EdgesOf(s, m);
  }

  lemma LastStep(s: Archive, start: Line, l: Line)
    requires Coherent(s) && Reaches(LineGraph(s), start, l) && start != l
    ensures exists m :: NamedVia(s, start, m, l)
  {
    var g := LineGraph(s);
    var p :| WalkBetween(g, p, start, l);
    var m := p[|p| - 2];
    assert Edge(g, p[|p| - 2], p[|p| - 1]);
    assert WalkBetween(g, p[..|p| - 1], start, m);
    EdgeIsNaming(s, m, l);
    assert NamedVia(s, start, m, l);
  }

  // A line is in the closure exactly when the plan is that line or a line of the store in the closure names it;
  // nothing is asked of the line itself, which may be absent.
  lemma InClosureIff(s: Archive, u: Unit, l: Line)
    requires Coherent(s)
    ensures InClosure(s, u, l) <==> LeadsTo(s, u, l)
  {
    if InClosure(s, u, l) && PlanOf(u).line != l {
      LastStep(s, PlanOf(u).line, l);
    } else if LeadsTo(s, u, l) {
      var start := PlanOf(u).line;
      if start == l {
        ReachesSelf(LineGraph(s), l);
      } else {
        var m :| NamedVia(s, start, m, l);
        EdgeIsNaming(s, m, l);
        ReachesEdge(LineGraph(s), m, l);
        ReachesTransitive(LineGraph(s), start, m, l);
      }
    }
  }

  ghost predicate PresentShared(s: Archive, u: Unit, v: Unit) {
    exists l :: l in Lines(s) && InClosure(s, u, l) && InClosure(s, v, l)
  }

  ghost predicate AbsentShared(s: Archive, u: Unit, v: Unit) {
    exists l :: l !in Lines(s) && LeadsTo(s, u, l) && LeadsTo(s, v, l)
  }

  lemma SharedIff(s: Archive, u: Unit, v: Unit)
    requires Coherent(s) && PlanOf(u).ThePlan? && PlanOf(v).ThePlan?
    ensures !DisjointClosures(s, u, v) <==> PresentShared(s, u, v) || AbsentShared(s, u, v)
  {
    forall l
      ensures InClosure(s, u, l) <==> LeadsTo(s, u, l)
      ensures InClosure(s, v, l) <==> LeadsTo(s, v, l)
    {
      InClosureIff(s, u, l);
      InClosureIff(s, v, l);
    }
    if !DisjointClosures(s, u, v) {
      var l :| InClosure(s, u, l) && InClosure(s, v, l);
      assert l in Lines(s) ==> PresentShared(s, u, v);
      assert l !in Lines(s) ==> AbsentShared(s, u, v);
    }
  }

  // Among the active containers of other repositories every one has its plan and shares no line of the store with u.
  ghost predicate ApartInStore(s: Archive, ctx: Context, u: Unit) {
    forall f :: OtherActive(s, ctx, u, f, false) ==>
      f in s.refs && PlanOf(UnitAt(s, f)).ThePlan? && !PresentShared(s, u, UnitAt(s, f))
  }

  ghost predicate BlockedBy(s: Archive, ctx: Context, u: Unit, f: Identity) {
    OtherActive(s, ctx, u, f, false) && AbsentShared(s, u, UnitAt(s, f))
  }

  lemma NotDisjointFrom(s: Archive, ctx: Context, u: Unit, f: Identity)
    requires Coherent(s) && PlanOf(u).ThePlan? && ApartInStore(s, ctx, u) && OtherActive(s, ctx, u, f, false)
    ensures !DisjointClosures(s, u, UnitAt(s, f)) <==> BlockedBy(s, ctx, u, f)
  {
    SharedIff(s, u, UnitAt(s, f));
  }

  lemma ClosureSharedIff(s: Archive, ctx: Context, u: Unit)
    requires Coherent(s) && PlanOf(u).ThePlan? && ApartInStore(s, ctx, u)
    ensures IsClosureShared(s, ctx, u) <==> exists f :: BlockedBy(s, ctx, u, f)
  {
    if IsClosureShared(s, ctx, u) {
      var f :| OtherActive(s, ctx, u, f, false) && !DisjointClosures(s, u, UnitAt(s, f));
      NotDisjointFrom(s, ctx, u, f);
      assert BlockedBy(s, ctx, u, f);
    }
    if exists f :: BlockedBy(s, ctx, u, f) {
      var f :| BlockedBy(s, ctx, u, f);
      NotDisjointFrom(s, ctx, u, f);
    }
  }

  lemma LockNeverShared(s: Archive, ctx: Context, req: Request, u: Unit, plan: Line)
    ensures LockPlan(s, ctx, req, u, plan) != Err(SharedClosure)
  {
  }

  lemma RefusedAsShared(s: Archive, ctx: Context, req: Request, u: Unit)
    ensures DecideActivation(s, ctx, req, u) == Err(SharedClosure) <==>
            !IsRepoBusy(s, ctx, u) && IsClosureShared(s, ctx, u)
  {
    if PlanOf(u).ThePlan? { LockNeverShared(s, ctx, req, u, PlanOf(u).line); }
  }

  // A line outside the store is what blocks an activation exactly when the closure of an active container of another
  // repository leads to it as well.
  lemma AbsentLineBlocksIff(s: Archive, ctx: Context, req: Request, u: Unit)
    requires Coherent(s) && PlanOf(u).ThePlan? && !IsRepoBusy(s, ctx, u) && ApartInStore(s, ctx, u)
    ensures DecideActivation(s, ctx, req, u) == Err(SharedClosure) <==> exists f :: BlockedBy(s, ctx, u, f)
  {
    ClosureSharedIff(s, ctx, u);
    RefusedAsShared(s, ctx, req, u);
  }

  // ---- a store in which it does ----

  const FIRST := Identity("n", Ctr, "a", 1)
  const SECOND := Identity("n", Ctr, "b", 1)
  const FIRST_PLAN := Identity("n", Plan, "p", 1)
  const SECOND_PLAN := Identity("n", Plan, "q", 1)
  // No payload of this story, or of this decision, is in the store.
  const STORY := Identity("n", Sto, "x", 1)
  const DECISION := Identity("n", Dec, "x", 1)

  // A line that is none of the four.
  predicate Elsewhere(on: Identity) {
    CharsetValid(on.ns) && CharsetValid(on.id) && on.typ != Ctr && on.typ != Plan
  }

  predicate IsEdge(edge: string) {
    edge == "depends-on" || edge == "derives-from"
  }

  const NO_STATES := StateVector(Absent, Absent, Absent, Absent, Absent, Absent)

  function Depending(i: Identity, states: StateVector, edge: string, on: Identity): Unit {
    Unit(i, 1, "", states, [], [Relationship(edge, QualifiedText(on))], Absent, "", "")
  }

  const FIRST_UNIT := Depending(FIRST, NO_STATES.(container := Planned), "depends-on", FIRST_PLAN)
  const SECOND_UNIT := Depending(SECOND, NO_STATES.(container := Active), "depends-on", SECOND_PLAN)

  function FirstPlan(edge: string, on: Identity): Unit {
    Depending(FIRST_PLAN, NO_STATES.(planning := Approved), edge, on)
  }

  function SecondPlan(edge: string, on: Identity): Unit {
    Depending(SECOND_PLAN, NO_STATES.(planning := Immutable), edge, on)
  }

  function Entered(s: Archive, u: Unit, repo: string): Archive {
    Archive(s.rows[HashUnit(u) := Row(u, None)],
            s.refs[u.identity := Ref(HashUnit(u), u.identity.version, "w", repo, 0, Unnumbered)])
  }

  // Two containers of two repositories; both their plans point at the same line.
  function TwoContainers(edge: string, on: Identity): Archive {
    var plans := Entered(Entered(EMPTY, FirstPlan(edge, on), "r"), SecondPlan(edge, on), "r'");
    Entered(Entered(plans, FIRST_UNIT, "r"), SECOND_UNIT, "r'")
  }

  function EntryPut(u: Unit, repo: string): Put {
    Put(u, PutRef(u.identity, u.identity.typ, u.identity.version, "w", repo))
  }

  // s is what the puts lead to; its forms are the given ones.
  ghost predicate Holds(s: Archive, puts: seq<Put>, forms: set<Identity>) {
    s == PutAll(EMPTY, puts) && s.refs.Keys == forms && forall h :: h in s.rows ==> h.unit.identity in forms
  }

  lemma EntersByPut(s: Archive, puts: seq<Put>, forms: set<Identity>, u: Unit, repo: string)
    requires Holds(s, puts, forms) && u.identity !in forms && GroupOf(u.identity.typ) == Unnumbered
    ensures Holds(Entered(s, u, repo), puts + [EntryPut(u, repo)], forms + {u.identity})
  {
    assert (puts + [EntryPut(u, repo)])[..|puts|] == puts;
  }

  function Publications(edge: string, on: Identity): seq<Put> {
    [EntryPut(FirstPlan(edge, on), "r"), EntryPut(SecondPlan(edge, on), "r'"),
     EntryPut(FIRST_UNIT, "r"), EntryPut(SECOND_UNIT, "r'")]
  }

  lemma OneByOne(a: Put, b: Put, c: Put, d: Put)
    ensures [] + [a] + [b] + [c] + [d] == [a, b, c, d]
  {
  }

  // The store is what the first publications of the four units lead to.
  lemma StoreIsPublished(edge: string, on: Identity)
    ensures TwoContainers(edge, on) == PutAll(EMPTY, Publications(edge, on))
  {
    EntersByPut(EMPTY, [], {}, FirstPlan(edge, on), "r");
    var a := Entered(EMPTY, FirstPlan(edge, on), "r");
    var puts := [] + [EntryPut(FirstPlan(edge, on), "r")];
    EntersByPut(a, puts, {} + {FIRST_PLAN}, SecondPlan(edge, on), "r'");
    PublishContainers(Entered(a, SecondPlan(edge, on), "r'"), puts + [EntryPut(SecondPlan(edge, on), "r'")]);
    OneByOne(EntryPut(FirstPlan(edge, on), "r"), EntryPut(SecondPlan(edge, on), "r'"), EntryPut(FIRST_UNIT, "r"),
             EntryPut(SECOND_UNIT, "r'"));
  }

  lemma PublishContainers(s: Archive, puts: seq<Put>)
    requires Holds(s, puts, {} + {FIRST_PLAN} + {SECOND_PLAN})
    ensures Entered(Entered(s, FIRST_UNIT, "r"), SECOND_UNIT, "r'") ==
            PutAll(EMPTY, puts + [EntryPut(FIRST_UNIT, "r")] + [EntryPut(SECOND_UNIT, "r'")])
  {
    var forms := {} + {FIRST_PLAN} + {SECOND_PLAN};
    EntersByPut(s, puts, forms, FIRST_UNIT, "r");
    EntersByPut(Entered(s, FIRST_UNIT, "r"), puts + [EntryPut(FIRST_UNIT, "r")], forms + {FIRST}, SECOND_UNIT, "r'");
  }

  lemma TextNames(u: Unit, rel: Relationship, on: Identity)
    requires rel.target == QualifiedText(on) && CharsetValid(on.ns) && CharsetValid(on.id)
    ensures NamedLine(u, rel, rel.typ) == Some(LineOf(on))
  {
    QualifiedReferenceParses(on, u.identity.ns, Some(u.identity.typ));
  }

  lemma FollowsOne(u: Unit, rel: Relationship, l: Line)
    requires u.relationships == [rel] && IsEdge(rel.typ) && NamedLine(u, rel, rel.typ) == Some(l)
    ensures Followed(u) == {l}
  {
    assert rel in u.relationships && Follow(u, rel) == Some(l);
  }

  lemma PlansOne(u: Unit, rel: Relationship, l: Line)
    requires u.relationships == [rel] && NamedLine(u, rel, "depends-on") == Some(l) && l.typ == Plan
    ensures PlanOf(u) == ThePlan(l)
  {
    PlansStep(u, 0);
    assert PlansWithin(u, 1) == {l};
    OnlyOne(PlansWithin(u, 1), l);
  }

  lemma DependsOnOne(u: Unit, on: Identity)
    requires |u.relationships| == 1 && CharsetValid(on.ns) && CharsetValid(on.id)
    requires IsEdge(u.relationships[0].typ) && u.relationships[0].target == QualifiedText(on)
    ensures Followed(u) == {LineOf(on)}
    ensures on.typ == Plan && u.relationships[0].typ == "depends-on" ==> PlanOf(u) == ThePlan(LineOf(on))
  {
    var rel := u.relationships[0];
    TextNames(u, rel, on);
    FollowsOne(u, rel, LineOf(on));
    if on.typ == Plan && rel.typ == "depends-on" { PlansOne(u, rel, LineOf(on)); }
  }

  lemma StoreHolds(s: Archive, edge: string, on: Identity)
    requires s == TwoContainers(edge, on)
    ensures s.refs.Keys == {FIRST, SECOND, FIRST_PLAN, SECOND_PLAN} && Coherent(s)
    ensures UnitAt(s, FIRST) == FIRST_UNIT && UnitAt(s, SECOND) == SECOND_UNIT
    ensures UnitAt(s, FIRST_PLAN) == FirstPlan(edge, on) && UnitAt(s, SECOND_PLAN) == SecondPlan(edge, on)
    ensures s.refs[FIRST].project == s.refs[SECOND].project == "w"
    ensures s.refs[FIRST].sourceRepo == "r" && s.refs[SECOND].sourceRepo == "r'"
  {
  }

  lemma StoreLines(s: Archive, on: Identity)
    requires Elsewhere(on) && s.refs.Keys == {FIRST, SECOND, FIRST_PLAN, SECOND_PLAN}
    ensures Lines(s) == {LineOf(FIRST), LineOf(SECOND), LineOf(FIRST_PLAN), LineOf(SECOND_PLAN)}
    ensures LineOf(on) !in Lines(s)
    ensures Top(s.refs.Keys, LineOf(FIRST_PLAN)) == Some(FIRST_PLAN)
    ensures Top(s.refs.Keys, LineOf(SECOND_PLAN)) == Some(SECOND_PLAN)
  {
    assert IsTop(s.refs.Keys, LineOf(FIRST_PLAN), FIRST_PLAN) && IsTop(s.refs.Keys, LineOf(SECOND_PLAN), SECOND_PLAN);
  }

  // The plan's current instance names one line.
  ghost predicate NamesOnly(s: Archive, plan: Identity, l: Line) {
    && plan in s.refs && Top(s.refs.Keys, LineOf(plan)) == Some(plan) && Followed(UnitAt(s, plan)) == {l}
  }

  lemma NamingLeads(s: Archive, u: Unit, plan: Identity, l: Line)
    requires Coherent(s) && NamesOnly(s, plan, l) && PlanOf(u) == ThePlan(LineOf(plan))
    ensures LeadsTo(s, u, l)
  {
    ReachesSelf(LineGraph(s), LineOf(plan));
    assert CurrentNames(s, LineOf(plan), l);
    assert NamedVia(s, LineOf(plan), LineOf(plan), l);
  }

  // The closure of a container whose plan names an absent line alone.
  lemma PlanAndAbsent(s: Archive, u: Unit, plan: Identity, absent: Line, l: Line)
    requires Coherent(s) && NamesOnly(s, plan, absent) && PlanOf(u) == ThePlan(LineOf(plan)) && absent !in Lines(s)
    requires InClosure(s, u, l)
    ensures l == LineOf(plan) || l == absent
  {
    var g, inside := LineGraph(s), {LineOf(plan), absent};
    forall x, y | x in inside && Edge(g, x, y)
      ensures y in inside
    {
      EdgeIsNaming(s, x, y);
    }
    ReachableStaysInside(g, inside, LineOf(plan), l);
  }

  lemma OnlyAbsentShared(s: Archive, u: Unit, v: Unit, p: Identity, q: Identity, absent: Line)
    requires Coherent(s) && absent !in Lines(s) && NamesOnly(s, p, absent) && NamesOnly(s, q, absent)
    requires PlanOf(u) == ThePlan(LineOf(p)) && PlanOf(v) == ThePlan(LineOf(q)) && LineOf(p) != LineOf(q)
    ensures AbsentShared(s, u, v) && !PresentShared(s, u, v)
  {
    NamingLeads(s, u, p, absent);
    NamingLeads(s, v, q, absent);
    forall l | InClosure(s, u, l) && InClosure(s, v, l)
      ensures l !in Lines(s)
    {
      PlanAndAbsent(s, u, p, absent, l);
      PlanAndAbsent(s, v, q, absent, l);
    }
  }

  // Of the four forms one is the current instance of an active container on another line.
  ghost predicate OneActive(s: Archive, ctx: Context) {
    && s.refs.Keys == {FIRST, SECOND, FIRST_PLAN, SECOND_PLAN}
    && s.refs[SECOND].project == ctx.project && s.refs[SECOND].sourceRepo != ctx.sourceRepo
    && UnitAt(s, SECOND).states.container == Active
  }

  lemma SecondIsTop(s: Archive, ctx: Context)
    requires OneActive(s, ctx)
    ensures IsTop(ProjectForms(s, ctx.project), LineOf(SECOND), SECOND)
  {
  }

  lemma OthersAreNot(s: Archive, ctx: Context, u: Unit, f: Identity, same: bool)
    requires OneActive(s, ctx) && u.identity == FIRST && OtherActive(s, ctx, u, f, same)
    ensures f == SECOND && !same
  {
    assert f.typ == Ctr && f in {FIRST, SECOND, FIRST_PLAN, SECOND_PLAN} && f != FIRST;
  }

  lemma SecondIsActive(s: Archive, ctx: Context, u: Unit)
    requires OneActive(s, ctx) && u.identity == FIRST
    ensures OtherActive(s, ctx, u, SECOND, false)
    ensures forall f, same :: OtherActive(s, ctx, u, f, same) ==> f == SECOND && !same
  {
    SecondIsTop(s, ctx);
    forall f, same | OtherActive(s, ctx, u, f, same)
      ensures f == SECOND && !same
    {
      OthersAreNot(s, ctx, u, f, same);
    }
  }

  lemma RefusedFor(s: Archive, ctx: Context, req: Request, u: Unit, f: Identity)
    requires Coherent(s) && OtherActive(s, ctx, u, f, false)
    requires forall g, same :: OtherActive(s, ctx, u, g, same) ==> g == f && !same
    requires PlanOf(u).ThePlan? && PlanOf(UnitAt(s, f)).ThePlan?
    requires AbsentShared(s, u, UnitAt(s, f)) && !PresentShared(s, u, UnitAt(s, f))
    ensures DecideActivation(s, ctx, req, u) == Err(SharedClosure)
  {
    assert BlockedBy(s, ctx, u, f);
    AbsentLineBlocksIff(s, ctx, req, u);
  }

  lemma PlainNames()
    ensures CharsetValid("n") && CharsetValid("p") && CharsetValid("q") && CharsetValid("x")
  {
  }

  lemma DependingOn(i: Identity, states: StateVector, edge: string, on: Identity)
    requires CharsetValid(on.ns) && CharsetValid(on.id) && IsEdge(edge)
    ensures Followed(Depending(i, states, edge, on)) == {LineOf(on)}
    ensures on.typ == Plan && edge == "depends-on" ==> PlanOf(Depending(i, states, edge, on)) == ThePlan(LineOf(on))
  {
    DependsOnOne(Depending(i, states, edge, on), on);
  }

  lemma StoreDepends(s: Archive, edge: string, on: Identity)
    requires IsEdge(edge) && Elsewhere(on) && s == TwoContainers(edge, on)
    ensures NamesOnly(s, FIRST_PLAN, LineOf(on)) && NamesOnly(s, SECOND_PLAN, LineOf(on))
    ensures PlanOf(FIRST_UNIT) == ThePlan(LineOf(FIRST_PLAN)) && PlanOf(SECOND_UNIT) == ThePlan(LineOf(SECOND_PLAN))
  {
    PlainNames();
    DependingOn(FIRST, NO_STATES.(container := Planned), "depends-on", FIRST_PLAN);
    DependingOn(SECOND, NO_STATES.(container := Active), "depends-on", SECOND_PLAN);
    DependingOn(FIRST_PLAN, NO_STATES.(planning := Approved), edge, on);
    DependingOn(SECOND_PLAN, NO_STATES.(planning := Immutable), edge, on);
    StoreHolds(s, edge, on);
    StoreLines(s, on);
  }

  lemma AbsentTargetBlocks(ctx: Context, req: Request, edge: string, on: Identity)
    requires ctx.project == "w" && ctx.sourceRepo == "r" && IsEdge(edge) && Elsewhere(on)
    ensures var s := TwoContainers(edge, on);
            && Coherent(s) && LineOf(on) !in Lines(s)
            && !PresentShared(s, FIRST_UNIT, SECOND_UNIT)
            && DecideActivation(s, ctx, req, FIRST_UNIT) == Err(SharedClosure)
  {
    var s := TwoContainers(edge, on);
    StoreHolds(s, edge, on);
    StoreLines(s, on);
    SecondIsActive(s, ctx, FIRST_UNIT);
    StoreDepends(s, edge, on);
    OnlyAbsentShared(s, FIRST_UNIT, SECOND_UNIT, FIRST_PLAN, SECOND_PLAN, LineOf(on));
    RefusedFor(s, ctx, req, FIRST_UNIT, SECOND);
  }

  // No line of the store is shared, and yet the activation of the one container is refused for the closure of the
  // other.
  lemma AbsentStoryBlocks(ctx: Context, req: Request)
    requires ctx.project == "w" && ctx.sourceRepo == "r"
    ensures var s := TwoContainers("depends-on", STORY);
            && Coherent(s) && LineOf(STORY) !in Lines(s)
            && !PresentShared(s, FIRST_UNIT, SECOND_UNIT)
            && DecideActivation(s, ctx, req, FIRST_UNIT) == Err(SharedClosure)
  {
    PlainNames();
    AbsentTargetBlocks(ctx, req, "depends-on", STORY);
  }

  // The same of a decision that both plans derive from.
  lemma SharedDecisionBlocks(ctx: Context, req: Request)
    requires ctx.project == "w" && ctx.sourceRepo == "r"
    ensures DecideActivation(TwoContainers("derives-from", DECISION), ctx, req, FIRST_UNIT) == Err(SharedClosure)
  {
    PlainNames();
    AbsentTargetBlocks(ctx, req, "derives-from", DECISION);
  }
}
