/** Containers and plans over every run of transitions in one project (runtime/transition.go, runtime/container.go). */
module ContainerInvariants {
  import opened Taxonomy
  import opened References
  import opened Units
  import opened PayloadStore
  import opened Graphs
  import opened Queries
  import opened PlanClosure
  import opened Gates
  import opened Lineage
  import opened Lifecycle
  import opened Ordering
  import opened Relate
  import opened LifecycleRuns

  // ---- steps that leave the dependencies alone ----

  // The same plan and the same lines to follow.
  ghost predicate SameEdges(u: Unit, v: Unit) {
    u.identity == v.identity && Followed(u) == Followed(v) && PlanOf(u) == PlanOf(v)
  }

  ghost predicate SameShape(s: Archive, t: Archive) {
    && s.refs.Keys == t.refs.Keys
    && forall f :: f in s.refs ==> SameEdges(UnitAt(s, f), UnitAt(t, f))
  }

  function PlanTargets(u: Unit): set<Line> {
    set rel | rel in u.relationships && PlanTarget(u, rel).Some? :: PlanTarget(u, rel).value
  }

  lemma PlansAreTargets(u: Unit)
    ensures PlansWithin(u, |u.relationships|) == PlanTargets(u)
  {
    forall l | l in PlanTargets(u)
      ensures l in PlansWithin(u, |u.relationships|)
    {
      var rel :| rel in u.relationships && PlanTarget(u, rel) == Some(l);
      var j :| 0 <= j < |u.relationships| && u.relationships[j] == rel;
    }
  }

  ghost predicate IsDependency(rel: Relationship) {
    rel.typ == "depends-on" || rel.typ == "derives-from"
  }

  // v has the dependencies of u, and perhaps other edges that are none.
  ghost predicate SameDependencies(u: Unit, v: Unit) {
    && u.identity == v.identity
    && forall rel :: IsDependency(rel) ==> (rel in u.relationships <==> rel in v.relationships)
  }

  lemma TargetsAlike(u: Unit, v: Unit, rel: Relationship)
    requires u.identity == v.identity
    ensures Follow(u, rel) == Follow(v, rel) && PlanTarget(u, rel) == PlanTarget(v, rel)
    ensures Follow(u, rel).Some? || PlanTarget(u, rel).Some? ==> IsDependency(rel)
  {
    assert Target(u, rel) == Target(v, rel);
  }

  lemma SameTargets(u: Unit, v: Unit)
    requires SameDependencies(u, v)
    ensures SameEdges(u, v)
  {
    forall rel
      ensures Follow(u, rel) == Follow(v, rel) && PlanTarget(u, rel) == PlanTarget(v, rel)
      ensures Follow(u, rel).Some? || PlanTarget(u, rel).Some? ==> IsDependency(rel)
    {
      TargetsAlike(u, v, rel);
    }
    PlansAreTargets(u);
    PlansAreTargets(v);
    assert Followed(u) == Followed(v) && PlanTargets(u) == PlanTargets(v);
  }

  lemma SameSuccessors(s: Archive, t: Archive, l: Line)
    requires SameShape(s, t)
    ensures Successors(s, l) == Successors(t, l)
  {
    var top := Top(s.refs.Keys, l);
    if top.Some? && top.value in s.refs { assert SameEdges(UnitAt(s, top.value), UnitAt(t, top.value)); }
  }

  lemma SameGraph(s: Archive, t: Archive)
    requires SameShape(s, t)
    ensures LineGraph(s) == LineGraph(t)
  {
    assert Lines(s) == Lines(t);
    forall l
      ensures Successors(s, l) == Successors(t, l)
    {
      SameSuccessors(s, t, l);
    }
  }

  lemma SameClosures(s: Archive, t: Archive, f: Identity, g: Identity)
    requires SameShape(s, t) && f in s.refs && g in s.refs
    ensures DisjointClosures(t, UnitAt(t, f), UnitAt(t, g)) <==> DisjointClosures(s, UnitAt(s, f), UnitAt(s, g))
  {
    SameGraph(s, t);
    assert SameEdges(UnitAt(s, f), UnitAt(t, f)) && SameEdges(UnitAt(s, g), UnitAt(t, g));
    assert forall l :: InClosure(t, UnitAt(t, f), l) <==> InClosure(s, UnitAt(s, f), l);
    assert forall l :: InClosure(t, UnitAt(t, g), l) <==> InClosure(s, UnitAt(s, g), l);
  }

  // ---- what a transition changes ----

  ghost predicate Published(ctx: Context, p: Put, t: Archive) {
    && p.ref.form in t.refs && UnitAt(t, p.ref.form) == p.unit
    && t.refs[p.ref.form].project == ctx.project && t.refs[p.ref.form].sourceRepo == ctx.sourceRepo
  }

  ghost predicate Avoids(puts: seq<Put>, f: Identity) {
    forall p :: p in puts ==> p.ref.form != f
  }

  // t is s with exactly the references of the puts moved.
  ghost predicate Changed(s: Archive, ctx: Context, puts: seq<Put>, t: Archive) {
    && s.refs.Keys == t.refs.Keys
    && (forall p :: p in puts ==> Published(ctx, p, t))
    && (forall f :: f in s.refs && Avoids(puts, f) ==> t.refs[f] == s.refs[f])
  }

  lemma OneChange(s: Archive, ctx: Context, p: Put, o: Outcome)
    requires Landed(s, p, o) && p.ref.form in s.refs
    requires p.ref.project == ctx.project && p.ref.sourceRepo == ctx.sourceRepo
    ensures Changed(s, ctx, [p], o.archive)
  {
  }

  lemma StaysPublished(ctx: Context, p: Put, q: Put, mid: Archive, t: Archive)
    requires Published(ctx, p, mid) && Changed(mid, ctx, [q], t) && p.ref.form != q.ref.form
    ensures Published(ctx, p, t)
  {
    assert Avoids([q], p.ref.form);
  }

  lemma TwoChanges(s: Archive, ctx: Context, p: Put, q: Put, mid: Archive, t: Archive)
    requires Changed(s, ctx, [p], mid) && Changed(mid, ctx, [q], t) && p.ref.form != q.ref.form
    ensures Changed(s, ctx, [p, q], t)
  {
    assert p in [p] && q in [q] && p in [p, q] && q in [p, q];
    assert Published(ctx, p, mid) && Published(ctx, q, t);
    StaysPublished(ctx, p, q, mid, t);
    forall f | f in s.refs && Avoids([p, q], f)
      ensures t.refs[f] == s.refs[f]
    {
      assert Avoids([p], f) && Avoids([q], f);
    }
  }

  lemma MoveChanges(s: Archive, ctx: Context, req: Request, p: Put)
    requires Growing(s) && IsMove(s, ctx, req, p)
    ensures Changed(s, ctx, [p], PutUnit(s, p, false).archive) && Growing(PutUnit(s, p, false).archive)
    ensures Moved(s, p, PutUnit(s, p, false).archive)
  {
    MoveLands(s, ctx, req, p);
    OneChange(s, ctx, p, PutUnit(s, p, false));
  }

  lemma TwoMovesChange(s: Archive, ctx: Context, req: Request, p: Put, q: Put)
    requires Growing(s) && IsMove(s, ctx, req, p) && IsMove(s, ctx, req, q) && p.ref.form != q.ref.form
    ensures Changed(s, ctx, [p, q], PutUnit(PutUnit(s, p, false).archive, q, false).archive)
  {
    var mid := PutUnit(s, p, false).archive;
    MoveChanges(s, ctx, req, p);
    MoveStays(s, mid, ctx, req, p, q);
    MoveChanges(mid, ctx, req, q);
    TwoChanges(s, ctx, p, q, mid, PutUnit(mid, q, false).archive);
  }

  lemma BatchChanges(s: Archive, ctx: Context, req: Request, puts: seq<Put>)
    requires Growing(s) && IsBatch(s, ctx, req, puts)
    ensures Changed(s, ctx, puts, PutAll(s, puts))
  {
    assert puts[0] in puts;
    if |puts| == 1 {
      assert puts == [puts[0]];
      PutAllOne(s, puts[0]);
      MoveChanges(s, ctx, req, puts[0]);
    } else {
      assert puts == [puts[0], puts[1]] && puts[1] in puts;
      PutAllTwo(s, puts[0], puts[1]);
      TwoMovesChange(s, ctx, req, puts[0], puts[1]);
    }
  }

  lemma MoveKeepsShape(s: Archive, ctx: Context, req: Request, p: Put)
    requires IsMove(s, ctx, req, p)
    ensures SameEdges(UnitAt(s, p.ref.form), p.unit)
  {
    SameTargets(UnitAt(s, p.ref.form), p.unit);
  }

  lemma ChangeKeepsShape(s: Archive, ctx: Context, req: Request, puts: seq<Put>, t: Archive)
    requires IsBatch(s, ctx, req, puts) && Changed(s, ctx, puts, t)
    ensures SameShape(s, t)
  {
    forall f | f in s.refs
      ensures SameEdges(UnitAt(s, f), UnitAt(t, f))
    {
      if p :| p in puts && p.ref.form == f {
        assert Published(ctx, p, t);
        MoveKeepsShape(s, ctx, req, p);
      }
    }
  }

  // ---- the moves of containers and plans ----

  ghost predicate IsDecided(s: Archive, ctx: Context, req: Request, f: Identity, puts: seq<Put>) {
    && f in s.refs && IsTop(s.refs.Keys, LineOf(f), f) && UnitAt(s, f).identity == f
    && DecideFor(s, ctx, req, UnitAt(s, f)) == Ok(puts)
  }

  // Completes the container, or activates it.
  ghost predicate Completes(s: Archive, f: Identity, p: Put)
    requires f in s.refs
  {
    UnitAt(s, f).states.container == Active && p.unit.states.container == Completed
  }

  ghost predicate Activates(s: Archive, ctx: Context, req: Request, f: Identity, puts: seq<Put>)
    requires f in s.refs
  {
    DecideActivation(s, ctx, req, UnitAt(s, f)) == Ok(puts)
  }

  // The gates an activation has passed.
  lemma ActivationGates(s: Archive, ctx: Context, req: Request, f: Identity, puts: seq<Put>)
    requires f in s.refs && Activates(s, ctx, req, f, puts)
    ensures !IsRepoBusy(s, ctx, UnitAt(s, f)) && !IsClosureShared(s, ctx, UnitAt(s, f))
    ensures PlanOf(UnitAt(s, f)).ThePlan? && PlanOf(UnitAt(s, f)).line.typ == Plan
    ensures LockPlan(s, ctx, req, UnitAt(s, f), PlanOf(UnitAt(s, f)).line) == Ok(puts)
  {
    PlanIsPlan(UnitAt(s, f));
  }

  // The put locks p, the current approved instance of the plan.
  ghost predicate LocksPlan(s: Archive, ctx: Context, req: Request, plan: Line, p: Identity, put: Put) {
    && IsTop(s.refs.Keys, plan, p) && p in s.refs && UnitAt(s, p).states.planning == Approved
    && put == Moves(UnitAt(s, p), Immutable, ctx, req)
  }

  lemma LockPuts(s: Archive, ctx: Context, req: Request, f: Identity, plan: Line, puts: seq<Put>)
    requires Coherent(s) && f in s.refs && f.typ == Ctr && plan.typ == Plan
    requires LockPlan(s, ctx, req, UnitAt(s, f), plan) == Ok(puts)
    ensures 1 <= |puts| <= 2 && puts[0] == Moves(UnitAt(s, f), Active, ctx, req)
    ensures |puts| == 2 ==> exists p :: LocksPlan(s, ctx, req, plan, p, puts[1])
  {
    TopNone(s.refs.Keys, plan);
    if |puts| == 2 { assert LocksPlan(s, ctx, req, plan, Top(s.refs.Keys, plan).value, puts[1]); }
  }

  lemma LockForms(s: Archive, ctx: Context, req: Request, f: Identity, plan: Line, puts: seq<Put>)
    requires Coherent(s) && f in s.refs && f.typ == Ctr && plan.typ == Plan
    requires LockPlan(s, ctx, req, UnitAt(s, f), plan) == Ok(puts)
    ensures |puts| >= 1 && puts[0].ref.form == f
    ensures |puts| == 2 ==> LineOf(puts[1].ref.form) == plan && puts[1].unit.states.planning == Immutable
  {
    LockPuts(s, ctx, req, f, plan, puts);
    assert UnitAt(s, f).identity == f;
    if |puts| == 2 {
      var p :| LocksPlan(s, ctx, req, plan, p, puts[1]);
      assert UnitAt(s, p).identity == p;
    }
  }

  lemma OnlyFirst(puts: seq<Put>)
    requires 1 <= |puts| <= 2 && (|puts| == 2 ==> puts[1].ref.form.typ == Plan)
    ensures forall p :: p in puts && p.ref.form.typ == Ctr ==> p == puts[0]
  {
  }

  lemma LockFirst(s: Archive, ctx: Context, req: Request, f: Identity, plan: Line, puts: seq<Put>)
    requires Coherent(s) && f in s.refs && f.typ == Ctr && plan.typ == Plan
    requires LockPlan(s, ctx, req, UnitAt(s, f), plan) == Ok(puts)
    ensures 1 <= |puts| <= 2 && puts[0] == Moves(UnitAt(s, f), Active, ctx, req)
    ensures |puts| == 2 ==> puts[1].ref.form.typ == Plan
  {
    LockPuts(s, ctx, req, f, plan, puts);
    LockForms(s, ctx, req, f, plan, puts);
  }

  lemma ActivationPuts(s: Archive, ctx: Context, req: Request, f: Identity, puts: seq<Put>)
    requires Coherent(s) && f in s.refs && f.typ == Ctr && Activates(s, ctx, req, f, puts)
    ensures |puts| >= 1 && puts[0] == Moves(UnitAt(s, f), Active, ctx, req)
    ensures forall p :: p in puts && p.ref.form.typ == Ctr ==> p == puts[0]
  {
    ActivationGates(s, ctx, req, f, puts);
    LockFirst(s, ctx, req, f, PlanOf(UnitAt(s, f)).line, puts);
    OnlyFirst(puts);
  }

  lemma OtherPuts(s: Archive, ctx: Context, req: Request, f: Identity, puts: seq<Put>)
    requires IsDecided(s, ctx, req, f, puts) && f.typ != Ctr
    ensures |puts| == 1 && puts[0].ref.form == f
  {
  }

  // A put of a container completes or activates the addressed container.
  lemma ContainerPut(s: Archive, ctx: Context, req: Request, f: Identity, puts: seq<Put>, p: Put)
    requires Coherent(s) && IsDecided(s, ctx, req, f, puts) && p in puts && p.ref.form.typ == Ctr
    ensures f.typ == Ctr && p.ref.form == f
    ensures Completes(s, f, p) || (Activates(s, ctx, req, f, puts) && p == puts[0])
  {
    if f.typ != Ctr {
      OtherPuts(s, ctx, req, f, puts);
    } else if UnitAt(s, f).states.container == Planned {
      ActivationPuts(s, ctx, req, f, puts);
    }
  }

  // ---- one active container per repository, disjoint closures across repositories ----

  ghost predicate Apart(s: Archive, f: Identity, g: Identity) {
    f in s.refs && g in s.refs && s.refs[f].sourceRepo != s.refs[g].sourceRepo
    && DisjointClosures(s, UnitAt(s, f), UnitAt(s, g))
  }

  ghost predicate Exclusive(s: Archive, project: string) {
    forall f, g :: IsActive(s, project, f) && IsActive(s, project, g) && f != g ==> Apart(s, f, g)
  }

  // A step from s to t in the project of ctx, decided on the form f0.
  ghost predicate IsStep(s: Archive, ctx: Context, req: Request, f0: Identity, puts: seq<Put>, t: Archive) {
    && Coherent(s) && IsDecided(s, ctx, req, f0, puts) && IsBatch(s, ctx, req, puts) && Changed(s, ctx, puts, t)
  }

  ghost predicate StaysActive(s: Archive, t: Archive, project: string, f: Identity) {
    IsActive(s, project, f) && f in s.refs && f in t.refs && t.refs[f] == s.refs[f]
  }

  ghost predicate BecomesActive(s: Archive, ctx: Context, req: Request, f0: Identity, puts: seq<Put>, t: Archive,
      f: Identity) {
    && f == f0 && f in s.refs && f in t.refs && f.typ == Ctr && Activates(s, ctx, req, f, puts)
    && t.refs[f].sourceRepo == ctx.sourceRepo
  }

  lemma ProjectGrows(s: Archive, ctx: Context, puts: seq<Put>, t: Archive)
    requires Changed(s, ctx, puts, t)
    ensures ProjectForms(s, ctx.project) <= ProjectForms(t, ctx.project)
  {
    forall f | f in ProjectForms(s, ctx.project)
      ensures f in ProjectForms(t, ctx.project)
    {
      if p :| p in puts && p.ref.form == f { assert Published(ctx, p, t); }
    }
  }

  lemma UntouchedWasActive(s: Archive, ctx: Context, puts: seq<Put>, t: Archive, f: Identity)
    requires Changed(s, ctx, puts, t) && IsActive(t, ctx.project, f)
    requires f in s.refs && f in t.refs && t.refs[f] == s.refs[f]
    ensures StaysActive(s, t, ctx.project, f)
  {
    ProjectGrows(s, ctx, puts, t);
    assert f in ProjectForms(s, ctx.project);
  }

  // A container that is active after a transition was active before, untouched, or is the one activated.
  lemma ActiveAfter(s: Archive, ctx: Context, req: Request, f0: Identity, puts: seq<Put>, t: Archive, f: Identity)
    requires IsStep(s, ctx, req, f0, puts, t) && IsActive(t, ctx.project, f)
    ensures StaysActive(s, t, ctx.project, f) || BecomesActive(s, ctx, req, f0, puts, t, f)
  {
    if p :| p in puts && p.ref.form == f {
      assert Published(ctx, p, t);
      ContainerPut(s, ctx, req, f0, puts, p);
    } else {
      assert f in ProjectForms(t, ctx.project);
      UntouchedWasActive(s, ctx, puts, t, f);
    }
  }

  lemma ActivatedApart(s: Archive, ctx: Context, req: Request, f: Identity, puts: seq<Put>, g: Identity)
    requires f in s.refs && UnitAt(s, f).identity == f && Activates(s, ctx, req, f, puts)
    requires IsActive(s, ctx.project, g) && LineOf(g) != LineOf(f)
    ensures g in s.refs && s.refs[g].sourceRepo != ctx.sourceRepo && DisjointClosures(s, UnitAt(s, f), UnitAt(s, g))
  {
    ActivationGates(s, ctx, req, f, puts);
    var u := UnitAt(s, f);
    assert !OtherActive(s, ctx, u, g, true);
    assert OtherActive(s, ctx, u, g, false);
  }

  lemma TopsDiffer(forms: set<Identity>, f: Identity, g: Identity)
    requires IsTop(forms, LineOf(f), f) && IsTop(forms, LineOf(g), g) && f != g
    ensures LineOf(f) != LineOf(g)
  {
  }

  lemma NewlyApart(s: Archive, ctx: Context, req: Request, f0: Identity, puts: seq<Put>, t: Archive, f: Identity,
      g: Identity)
    requires IsStep(s, ctx, req, f0, puts, t)
    requires BecomesActive(s, ctx, req, f0, puts, t, f) && StaysActive(s, t, ctx.project, g) && LineOf(f) != LineOf(g)
    ensures Apart(t, f, g) && Apart(t, g, f)
  {
    ActivatedApart(s, ctx, req, f, puts, g);
    ChangeKeepsShape(s, ctx, req, puts, t);
    SameClosures(s, t, f, g);
  }

  lemma StepKeepsExclusive(s: Archive, ctx: Context, req: Request, f0: Identity, puts: seq<Put>, t: Archive)
    requires IsStep(s, ctx, req, f0, puts, t) && Exclusive(s, ctx.project)
    ensures Exclusive(t, ctx.project)
  {
    ChangeKeepsShape(s, ctx, req, puts, t);
    forall f, g | IsActive(t, ctx.project, f) && IsActive(t, ctx.project, g) && f != g
      ensures Apart(t, f, g)
    {
      ActiveAfter(s, ctx, req, f0, puts, t, f);
      ActiveAfter(s, ctx, req, f0, puts, t, g);
      TopsDiffer(ProjectForms(t, ctx.project), f, g);
      if StaysActive(s, t, ctx.project, f) && StaysActive(s, t, ctx.project, g) {
        assert Apart(s, f, g);
        SameClosures(s, t, f, g);
      } else if StaysActive(s, t, ctx.project, g) {
        NewlyApart(s, ctx, req, f0, puts, t, f, g);
      } else {
        NewlyApart(s, ctx, req, f0, puts, t, g, f);
      }
    }
  }

  // ---- the plan lock ----

  ghost predicate OnLockedPlan(s: Archive, f: Identity) {
    && f in s.refs && PlanOf(UnitAt(s, f)).ThePlan?
    && exists p :: IsTop(s.refs.Keys, PlanOf(UnitAt(s, f)).line, p) && p in s.refs && UnitAt(s, p).states.planning == Immutable
  }

  // The plan of every active container is immutable; in particular it is not superseded.
  ghost predicate ActivePlansLocked(s: Archive, project: string) {
    forall f :: IsActive(s, project, f) ==> OnLockedPlan(s, f)
  }

  ghost predicate Used(u: Unit) {
    u.states.container == Active || u.states.container == Completed
  }

  ghost predicate HasUsedContainer(s: Archive, plan: Line) {
    exists c :: c in s.refs && c.typ == Ctr && PlanOf(UnitAt(s, c)) == ThePlan(plan) && Used(UnitAt(s, c))
  }

  // A plan is immutable or superseded only if some container on it is active or completed.
  ghost predicate LocksEarned(s: Archive) {
    forall p :: p in s.refs && p.typ == Plan && UnitAt(s, p).states.planning in {Immutable, Superseded} ==>
      HasUsedContainer(s, LineOf(p))
  }

  // ---- steps of plans ----

  ghost predicate Locks(s: Archive, ctx: Context, req: Request, f0: Identity, puts: seq<Put>, p: Put)
    requires f0 in s.refs
  {
    && f0.typ == Ctr && Activates(s, ctx, req, f0, puts)
    && PlanOf(UnitAt(s, f0)) == ThePlan(LineOf(p.ref.form)) && p.unit.states.planning == Immutable
  }

  ghost predicate Approves(s: Archive, f: Identity, p: Put)
    requires f in s.refs
  {
    UnitAt(s, f).states.planning == Draft && p.unit.states.planning == Approved
  }

  ghost predicate Retires(s: Archive, ctx: Context, f: Identity, p: Put)
    requires f in s.refs
  {
    && UnitAt(s, f).states.planning == Immutable && p.unit.states.planning == Superseded
    && !PlanBusy(s, ctx.project, LineOf(f))
  }

  lemma LockedPlanPut(s: Archive, ctx: Context, req: Request, f0: Identity, plan: Line, puts: seq<Put>, p: Put)
    requires Coherent(s) && f0 in s.refs && f0.typ == Ctr && plan.typ == Plan
    requires LockPlan(s, ctx, req, UnitAt(s, f0), plan) == Ok(puts) && p in puts && p.ref.form.typ == Plan
    ensures LineOf(p.ref.form) == plan && p.unit.states.planning == Immutable
  {
    LockPuts(s, ctx, req, f0, plan, puts);
    LockForms(s, ctx, req, f0, plan, puts);
  }

  lemma PlanDecision(s: Archive, ctx: Context, req: Request, f: Identity, puts: seq<Put>)
    requires f in s.refs && f.typ == Plan && IsDecided(s, ctx, req, f, puts)
    ensures |puts| == 1 && puts[0].ref.form == f && (Approves(s, f, puts[0]) || Retires(s, ctx, f, puts[0]))
  {
  }

  // A put of a plan locks the plan of the activated container, or approves or retires the addressed plan.
  lemma PlanPut(s: Archive, ctx: Context, req: Request, f0: Identity, puts: seq<Put>, p: Put)
    requires Coherent(s) && IsDecided(s, ctx, req, f0, puts) && p in puts && p.ref.form.typ == Plan
    requires p.ref.form in s.refs
    ensures Locks(s, ctx, req, f0, puts, p) || Approves(s, p.ref.form, p) || Retires(s, ctx, p.ref.form, p)
  {
    if f0.typ == Plan {
      PlanDecision(s, ctx, req, f0, puts);
    } else if f0.typ != Ctr {
      OtherPuts(s, ctx, req, f0, puts);
    } else {
      ContainerDecision(s, ctx, req, f0, puts, p);
      ActivationGates(s, ctx, req, f0, puts);
      LockedPlanPut(s, ctx, req, f0, PlanOf(UnitAt(s, f0)).line, puts, p);
    }
  }

  lemma ContainerDecision(s: Archive, ctx: Context, req: Request, f: Identity, puts: seq<Put>, p: Put)
    requires IsDecided(s, ctx, req, f, puts) && f.typ == Ctr && p in puts && p.ref.form.typ == Plan
    ensures Activates(s, ctx, req, f, puts)
  {
  }

  // ---- the plan of an active container stays locked ----

  lemma LockSurvives(s: Archive, ctx: Context, req: Request, f0: Identity, puts: seq<Put>, t: Archive, f: Identity,
      p: Identity)
    requires IsStep(s, ctx, req, f0, puts, t) && p in s.refs && p.typ == Plan && UnitAt(s, p).states.planning == Immutable
    requires f in s.refs && ActiveOnPlan(s, ctx.project, LineOf(p), f)
    ensures UnitAt(t, p).states.planning == Immutable
  {
    if q :| q in puts && q.ref.form == p {
      assert Published(ctx, q, t);
      PlanPut(s, ctx, req, f0, puts, q);
    } else {
      assert t.refs[p] == s.refs[p];
    }
  }

  lemma ActivationLocks(s: Archive, ctx: Context, req: Request, f: Identity, puts: seq<Put>,
      t: Archive) returns (p: Identity)
    requires IsStep(s, ctx, req, f, puts, t) && f.typ == Ctr && Activates(s, ctx, req, f, puts)
    ensures PlanOf(UnitAt(s, f)).ThePlan? && p in s.refs && IsTop(s.refs.Keys, PlanOf(UnitAt(s, f)).line, p)
    ensures UnitAt(t, p).states.planning == Immutable
  {
    ActivationGates(s, ctx, req, f, puts);
    var plan := PlanOf(UnitAt(s, f)).line;
    TopNone(s.refs.Keys, plan);
    p := Top(s.refs.Keys, plan).value;
    LockedAfter(s, ctx, req, f, puts, t, plan, p);
  }

  lemma LockedAfter(
      s: Archive, ctx: Context, req: Request, f: Identity, puts: seq<Put>, t: Archive, plan: Line, p: Identity)
    requires Coherent(s) && Changed(s, ctx, puts, t) && f in s.refs && f.typ == Ctr && plan.typ == Plan
    requires p in s.refs && Top(s.refs.Keys, plan) == Some(p) && LineOf(p) == plan
    requires LockPlan(s, ctx, req, UnitAt(s, f), plan) == Ok(puts)
    ensures UnitAt(t, p).states.planning == Immutable
  {
    LockForms(s, ctx, req, f, plan, puts);
    assert UnitAt(s, p).identity == p;
    if UnitAt(s, p).states.planning == Approved {
      assert puts[1].ref.form == p;
      assert Published(ctx, puts[1], t);
    } else {
      assert puts == [puts[0]];
      Untouched(s, ctx, puts, t, p);
    }
  }

  lemma Untouched(s: Archive, ctx: Context, puts: seq<Put>, t: Archive, f: Identity)
    requires Changed(s, ctx, puts, t) && f in s.refs && Avoids(puts, f)
    ensures f in t.refs && t.refs[f] == s.refs[f]
  {
  }

  lemma PlanUnmoved(s: Archive, t: Archive, f: Identity)
    requires SameShape(s, t) && f in s.refs
    ensures PlanOf(UnitAt(t, f)) == PlanOf(UnitAt(s, f))
  {
    assert SameEdges(UnitAt(s, f), UnitAt(t, f));
  }

  lemma StepKeepsLocked(s: Archive, ctx: Context, req: Request, f0: Identity, puts: seq<Put>, t: Archive)
    requires IsStep(s, ctx, req, f0, puts, t) && ActivePlansLocked(s, ctx.project)
    ensures ActivePlansLocked(t, ctx.project)
  {
    ChangeKeepsShape(s, ctx, req, puts, t);
    forall f | IsActive(t, ctx.project, f)
      ensures OnLockedPlan(t, f)
    {
      ActiveAfter(s, ctx, req, f0, puts, t, f);
      PlanUnmoved(s, t, f);
      if StaysActive(s, t, ctx.project, f) {
        assert OnLockedPlan(s, f);
        PlanIsPlan(UnitAt(s, f));
        var plan := PlanOf(UnitAt(s, f)).line;
        var p :| IsTop(s.refs.Keys, plan, p) && p in s.refs && UnitAt(s, p).states.planning == Immutable;
        LockSurvives(s, ctx, req, f0, puts, t, f, p);
      } else {
        var p := ActivationLocks(s, ctx, req, f0, puts, t);
      }
    }
  }

  // The retirement gate sees an active container on a plan exactly when that is the container's only plan: this is
  // why the invariants are about fixed relationships.
  lemma RetirementSeesIff(s: Archive, project: string, f: Identity, plan: Line)
    requires IsActive(s, project, f) && f in s.refs
    requires plan in PlansWithin(UnitAt(s, f), |UnitAt(s, f).relationships|)
    ensures ActiveOnPlan(s, project, plan, f) <==> PlansWithin(UnitAt(s, f), |UnitAt(s, f).relationships|) == {plan}
  {
    OnlyOne(PlansWithin(UnitAt(s, f), |UnitAt(s, f).relationships|), plan);
  }

  // ---- locks are earned ----

  lemma ActivatedIsUsed(s: Archive, ctx: Context, req: Request, c: Identity, puts: seq<Put>)
    requires Coherent(s) && c in s.refs && c.typ == Ctr && Activates(s, ctx, req, c, puts)
    ensures |puts| >= 1 && Used(puts[0].unit)
  {
    ActivationPuts(s, ctx, req, c, puts);
    assert UnitAt(s, c).identity == c;
  }

  lemma PutIsUsed(s: Archive, ctx: Context, req: Request, f0: Identity, puts: seq<Put>, p: Put)
    requires Coherent(s) && IsDecided(s, ctx, req, f0, puts) && p in puts && p.ref.form.typ == Ctr
    ensures Used(p.unit)
  {
    ContainerPut(s, ctx, req, f0, puts, p);
    if Activates(s, ctx, req, f0, puts) { ActivatedIsUsed(s, ctx, req, f0, puts); }
  }

  lemma UseSurvives(s: Archive, ctx: Context, req: Request, f0: Identity, puts: seq<Put>, t: Archive, c: Identity)
    requires IsStep(s, ctx, req, f0, puts, t) && c in s.refs && c.typ == Ctr
    requires Used(UnitAt(s, c)) || exists p :: p in puts && p.ref.form == c
    ensures Used(UnitAt(t, c))
  {
    if p :| p in puts && p.ref.form == c {
      assert Published(ctx, p, t);
      PutIsUsed(s, ctx, req, f0, puts, p);
    } else {
      assert t.refs[c] == s.refs[c];
    }
  }

  lemma UsedContainerKept(s: Archive, ctx: Context, req: Request, f0: Identity, puts: seq<Put>, t: Archive, plan: Line)
    requires IsStep(s, ctx, req, f0, puts, t) && SameShape(s, t) && HasUsedContainer(s, plan)
    ensures HasUsedContainer(t, plan)
  {
    var c :| c in s.refs && c.typ == Ctr && PlanOf(UnitAt(s, c)) == ThePlan(plan) && Used(UnitAt(s, c));
    UseSurvives(s, ctx, req, f0, puts, t, c);
    PlanUnmoved(s, t, c);
    assert c in t.refs;
  }

  lemma LockEarns(s: Archive, ctx: Context, req: Request, f0: Identity, puts: seq<Put>, t: Archive, p: Put)
    requires IsStep(s, ctx, req, f0, puts, t) && SameShape(s, t) && Locks(s, ctx, req, f0, puts, p)
    ensures HasUsedContainer(t, LineOf(p.ref.form))
  {
    ActivationPuts(s, ctx, req, f0, puts);
    assert UnitAt(s, f0).identity == f0;
    assert puts[0] in puts && puts[0].ref.form == f0;
    UseSurvives(s, ctx, req, f0, puts, t, f0);
    PlanUnmoved(s, t, f0);
    assert f0 in t.refs;
  }

  lemma StepKeepsEarned(s: Archive, ctx: Context, req: Request, f0: Identity, puts: seq<Put>, t: Archive)
    requires IsStep(s, ctx, req, f0, puts, t) && LocksEarned(s)
    ensures LocksEarned(t)
  {
    ChangeKeepsShape(s, ctx, req, puts, t);
    forall p | p in t.refs && p.typ == Plan && UnitAt(t, p).states.planning in {Immutable, Superseded}
      ensures HasUsedContainer(t, LineOf(p))
    {
      if q :| q in puts && q.ref.form == p {
        assert Published(ctx, q, t);
        PlanPut(s, ctx, req, f0, puts, q);
        if Locks(s, ctx, req, f0, puts, q) {
          LockEarns(s, ctx, req, f0, puts, t, q);
        } else {
          UsedContainerKept(s, ctx, req, f0, puts, t, LineOf(p));
        }
      } else {
        assert t.refs[p] == s.refs[p];
        UsedContainerKept(s, ctx, req, f0, puts, t, LineOf(p));
      }
    }
  }

  // ---- relates that add no dependency ----

  // Only edges outside the dependencies, days and payloads differ between s and t.
  ghost predicate Quiet(s: Archive, t: Archive) {
    && SameShape(s, t)
    && forall f :: f in s.refs ==>
         && t.refs[f].project == s.refs[f].project && t.refs[f].sourceRepo == s.refs[f].sourceRepo
         && UnitAt(t, f).states == UnitAt(s, f).states
  }

  lemma QuietActive(s: Archive, t: Archive, project: string, f: Identity)
    requires Quiet(s, t)
    ensures IsActive(t, project, f) <==> IsActive(s, project, f)
  {
    assert ProjectForms(s, project) == ProjectForms(t, project);
  }

  lemma QuietKeepsExclusive(s: Archive, t: Archive, project: string)
    requires Quiet(s, t) && Exclusive(s, project)
    ensures Exclusive(t, project)
  {
    forall f, g | IsActive(t, project, f) && IsActive(t, project, g) && f != g
      ensures Apart(t, f, g)
    {
      QuietActive(s, t, project, f);
      QuietActive(s, t, project, g);
      assert Apart(s, f, g);
      SameClosures(s, t, f, g);
    }
  }

  lemma QuietKeepsLocked(s: Archive, t: Archive, project: string)
    requires Quiet(s, t) && ActivePlansLocked(s, project)
    ensures ActivePlansLocked(t, project)
  {
    forall f | IsActive(t, project, f)
      ensures OnLockedPlan(t, f)
    {
      QuietActive(s, t, project, f);
      assert OnLockedPlan(s, f);
      PlanUnmoved(s, t, f);
    }
  }

  lemma QuietKeepsEarned(s: Archive, t: Archive)
    requires Quiet(s, t) && LocksEarned(s)
    ensures LocksEarned(t)
  {
    forall p | p in t.refs && p.typ == Plan && UnitAt(t, p).states.planning in {Immutable, Superseded}
      ensures HasUsedContainer(t, LineOf(p))
    {
      assert HasUsedContainer(s, LineOf(p));
      var c :| c in s.refs && c.typ == Ctr && PlanOf(UnitAt(s, c)) == ThePlan(LineOf(p)) && Used(UnitAt(s, c));
      PlanUnmoved(s, t, c);
      assert c in t.refs;
    }
  }

  lemma RelatedAlike(u: Unit, adds: seq<Relationship>, today: string)
    requires forall rel :: rel in adds ==> !IsDependency(rel)
    ensures SameEdges(u, Related(u, Canonical(Elems(u.relationships) + Requested(adds)), today))
  {
    var merged := Canonical(Elems(u.relationships) + Requested(adds));
    forall rel | IsDependency(rel)
      ensures rel in u.relationships <==> rel in merged
    {
      assert rel in merged <==> rel in Elems(merged);
      assert rel !in Requested(adds);
    }
    SameTargets(u, Related(u, merged, today));
  }

  lemma RelateIsQuiet(s: Archive, f: Identity, adds: seq<Relationship>, today: string, passes: Unit -> bool)
    requires Growing(s) && f in s.refs && Relates(s, f, adds, today, passes)
    requires forall rel :: rel in adds ==> !IsDependency(rel)
    ensures Quiet(s, PutUnit(s, RelateTo(s, f, adds, today), true).archive)
  {
    var p := RelateTo(s, f, adds, today);
    GrowingIsCoherent(s);
    RelateExtends(s, f, adds, today, passes);
    RelatedAlike(UnitAt(s, f), adds, today);
    LandedIsQuiet(s, p, PutUnit(s, p, true));
  }

  lemma LandedIsQuiet(s: Archive, p: Put, o: Outcome)
    requires Landed(s, p, o) && p.ref.form in s.refs
    requires SameEdges(UnitAt(s, p.ref.form), p.unit) && p.unit.states == UnitAt(s, p.ref.form).states
    requires p.ref.project == s.refs[p.ref.form].project && p.ref.sourceRepo == s.refs[p.ref.form].sourceRepo
    ensures Quiet(s, o.archive)
  {
  }

  // ---- runs ----

  // The store between the events of the project.
  ghost predicate Safe(s: Archive, project: string) {
    Growing(s) && Exclusive(s, project) && ActivePlansLocked(s, project) && LocksEarned(s)
  }

  // A transition in the project, or a relate, wherever, that asks for no dependency.
  ghost predicate Admitted(e: Event, project: string) {
    match e
    case Transit(ctx, _) => ctx.project == project
    case Relating(_, adds, _, _) => forall rel :: rel in adds ==> !IsDependency(rel)
    case Publish(_) => false
  }

  lemma TransitionKeepsSafe(s: Archive, ctx: Context, req: Request)
    requires Safe(s, ctx.project)
    ensures Safe(After(s, Transit(ctx, req)), ctx.project)
  {
    if Decide(s, ctx, req).Ok? {
      var puts := Decide(s, ctx, req).value;
      var t := PutAll(s, puts);
      GrowingIsCoherent(s);
      var f0 := DecidedOn(s, ctx, req);
      NothingSwallowed(s, ctx, req);
      BatchChanges(s, ctx, req, puts);
      assert IsStep(s, ctx, req, f0, puts, t);
      StepKeepsExclusive(s, ctx, req, f0, puts, t);
      StepKeepsLocked(s, ctx, req, f0, puts, t);
      StepKeepsEarned(s, ctx, req, f0, puts, t);
    }
  }

  lemma RelateKeepsSafe(s: Archive, e: Event, project: string)
    requires Safe(s, project) && e.Relating? && Admitted(e, project)
    ensures Safe(After(s, e), project)
  {
    AfterGrows(s, e);
    if WouldRelate(s, e) {
      RelateIsQuiet(s, Top(s.refs.Keys, e.line).value, e.adds, e.today, e.passes);
      QuietKeepsExclusive(s, After(s, e), project);
      QuietKeepsLocked(s, After(s, e), project);
      QuietKeepsEarned(s, After(s, e));
    }
  }

  // Over every run of transitions in the project, among relates that add no dependency.
  lemma {:induction false} RunKeepsSafe(s: Archive, events: seq<Event>, project: string)
    requires Safe(s, project) && forall e :: e in events ==> Admitted(e, project)
    ensures Safe(Reached(s, events), project)
  {
    if events != [] {
      var before, e := Reached(s, events[..|events| - 1]), events[|events| - 1];
      RunKeepsSafe(s, events[..|events| - 1], project);
      assert e in events && Admitted(e, project);
      if e.Transit? {
        TransitionKeepsSafe(before, e.ctx, e.req);
      } else {
        RelateKeepsSafe(before, e, project);
      }
    }
  }

  // From any reachable store in which no container of the project is active and no plan is locked or retired.
  lemma FreshProjectStaysSafe(s: Archive, events: seq<Event>, project: string)
    requires Growing(s) && forall f :: !IsActive(s, project, f)
    requires forall p :: p in s.refs && p.typ == Plan ==> UnitAt(s, p).states.planning !in {Immutable, Superseded}
    requires forall e :: e in events ==> Admitted(e, project)
    ensures Exclusive(Reached(s, events), project)
    ensures ActivePlansLocked(Reached(s, events), project)
    ensures LocksEarned(Reached(s, events))
  {
    RunKeepsSafe(s, events, project);
  }
}
