/** The plan of a container and the edges of its closure, read off relationships and parsed targets
    (runtime/container.go, runtime/transition.go). */
module PlanReading {
  import opened Taxonomy
  import opened References
  import opened Units
  import opened PayloadStore
  import opened Queries
  import opened Graphs
  import opened PlanClosure
  import opened Gates
  import opened Lifecycle
  import opened AbsentLines

  // A depends-on or a derives-from of u names the line.
  ghost predicate Depends(u: Unit, l: Line) {
    NamesBy(u, "depends-on", l) || NamesBy(u, "derives-from", l)
  }

  lemma FollowIs(u: Unit, k: nat, l: Line)
    requires k < |u.relationships|
    ensures Follow(u, u.relationships[k]) == Some(l) <==> RelAt(u, k, "depends-on", l) || RelAt(u, k, "derives-from", l)
  {
    NamedLineIs(u, k, "depends-on", l);
    NamedLineIs(u, k, "derives-from", l);
  }

  lemma FollowedIff(u: Unit, l: Line)
    ensures l in Followed(u) <==> Depends(u, l)
  {
    if l in Followed(u) {
      var rel :| rel in u.relationships && Follow(u, rel) == Some(l);
      var k: nat :| k < |u.relationships| && u.relationships[k] == rel;
      FollowIs(u, k, l);
    }
    if NamesBy(u, "depends-on", l) {
      var k: nat :| RelAt(u, k, "depends-on", l);
      FollowIs(u, k, l);
      assert u.relationships[k] in u.relationships;
    }
    if NamesBy(u, "derives-from", l) {
      var k: nat :| RelAt(u, k, "derives-from", l);
      FollowIs(u, k, l);
      assert u.relationships[k] in u.relationships;
    }
  }

  // The walk goes from m to l exactly when the highest instance of m depends on or derives from l.
  lemma EdgeIff(s: Archive, m: Line, l: Line)
    requires Coherent(s)
    ensures Edge(LineGraph(s), m, l) <==> exists f :: IsCurrent(s, m, f) && Depends(UnitAt(s, f), l)
  {
    EdgesOf(s, m);
    forall f
      ensures Top(s.refs.Keys, m) == Some(f) <==> IsCurrent(s, m, f)
    {
      TopIsCurrent(s, m, f);
    }
    if Top(s.refs.Keys, m).Some? { FollowedIff(UnitAt(s, Top(s.refs.Keys, m).value), l); }
  }

  // ---- the plan ----

  ghost predicate NamesPlan(u: Unit, l: Line) {
    l.typ == Plan && NamesBy(u, "depends-on", l)
  }

  lemma PlanTargetIs(u: Unit, k: nat, l: Line)
    requires k < |u.relationships|
    ensures PlanTarget(u, u.relationships[k]) == Some(l) <==> l.typ == Plan && RelAt(u, k, "depends-on", l)
  {
    NamedLineIs(u, k, "depends-on", l);
  }

  lemma PlansAre(u: Unit, l: Line)
    ensures l in PlansWithin(u, |u.relationships|) <==> NamesPlan(u, l)
  {
    if l in PlansWithin(u, |u.relationships|) {
      var j: nat :| j < |u.relationships| && PlanTarget(u, u.relationships[j]) == Some(l);
      PlanTargetIs(u, j, l);
    }
    if NamesPlan(u, l) {
      var k: nat :| RelAt(u, k, "depends-on", l);
      PlanTargetIs(u, k, l);
    }
  }

  // A container has a plan exactly when its depends-on edges name one plan line and no other.
  lemma PlanOfIff(u: Unit, l: Line)
    ensures PlanOf(u) == ThePlan(l) <==> NamesPlan(u, l) && forall m :: NamesPlan(u, m) ==> m == l
    ensures PlanOf(u) == NoPlan <==> forall m :: !NamesPlan(u, m)
  {
    var plans := PlansWithin(u, |u.relationships|);
    forall m
      ensures m in plans <==> NamesPlan(u, m)
    {
      PlansAre(u, m);
    }
    OnlyOf(plans, l);
  }

  lemma OnlyOf(plans: set<Line>, l: Line)
    ensures Only(plans) == ThePlan(l) <==> l in plans && forall m :: m in plans ==> m == l
    ensures Only(plans) == NoPlan <==> forall m :: m !in plans
  {
    OnlyOne(plans, l);
    assert plans == {l} <==> l in plans && forall m :: m in plans ==> m == l;
  }

  // ---- a shared target refuses ----

  // l is named by the current instance of the plan of u.
  ghost predicate PlanNames(s: Archive, u: Unit, l: Line) {
    PlanOf(u).ThePlan? && exists p :: IsCurrent(s, PlanOf(u).line, p) && Depends(UnitAt(s, p), l)
  }

  lemma NamedIsInClosure(s: Archive, u: Unit, l: Line)
    requires Coherent(s) && PlanNames(s, u, l)
    ensures InClosure(s, u, l)
  {
    EdgeIff(s, PlanOf(u).line, l);
    ReachesEdge(LineGraph(s), PlanOf(u).line, l);
  }

  // Whatever line the plans of two containers both depend on or derive from, published or not, keeps the one from
  // being activated while the other is active in another repository.
  lemma SharedTargetRefuses(s: Archive, ctx: Context, req: Request, u: Unit, f: Identity, l: Line)
    requires Coherent(s) && !IsRepoBusy(s, ctx, u) && OtherActive(s, ctx, u, f, false)
    requires PlanNames(s, u, l) && PlanNames(s, UnitAt(s, f), l)
    ensures DecideActivation(s, ctx, req, u) == Err(SharedClosure)
  {
    NamedIsInClosure(s, u, l);
    NamedIsInClosure(s, UnitAt(s, f), l);
    assert !DisjointClosures(s, u, UnitAt(s, f));
    RefusedAsShared(s, ctx, req, u);
  }
}
