/** Why a request for a transition is refused before any gate is asked (runtime/transition.go). */
module RefusalReading {
  import opened Taxonomy
  import opened Text
  import opened References
  import opened Units
  import opened Lifecycle
  import opened Decisions

  // ---- the target ----

  // More than one way of saying where to go.
  predicate Conflicts(req: Request) {
    (req.forward && req.backward) || (req.to != Absent && (req.forward || req.backward))
  }

  lemma TargetRefusals(ctx: Context, req: Request)
    ensures var a, p := Addressed(ctx, req), ParseReference(req.target, "", None);
            var told := TrimSpace(req.author.name) != "" && !Conflicts(req);
            && (a == Err(NoAuthority) <==> TrimSpace(req.author.name) == "")
            && (a == Err(ConflictingFlags) <==> TrimSpace(req.author.name) != "" && Conflicts(req))
            && (a == Err(BadTarget) <==> told && p.Err?)
            && (a == Err(VersionedTarget) <==> told && p.Ok? && p.value.version.Some?)
            && (a == Err(NotTransitionable) <==> told && p.Ok? && p.value.version.None? && p.value.typ in {Tkt, Ses})
            && (a == Err(ForeignNamespace) <==>
                  && told && p.Ok? && p.value.version.None? && p.value.typ !in {Tkt, Ses}
                  && p.value.ns != "" && p.value.ns != ctx.ns)
  {
    var p := ParseReference(req.target, "", None);
    if p.Ok? { TransitionableIff(p.value.typ); }
  }

  // ---- the destination ----

  lemma WorkItemRefusals(from: Value, req: Request)
    requires !Conflicts(req)
    ensures var r := WorkItemTo(from, req);
            && (r == Err(NoStep) <==>
                  || (req.forward && from !in {Planned, Todo, InProgress, InReview, Canceled})
                  || (req.backward && from !in {InReview, InProgress}))
            && (r == Err(NotInTable) <==> !req.forward && !req.backward && !InTable(ExecutionState, Sto, from, req.to))
            && (r.Ok? || r == Err(NoStep) || r == Err(NotInTable))
  {
    if req.forward || req.backward {
      var to := TransitionStep(from, req.forward);
      if to.Some? {
        StepIff(from, to.value);
        GoesIff(from, req, to.value);
      }
    } else {
      ExecutionMoves(Sto, from, req.to);
    }
  }

  lemma PlanRefusals(from: Value, req: Request)
    requires !Conflicts(req)
    ensures var r := PlanTo(from, req);
            && (r == Err(ForwardOnly) <==> req.backward)
            && (r == Err(LockOnly) <==> !req.backward && from == Approved && (req.forward || req.to == Immutable))
            && (r == Err(NoStep) <==> req.forward && from !in {Draft, Approved, Immutable})
            && (r.Ok? || r in {Err(ForwardOnly), Err(LockOnly), Err(NoStep), Err(NotInTable)})
  {
  }

  // The place of a value among planned, active and completed.
  function PlaceOf(v: Value): int {
    match v
    case Planned => 0
    case Active => 1
    case Completed => 2
    case _ => -1
  }

  lemma PlaceIs(v: Value)
    ensures IndexOf(DomainValues(ContainerState, Ctr), v) == PlaceOf(v)
  {
    ThreePositions(Planned, Active, Completed, v);
  }

  lemma ContainerRefusals(from: Value, req: Request)
    requires !Conflicts(req)
    ensures var r := ContainerTo(from, req);
            && (r == Err(Terminal) <==> req.forward && from == Completed)
            && (r == Err(ForwardOnly) <==>
                  || req.backward
                  || (req.forward && PlaceOf(from) < 0)
                  || (!req.forward && PlaceOf(req.to) <= PlaceOf(from)))
            && (r.Ok? || r in {Err(ForwardOnly), Err(Terminal), Err(NotInTable)})
  {
    PlaceIs(from);
    PlaceIs(req.to);
    PlaceIs(Active);
    PlaceIs(Completed);
  }

  // The last value of the type's list.
  function LastOf(t: TypeToken): Value {
    if t == Adr || t == Dec then Superseded else Amended
  }

  lemma LastIs(t: TypeToken, values: seq<Value>, v: Value)
    requires values == ContentVariant(t)
    ensures IndexOf(values, v) == |values| - 1 <==> v == LastOf(t)
    ensures |values| > 1
  {
    if t == Adr {
      ThreePositions(Proposed, Accepted, Superseded, v);
    } else if t == Dec {
      ThreePositions(Draft, Accepted, Superseded, v);
    } else {
      FourPositions(Draft, Review, Approved, Amended, v);
    }
  }

  // The refusals along any ordered list without repetitions.
  lemma NextRefusals(values: seq<Value>, from: Value, req: Request)
    requires Apart(values) && !Conflicts(req) && |values| > 1
    ensures var r, i, j := NextTo(values, from, req), IndexOf(values, from), IndexOf(values, req.to);
            && (r == Err(NoStep) <==> req.forward && (i < 0 || i == |values| - 1))
            && (r == Err(Terminal) <==> !req.forward && !req.backward && i == |values| - 1)
            && (r == Err(ForwardOnly) <==> req.backward || (!req.forward && 0 <= j <= i < |values| - 1))
            && (r.Ok? || r in {Err(ForwardOnly), Err(NoStep), Err(Terminal), Err(NotInTable)})
  {
    var i := IndexOf(values, from);
    if req.forward && 0 <= i < |values| - 1 {
      NextAhead(values, from, req, values[i + 1]);
      BehindIs(values, from, values[i + 1]);
    }
  }

  lemma ContentRefusals(t: TypeToken, from: Value, req: Request)
    requires !Conflicts(req)
    ensures var r := ContentTo(t, from, req);
            && (r == Err(NoStep) <==> req.forward && (from == LastOf(t) || !HasValue(ContentState, t, from)))
            && (r == Err(Terminal) <==> !req.forward && !req.backward && from == LastOf(t))
            && (r == Err(ForwardOnly) <==>
                  || req.backward
                  || (!req.forward && from != LastOf(t) && HasValue(ContentState, t, from)
                      && HasValue(ContentState, t, req.to) && !InTable(ContentState, t, from, req.to)))
            && (r.Ok? || r in {Err(ForwardOnly), Err(NoStep), Err(Terminal), Err(NotInTable)})
  {
    var values := ContentVariant(t);
    VariantApart(t);
    LastIs(t, values, from);
    ValuesIff(ContentState, t, from);
    ValuesIff(ContentState, t, req.to);
    VariantRises(t, values, from, req.to);
    NextRefusals(values, from, req);
  }
}
