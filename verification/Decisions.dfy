/** What each transition publishes, said of requests, states and relationships alone (runtime/transition.go,
    runtime/container.go). */
module Decisions {
  import opened Taxonomy
  import opened Text
  import opened References
  import opened Units
  import opened PayloadStore
  import opened Queries
  import opened Graphs
  import opened PlanClosure
  import opened PlanReading
  import opened Gates
  import opened Lifecycle
  import opened Tickets

  // ---- the addressed line ----

  // The request addresses the line: a plain reference to an artifact of the repository's namespace, by a named author
  // and with at most one way of saying where to go.
  predicate Addresses(ctx: Context, req: Request, l: Line) {
    && TrimSpace(req.author.name) != ""
    && !(req.forward && req.backward) && (req.to != Absent ==> !req.forward && !req.backward)
    && match ParseReference(req.target, "", None)
       case Err(_) => false
       case Ok(ref) =>
         && ref.version == None && ref.typ !in {Tkt, Ses} && (ref.ns == "" || ref.ns == ctx.ns)
         && l == Line(ctx.ns, ref.typ, ref.id)
  }

  lemma TransitionableIff(t: TypeToken)
    ensures IsTransitionable(t) <==> t !in {Tkt, Ses}
  {
    OwnedIff(t, ContentState);
  }

  lemma AddressedIff(ctx: Context, req: Request, l: Line)
    ensures Addressed(ctx, req) == Ok(l) <==> Addresses(ctx, req, l)
  {
    var ref := ParseReference(req.target, "", None);
    if ref.Ok? { TransitionableIff(ref.value.typ); }
  }

  // A decision is that on the current instance of the addressed line, as long as it has a state to move.
  lemma DecideIff(s: Archive, ctx: Context, req: Request, puts: seq<Put>)
    requires Coherent(s)
    ensures Decide(s, ctx, req) == Ok(puts) <==>
            exists f ::
              && IsCurrent(s, LineOf(f), f) && Addresses(ctx, req, LineOf(f))
              && StateOf(UnitAt(s, f), DomainOf(f.typ)) != Absent && DecideFor(s, ctx, req, UnitAt(s, f)) == Ok(puts)
  {
    forall l
      ensures Addressed(ctx, req) == Ok(l) <==> Addresses(ctx, req, l)
    {
      AddressedIff(ctx, req, l);
    }
    forall l, f
      ensures Top(s.refs.Keys, l) == Some(f) <==> IsCurrent(s, l, f)
    {
      TopIsCurrent(s, l, f);
    }
    if Decide(s, ctx, req) == Ok(puts) {
      var l := Addressed(ctx, req).value;
      var f := Top(s.refs.Keys, l).value;
      assert IsCurrent(s, l, f) && UnitAt(s, f).identity == f && LineOf(f) == l;
    }
  }

  // ---- work items ----

  // The steps along planned, todo, in-progress, in-review and done; a canceled item starts again.
  predicate IsStepUp(from: Value, to: Value) {
    || (from == Planned && to == Todo) || (from == Todo && to == InProgress) || (from == InProgress && to == InReview)
    || (from == InReview && to == Done) || (from == Canceled && to == Todo)
  }

  predicate IsStepDown(from: Value, to: Value) {
    (from == InReview && to == InProgress) || (from == InProgress && to == Todo)
  }

  lemma StepIff(from: Value, to: Value)
    ensures TransitionStep(from, true) == Some(to) <==> IsStepUp(from, to)
    ensures TransitionStep(from, false) == Some(to) <==> IsStepDown(from, to)
  {
  }

  function Rank(v: Value): int {
    match v
    case Planned => 0
    case Todo => 1
    case InProgress => 2
    case InReview => 3
    case Done => 4
    case _ => -1
  }

  // A step forward goes one up, and a step back undoes one forward.
  lemma StepsByOne(from: Value, to: Value)
    ensures TransitionStep(from, true) == Some(to) && from != Canceled ==> 0 <= Rank(from) && Rank(to) == Rank(from) + 1
    ensures TransitionStep(from, false) == Some(to) ==>
              Rank(to) == Rank(from) - 1 && TransitionStep(to, true) == Some(from)
    ensures 0 <= Rank(from) < 4 ==> TransitionStep(from, true).Some?
  {
    StepIff(from, to);
    StepIff(to, from);
  }

  // Where a request takes a work item.
  predicate Goes(from: Value, req: Request, to: Value) {
    if req.forward then IsStepUp(from, to)
    else if req.backward then IsStepDown(from, to)
    else to == req.to && InTable(ExecutionState, Sto, from, to)
  }

  lemma GoesIff(from: Value, req: Request, to: Value)
    ensures WorkItemTo(from, req) == Ok(to) <==> Goes(from, req, to)
  {
    StepIff(from, to);
    ExecutionMoves(Sto, from, to);
  }

  // ---- notes ----

  // f is a note of the project with a discusses edge to the line.
  ghost predicate NoteOn(s: Archive, project: string, l: Line, f: Identity) {
    f in s.refs && s.refs[f].project == project && f.typ == Cmt && NamesBy(UnitAt(s, f), "discusses", l)
  }

  // The highest of its line among those.
  ghost predicate CurrentNote(s: Archive, project: string, l: Line, f: Identity) {
    && NoteOn(s, project, l, f)
    && forall g :: NoteOn(s, project, l, g) && LineOf(g) == LineOf(f) ==> g.version <= f.version
  }

  lemma NotesAre(s: Archive, project: string, l: Line, f: Identity)
    ensures f in Discussing(s, project, l) <==> NoteOn(s, project, l, f)
  {
    if f in s.refs { RefersIff(UnitAt(s, f), "discusses", l); }
  }

  lemma CurrentNoteIff(s: Archive, project: string, l: Line, f: Identity)
    ensures IsNote(s, project, l, f) <==> CurrentNote(s, project, l, f)
  {
    forall g
      ensures g in Discussing(s, project, l) <==> NoteOn(s, project, l, g)
    {
      NotesAre(s, project, l, g);
    }
  }

  ghost predicate ResolvedReview(s: Archive, ctx: Context, l: Line, f: Identity) {
    CurrentNote(s, ctx.project, l, f) && UnitAt(s, f).states.note == Resolved && ctx.role(UnitAt(s, f))
  }

  // A resolved implementation note, published or among the drafts.
  ghost predicate Reviewed(s: Archive, ctx: Context, l: Line) {
    (exists f :: ResolvedReview(s, ctx, l, f)) || exists d :: d in ctx.drafts && d.implementation && d.state == Resolved
  }

  ghost predicate NothingOpen(s: Archive, ctx: Context, l: Line) {
    && (forall f :: CurrentNote(s, ctx.project, l, f) ==> UnitAt(s, f).states.note == Resolved)
    && forall d :: d in ctx.drafts ==> d.state == Resolved
  }

  // What the notes say of moving the line to a state.
  ghost predicate NotesLet(s: Archive, ctx: Context, l: Line, to: Value) {
    (to == InReview ==> Reviewed(s, ctx, l)) && (to == Done ==> NothingOpen(s, ctx, l))
  }

  lemma NotesIff(s: Archive, ctx: Context, l: Line, to: Value)
    ensures NotesAllow(s, ctx.project, l, ctx.role, ctx.drafts, to) <==> NotesLet(s, ctx, l, to)
  {
    forall f
      ensures IsNote(s, ctx.project, l, f) <==> CurrentNote(s, ctx.project, l, f)
      ensures IsNote(s, ctx.project, l, f) && ResolvedImplementation(s, ctx.role, f) <==> ResolvedReview(s, ctx, l, f)
    {
      CurrentNoteIff(s, ctx.project, l, f);
    }
  }

  ghost predicate IsRegisteredRead(s: Archive, project: string, w: Line) {
    exists t, c, f :: InActiveContainer(s, project, w, t, c, f)
  }

  // What a moved work item is published as: its execution state and one more entry in its log, on the day.
  function WorkItemPut(u: Unit, to: Value, ctx: Context, req: Request): Put {
    Put(u.(states := u.states.(execution := to), updated := ctx.today,
           changeLog := u.changeLog + [Entry(ctx.today, ExecutionState, u.states.execution, to, req.author)]),
        PutRef(u.identity, u.identity.typ, u.identity.version, ctx.project, ctx.sourceRepo))
  }

  lemma WorkItemMoves(u: Unit, to: Value, ctx: Context, req: Request)
    requires u.identity.typ in {Sto, Ts, Bug, Td, Ch, Spk}
    ensures DomainOf(u.identity.typ) == ExecutionState && Moves(u, to, ctx, req) == WorkItemPut(u, to, ctx, req)
  {
    OwnedIff(u.identity.typ, ContentState);
  }

  ghost predicate WorkItemMoveIs(s: Archive, ctx: Context, req: Request, u: Unit, to: Value) {
    && Goes(u.states.execution, req, to) && NotesLet(s, ctx, LineOf(u.identity), to)
    && (IsRegisteredRead(s, ctx.project, LineOf(u.identity)) || req.confirmed)
  }

  lemma WorkItemDecided(s: Archive, ctx: Context, req: Request, u: Unit, puts: seq<Put>)
    requires DomainOf(u.identity.typ) == ExecutionState
    ensures DecideFor(s, ctx, req, u) == Ok(puts) <==>
            exists to ::
              && WorkItemTo(u.states.execution, req) == Ok(to) && puts == [Moves(u, to, ctx, req)]
              && NotesAllow(s, ctx.project, LineOf(u.identity), ctx.role, ctx.drafts, to)
              && (RegisteredActive(s, ctx.project, LineOf(u.identity)) || req.confirmed)
  {
  }

  // A work item moves exactly along the table, past the notes, and registered or confirmed.
  lemma WorkItemIff(s: Archive, ctx: Context, req: Request, u: Unit, puts: seq<Put>)
    requires u.identity.typ in {Sto, Ts, Bug, Td, Ch, Spk}
    ensures DecideFor(s, ctx, req, u) == Ok(puts) <==>
            exists to :: WorkItemMoveIs(s, ctx, req, u, to) && puts == [WorkItemPut(u, to, ctx, req)]
  {
    OwnedIff(u.identity.typ, ContentState);
    WorkItemDecided(s, ctx, req, u, puts);
    forall to
      ensures WorkItemMoveIs(s, ctx, req, u, to) && puts == [WorkItemPut(u, to, ctx, req)] <==>
              && WorkItemTo(u.states.execution, req) == Ok(to) && puts == [Moves(u, to, ctx, req)]
              && NotesAllow(s, ctx.project, LineOf(u.identity), ctx.role, ctx.drafts, to)
              && (RegisteredActive(s, ctx.project, LineOf(u.identity)) || req.confirmed)
    {
      WorkItemMoveRead(s, ctx, req, u, to);
      WorkItemMoves(u, to, ctx, req);
    }
  }

  lemma WorkItemMoveRead(s: Archive, ctx: Context, req: Request, u: Unit, to: Value)
    ensures WorkItemMoveIs(s, ctx, req, u, to) <==>
            && WorkItemTo(u.states.execution, req) == Ok(to)
            && NotesAllow(s, ctx.project, LineOf(u.identity), ctx.role, ctx.drafts, to)
            && (RegisteredActive(s, ctx.project, LineOf(u.identity)) || req.confirmed)
  {
    RegisteredIff(s, ctx.project, LineOf(u.identity));
    GoesIff(u.states.execution, req, to);
    NotesIff(s, ctx, LineOf(u.identity), to);
  }

  // ---- plans ----

  // f is an active container of the project whose only plan is the line.
  ghost predicate ActiveOn(s: Archive, project: string, plan: Line, f: Identity) {
    && f.typ == Ctr && IsCurrentIn(s, project, LineOf(f), f) && UnitAt(s, f).states.container == Active
    && NamesPlan(UnitAt(s, f), plan) && forall m :: NamesPlan(UnitAt(s, f), m) ==> m == plan
  }

  lemma ActiveOnIff(s: Archive, project: string, plan: Line, f: Identity)
    ensures ActiveOnPlan(s, project, plan, f) <==> ActiveOn(s, project, plan, f)
  {
    TopInIsCurrent(s, project, LineOf(f), f);
    if f in s.refs { PlanOfIff(UnitAt(s, f), plan); }
  }

  function PlanPut(u: Unit, to: Value, ctx: Context, req: Request): Put {
    Put(u.(states := u.states.(planning := to), updated := ctx.today,
           changeLog := u.changeLog + [Entry(ctx.today, PlanningState, u.states.planning, to, req.author)]),
        PutRef(u.identity, u.identity.typ, u.identity.version, ctx.project, ctx.sourceRepo))
  }

  ghost predicate PlanMoveIs(s: Archive, ctx: Context, req: Request, u: Unit, to: Value) {
    && PlanGoes(u.states.planning, req, to)
    && (to == Superseded ==> forall f :: !ActiveOn(s, ctx.project, LineOf(u.identity), f))
  }

  lemma PlanMoves(u: Unit, to: Value, ctx: Context, req: Request)
    requires u.identity.typ == Plan
    ensures Moves(u, to, ctx, req) == PlanPut(u, to, ctx, req)
  {
  }

  // Where a request takes a plan.
  predicate PlanGoes(from: Value, req: Request, to: Value) {
    && !req.backward && (req.forward || req.to == to)
    && ((from == Draft && to == Approved) || (from == Immutable && to == Superseded))
  }

  lemma PlanGoesIff(from: Value, req: Request, to: Value)
    ensures PlanTo(from, req) == Ok(to) <==> PlanGoes(from, req, to)
  {
  }

  lemma PlanBusyIff(s: Archive, project: string, plan: Line)
    ensures PlanBusy(s, project, plan) <==> exists f :: ActiveOn(s, project, plan, f)
  {
    forall f
      ensures ActiveOnPlan(s, project, plan, f) <==> ActiveOn(s, project, plan, f)
    {
      ActiveOnIff(s, project, plan, f);
    }
  }

  // A plan is approved from draft, and retired from immutable without an active container on it.
  lemma PlanIff(s: Archive, ctx: Context, req: Request, u: Unit, puts: seq<Put>)
    requires u.identity.typ == Plan
    ensures DecideFor(s, ctx, req, u) == Ok(puts) <==>
            exists to :: PlanMoveIs(s, ctx, req, u, to) && puts == [PlanPut(u, to, ctx, req)]
  {
    PlanBusyIff(s, ctx.project, LineOf(u.identity));
    forall to
      ensures PlanTo(u.states.planning, req) == Ok(to) <==> PlanGoes(u.states.planning, req, to)
      ensures Moves(u, to, ctx, req) == PlanPut(u, to, ctx, req)
    {
      PlanGoesIff(u.states.planning, req, to);
      PlanMoves(u, to, ctx, req);
    }
    PlanDecided(s, ctx, req, u, puts);
  }

  lemma PlanDecided(s: Archive, ctx: Context, req: Request, u: Unit, puts: seq<Put>)
    requires u.identity.typ == Plan
    ensures DecideFor(s, ctx, req, u) == Ok(puts) <==>
            exists to :: PlanTo(u.states.planning, req) == Ok(to) && puts == [Moves(u, to, ctx, req)]
                         && (to == Superseded ==> !PlanBusy(s, ctx.project, LineOf(u.identity)))
  {
  }

  // ---- artifacts with a content state ----

  // The next value of the artifact's variant.
  predicate IsNext(t: TypeToken, from: Value, to: Value) {
    if t == Adr then (from == Proposed && to == Accepted) || (from == Accepted && to == Superseded)
    else if t == Dec then (from == Draft && to == Accepted) || (from == Accepted && to == Superseded)
    else (from == Draft && to == Review) || (from == Review && to == Approved) || (from == Approved && to == Amended)
  }

  // Another unit of the project supersedes the instance, or its line.
  ghost predicate SupersededBy(s: Archive, project: string, i: Identity, f: Identity, k: nat, ref: Reference) {
    && f in s.refs && s.refs[f].project == project && f != i
    && RefAt(UnitAt(s, f), k, "supersedes", ref)
    && ref.ns == i.ns && ref.typ == i.typ && ref.id == i.id && (ref.version == None || ref.version == Some(i.version))
  }

  lemma SupersedesIs(u: Unit, i: Identity, k: nat)
    ensures HitAt(u.relationships, SupersedesBy(u, i), k) <==>
            exists ref :: RefAt(u, k, "supersedes", ref) && ref.ns == i.ns && ref.typ == i.typ && ref.id == i.id
                          && (ref.version == None || ref.version == Some(i.version))
  {
    if k < |u.relationships| { NamedLineIs(u, k, "supersedes", LineOf(i)); }
  }

  lemma SupersederIff(s: Archive, project: string, i: Identity)
    ensures HasSuperseder(s, project, i) <==> exists f, k, ref :: SupersededBy(s, project, i, f, k, ref)
  {
    if HasSuperseder(s, project, i) {
      var f :| f in ProjectForms(s, project) && f != i && Supersedes(UnitAt(s, f), i);
      HitsIff(UnitAt(s, f).relationships, SupersedesBy(UnitAt(s, f), i));
      var k: nat :| HitAt(UnitAt(s, f).relationships, SupersedesBy(UnitAt(s, f), i), k);
      SupersedesIs(UnitAt(s, f), i, k);
      var ref :| RefAt(UnitAt(s, f), k, "supersedes", ref) && ref.ns == i.ns && ref.typ == i.typ && ref.id == i.id
                 && (ref.version == None || ref.version == Some(i.version));
      assert SupersededBy(s, project, i, f, k, ref);
    }
    if exists f, k, ref :: SupersededBy(s, project, i, f, k, ref) {
      var f, k, ref :| SupersededBy(s, project, i, f, k, ref);
      SupersedesIs(UnitAt(s, f), i, k);
      HitsIff(UnitAt(s, f).relationships, SupersedesBy(UnitAt(s, f), i));
      assert f in ProjectForms(s, project);
    }
  }

  function ContentPut(u: Unit, to: Value, ctx: Context, req: Request): Put {
    Put(u.(states := u.states.(content := to), updated := ctx.today,
           changeLog := u.changeLog + [Entry(ctx.today, ContentState, u.states.content, to, req.author)]),
        PutRef(u.identity, u.identity.typ, u.identity.version, ctx.project, ctx.sourceRepo))
  }

  ghost predicate ContentMoveIs(s: Archive, ctx: Context, req: Request, u: Unit, to: Value) {
    && !req.backward && (req.forward || req.to == to) && IsNext(u.identity.typ, u.states.content, to)
    && (u.identity.typ == Adr && to == Superseded ==>
          exists f, k, ref :: SupersededBy(s, ctx.project, u.identity, f, k, ref))
  }

  lemma ContentMoves(u: Unit, to: Value, ctx: Context, req: Request)
    requires OwnsDomain(u.identity.typ, ContentState) && u.identity.typ != Plan
    ensures DomainOf(u.identity.typ) == ContentState && Moves(u, to, ctx, req) == ContentPut(u, to, ctx, req)
  {
    OwnedIff(u.identity.typ, ContentState);
  }

  predicate StepsInThree(a: Value, b: Value, c: Value, from: Value, to: Value) {
    (from == a && to == b) || (from == b && to == c)
  }

  // One place on among the positions of four values.
  predicate OneOn(i: int, j: int) {
    0 <= i && j == i + 1
  }

  predicate StepsInFour(a: Value, b: Value, c: Value, d: Value, from: Value, to: Value) {
    (from == a && to == b) || (from == b && to == c) || (from == c && to == d)
  }

  // to stands right behind from.
  predicate IsBehind(values: seq<Value>, from: Value, to: Value) {
    0 <= IndexOf(values, from) && IndexOf(values, to) == IndexOf(values, from) + 1
  }

  lemma ThreeSteps(values: seq<Value>, a: Value, b: Value, c: Value, from: Value, to: Value)
    requires a != b && b != c && a != c && values == [a, b, c]
    ensures IsBehind(values, from, to) <==> StepsInThree(a, b, c, from, to)
  {
    ThreePositions(a, b, c, from);
    ThreePositions(a, b, c, to);
  }

  lemma FourPlaces(a: Value, b: Value, c: Value, d: Value, from: Value, to: Value)
    requires a != b && a != c && a != d && b != c && b != d && c != d
    ensures OneOn(PositionOf(from, a, b, c, d), PositionOf(to, a, b, c, d)) <==> StepsInFour(a, b, c, d, from, to)
  {
  }

  lemma FourSteps(values: seq<Value>, a: Value, b: Value, c: Value, d: Value, from: Value, to: Value)
    requires a != b && a != c && a != d && b != c && b != d && c != d && values == [a, b, c, d]
    ensures IsBehind(values, from, to) <==> StepsInFour(a, b, c, d, from, to)
  {
    FourPlaces(a, b, c, d, from, to);
    FourPositions(a, b, c, d, from);
    FourPositions(a, b, c, d, to);
    assert IsBehind(values, from, to) <==> OneOn(PositionOf(from, a, b, c, d), PositionOf(to, a, b, c, d));
  }

  lemma NextIff(t: TypeToken, values: seq<Value>, from: Value, to: Value)
    requires values == ContentVariant(t)
    ensures IsBehind(values, from, to) <==> IsNext(t, from, to)
  {
    if t == Adr {
      ThreeSteps(values, Proposed, Accepted, Superseded, from, to);
    } else if t == Dec {
      ThreeSteps(values, Draft, Accepted, Superseded, from, to);
    } else {
      FourSteps(values, Draft, Review, Approved, Amended, from, to);
    }
  }

  predicate Apart(values: seq<Value>) {
    forall i, j :: 0 <= i < j < |values| ==> values[i] != values[j]
  }

  // In a list without repetitions the value behind from is the one at the next position.
  lemma BehindIs(values: seq<Value>, from: Value, to: Value)
    requires Apart(values)
    ensures IsBehind(values, from, to) <==>
            0 <= IndexOf(values, from) < |values| - 1 && to == values[IndexOf(values, from) + 1]
  {
  }

  lemma VariantApart(t: TypeToken)
    ensures Apart(ContentVariant(t))
  {
  }

  lemma NextAhead(values: seq<Value>, from: Value, req: Request, to: Value)
    requires Apart(values) && req.forward && !req.backward
    ensures NextTo(values, from, req) == Ok(to) <==> IsBehind(values, from, to)
  {
    var i := IndexOf(values, from);
    if 0 <= i < |values| - 1 {
      var v := values[i + 1];
      BehindIs(values, from, v);
      assert NextTo(values, from, req) == Ok(v);
    }
    BehindIs(values, from, to);
  }

  lemma NextNamed(values: seq<Value>, from: Value, req: Request, to: Value)
    requires !req.forward && !req.backward
    ensures NextTo(values, from, req) == Ok(to) <==> req.to == to && IsBehind(values, from, to)
  {
  }

  lemma NextGoes(values: seq<Value>, from: Value, req: Request, to: Value)
    requires Apart(values)
    ensures NextTo(values, from, req) == Ok(to) <==>
            !req.backward && (req.forward || req.to == to) && IsBehind(values, from, to)
  {
    if !req.backward {
      if req.forward { NextAhead(values, from, req, to); } else { NextNamed(values, from, req, to); }
    }
  }

  lemma ContentGoes(t: TypeToken, values: seq<Value>, from: Value, req: Request, to: Value)
    requires values == DomainValues(ContentState, t)
    ensures ContentTo(t, from, req) == Ok(to) <==>
            !req.backward && (req.forward || req.to == to) && IsBehind(values, from, to)
  {
    VariantApart(t);
    NextGoes(values, from, req, to);
  }

  lemma ContentGoesIff(t: TypeToken, from: Value, req: Request, to: Value)
    ensures ContentTo(t, from, req) == Ok(to) <==>
            !req.backward && (req.forward || req.to == to) && IsNext(t, from, to)
  {
    ContentGoes(t, DomainValues(ContentState, t), from, req, to);
    NextIff(t, DomainValues(ContentState, t), from, to);
  }

  // An artifact takes the next value of its variant; a decision record is superseded only with a replacement.
  lemma ContentIff(s: Archive, ctx: Context, req: Request, u: Unit, puts: seq<Put>)
    requires OwnsDomain(u.identity.typ, ContentState) && u.identity.typ != Plan
    ensures DecideFor(s, ctx, req, u) == Ok(puts) <==>
            exists to :: ContentMoveIs(s, ctx, req, u, to) && puts == [ContentPut(u, to, ctx, req)]
  {
    SupersederIff(s, ctx.project, u.identity);
    forall to
      ensures ContentTo(u.identity.typ, u.states.content, req) == Ok(to) <==>
              !req.backward && (req.forward || req.to == to) && IsNext(u.identity.typ, u.states.content, to)
      ensures DomainOf(u.identity.typ) == ContentState && Moves(u, to, ctx, req) == ContentPut(u, to, ctx, req)
    {
      ContentGoesIff(u.identity.typ, u.states.content, req, to);
      ContentMoves(u, to, ctx, req);
    }
    ContentDecided(s, ctx, req, u, puts);
  }

  lemma ContentDecided(s: Archive, ctx: Context, req: Request, u: Unit, puts: seq<Put>)
    requires DomainOf(u.identity.typ) == ContentState
    ensures DecideFor(s, ctx, req, u) == Ok(puts) <==>
            exists to :: ContentTo(u.identity.typ, u.states.content, req) == Ok(to) && puts == [Moves(u, to, ctx, req)]
                         && (u.identity.typ == Adr && to == Superseded ==> HasSuperseder(s, ctx.project, u.identity))
  {
  }

  // ---- containers ----

  function ContainerPut(u: Unit, to: Value, ctx: Context, req: Request): Put {
    Put(u.(states := u.states.(container := to), updated := ctx.today,
           changeLog := u.changeLog + [Entry(ctx.today, ContainerState, u.states.container, to, req.author)]),
        PutRef(u.identity, u.identity.typ, u.identity.version, ctx.project, ctx.sourceRepo))
  }

  lemma ContainerMoves(u: Unit, to: Value, ctx: Context, req: Request)
    requires u.identity.typ == Ctr
    ensures Moves(u, to, ctx, req) == ContainerPut(u, to, ctx, req)
  {
  }

  // Another container line of the project is active in its current instance.
  ghost predicate OtherContainer(s: Archive, ctx: Context, u: Unit, f: Identity) {
    && f.typ == Ctr && IsCurrentIn(s, ctx.project, LineOf(f), f) && UnitAt(s, f).states.container == Active
    && LineOf(f) != LineOf(u.identity)
  }

  lemma OtherContainerIs(s: Archive, ctx: Context, u: Unit, f: Identity)
    ensures OtherContainer(s, ctx, u, f) <==> OtherActive(s, ctx, u, f, true) || OtherActive(s, ctx, u, f, false)
    ensures OtherActive(s, ctx, u, f, true) <==> OtherContainer(s, ctx, u, f) && s.refs[f].sourceRepo == ctx.sourceRepo
  {
    TopInIsCurrent(s, ctx.project, LineOf(f), f);
  }

  // Every other active container belongs to another repository and shares no line of its closure.
  ghost predicate Free(s: Archive, ctx: Context, u: Unit) {
    forall f :: OtherContainer(s, ctx, u, f) ==>
      s.refs[f].sourceRepo != ctx.sourceRepo && DisjointClosures(s, u, UnitAt(s, f))
  }

  lemma FreeIff(s: Archive, ctx: Context, u: Unit)
    ensures Free(s, ctx, u) <==> !IsRepoBusy(s, ctx, u) && !IsClosureShared(s, ctx, u)
  {
    forall f
      ensures OtherContainer(s, ctx, u, f) <==> OtherActive(s, ctx, u, f, true) || OtherActive(s, ctx, u, f, false)
      ensures OtherActive(s, ctx, u, f, true) <==> OtherContainer(s, ctx, u, f) && s.refs[f].sourceRepo == ctx.sourceRepo
    {
      OtherContainerIs(s, ctx, u, f);
    }
  }

  // q is the current instance of the container's only plan.
  ghost predicate HasPlan(s: Archive, u: Unit, q: Identity) {
    IsCurrent(s, LineOf(q), q) && NamesPlan(u, LineOf(q)) && forall m :: NamesPlan(u, m) ==> m == LineOf(q)
  }

  lemma HasPlanIff(s: Archive, u: Unit, q: Identity)
    ensures HasPlan(s, u, q) <==> PlanOf(u) == ThePlan(LineOf(q)) && Top(s.refs.Keys, LineOf(q)) == Some(q)
  {
    PlanOfIff(u, LineOf(q));
    TopIsCurrent(s, LineOf(q), q);
  }

  // The container is activated alone on a locked plan, or together with the lock of an approved one.
  ghost predicate ActivationIs(s: Archive, ctx: Context, req: Request, u: Unit, q: Identity, puts: seq<Put>) {
    && Free(s, ctx, u) && HasPlan(s, u, q)
    && ((UnitAt(s, q).states.planning == Immutable && puts == [ContainerPut(u, Active, ctx, req)])
        || (UnitAt(s, q).states.planning == Approved
            && puts == [ContainerPut(u, Active, ctx, req), PlanPut(UnitAt(s, q), Immutable, ctx, req)]))
  }

  lemma LockIs(s: Archive, ctx: Context, req: Request, u: Unit, q: Identity, puts: seq<Put>)
    requires Coherent(s) && u.identity.typ == Ctr && q.typ == Plan && Top(s.refs.Keys, LineOf(q)) == Some(q) && q in s.refs
    ensures LockPlan(s, ctx, req, u, LineOf(q)) == Ok(puts) <==>
              || (UnitAt(s, q).states.planning == Immutable && puts == [ContainerPut(u, Active, ctx, req)])
              || (UnitAt(s, q).states.planning == Approved
                  && puts == [ContainerPut(u, Active, ctx, req), PlanPut(UnitAt(s, q), Immutable, ctx, req)])
  {
    ContainerMoves(u, Active, ctx, req);
    PlanMoves(UnitAt(s, q), Immutable, ctx, req);
  }

  lemma ActivationIff(s: Archive, ctx: Context, req: Request, u: Unit, puts: seq<Put>)
    requires Coherent(s) && u.identity.typ == Ctr
    ensures DecideActivation(s, ctx, req, u) == Ok(puts) <==> exists q :: ActivationIs(s, ctx, req, u, q, puts)
  {
    FreeIff(s, ctx, u);
    if DecideActivation(s, ctx, req, u) == Ok(puts) {
      PlanIsPlan(u);
      var plan := PlanOf(u).line;
      TopNone(s.refs.Keys, plan);
      var q := Top(s.refs.Keys, plan).value;
      HasPlanIff(s, u, q);
      LockIs(s, ctx, req, u, q, puts);
      assert ActivationIs(s, ctx, req, u, q, puts);
    }
    if exists q :: ActivationIs(s, ctx, req, u, q, puts) {
      var q :| ActivationIs(s, ctx, req, u, q, puts);
      HasPlanIff(s, u, q);
      LockIs(s, ctx, req, u, q, puts);
    }
  }

  predicate ContainerGoes(from: Value, req: Request, to: Value) {
    && !req.backward && (req.forward || req.to == to)
    && ((from == Planned && to == Active) || (from == Active && to == Completed))
  }

  lemma ContainerGoesIff(from: Value, req: Request, to: Value)
    requires !(req.forward && req.backward) && (req.to != Absent ==> !req.forward && !req.backward)
    ensures ContainerTo(from, req) == Ok(to) <==> ContainerGoes(from, req, to)
  {
  }

  // A container is activated, or completed with no ticket of it standing for an open work item.
  lemma ContainerIff(s: Archive, ctx: Context, req: Request, u: Unit, puts: seq<Put>)
    requires Coherent(s) && u.identity.typ == Ctr
    requires !(req.forward && req.backward) && (req.to != Absent ==> !req.forward && !req.backward)
    ensures DecideFor(s, ctx, req, u) == Ok(puts) <==>
              || (ContainerGoes(u.states.container, req, Active) && exists q :: ActivationIs(s, ctx, req, u, q, puts))
              || (ContainerGoes(u.states.container, req, Completed) && !WorkOpen(s, ctx.project, LineOf(u.identity))
                  && puts == [ContainerPut(u, Completed, ctx, req)])
  {
    ActivationIff(s, ctx, req, u, puts);
    AllSettledIff(s, ctx.project, LineOf(u.identity));
    ContainerMoves(u, Completed, ctx, req);
    ContainerGoesIff(u.states.container, req, Active);
    ContainerGoesIff(u.states.container, req, Completed);
    ContainerDecided(s, ctx, req, u, puts);
  }

  lemma ContainerDecided(s: Archive, ctx: Context, req: Request, u: Unit, puts: seq<Put>)
    requires u.identity.typ == Ctr
    requires !(req.forward && req.backward) && (req.to != Absent ==> !req.forward && !req.backward)
    ensures DecideFor(s, ctx, req, u) == Ok(puts) <==>
              || (ContainerTo(u.states.container, req) == Ok(Active) && u.states.container == Planned
                  && DecideActivation(s, ctx, req, u) == Ok(puts))
              || (ContainerTo(u.states.container, req) == Ok(Completed) && u.states.container == Active
                  && AllSettled(s, ctx.project, LineOf(u.identity)) && puts == [Moves(u, Completed, ctx, req)])
  {
    ContainerGoesIff(u.states.container, req, Active);
    ContainerGoesIff(u.states.container, req, Completed);
    if ContainerTo(u.states.container, req).Ok? {
      ContainerGoesIff(u.states.container, req, ContainerTo(u.states.container, req).value);
    }
  }
}
