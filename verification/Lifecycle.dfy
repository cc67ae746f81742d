/** The lifecycle transitions (runtime/transition.go, runtime/container.go). */
module Lifecycle {
  import opened Taxonomy
  import opened Text
  import opened References
  import opened Units
  import opened PayloadStore
  import opened Queries
  import opened PlanClosure
  import opened Gates

  // The repository a request is made from, the day, and what the drafts directory holds on the target.
  // role tells the implementation notes.
  datatype Context = Context(
    ns: string, project: string, sourceRepo: string, today: string, drafts: seq<GateNote>, role: Unit -> bool)

  datatype Request = Request(
    target: string, to: Value, forward: bool, backward: bool, author: Author, confirmed: bool)

  datatype Refusal =
    | NoAuthority | ConflictingFlags
    | BadTarget | VersionedTarget | NotTransitionable | ForeignNamespace
    | NotFound | NoState
    | NoStep | NotInTable | ForwardOnly | Terminal | LockOnly
    | NotesMissing | NotRegistered
    | RepoBusy | SharedClosure | PlanUnresolved | PlanMissing | PlanRetired | PlanNotApproved
    | WorkPending | ContainersActive | NotReplaced

  // ---- the target ----

  predicate IsTransitionable(t: TypeToken) {
    IsWorkItem(t) || t == Plan || t == Ctr || OwnsContentState(t)
  }

  // The domain a transition of the type moves in.
  function DomainOf(t: TypeToken): Domain {
    if t == Plan then PlanningState
    else if t == Ctr then ContainerState
    else if OwnsContentState(t) then ContentState
    else ExecutionState
  }

  // The line a request addresses.
  function Addressed(ctx: Context, req: Request): Result<Line, Refusal> {
    if TrimSpace(req.author.name) == "" then Err(NoAuthority)
    else if (req.to != Absent && (req.forward || req.backward)) || (req.forward && req.backward) then Err(ConflictingFlags)
    else
      match ParseReference(req.target, "", None)
      case Err(_) => Err(BadTarget)
      case Ok(ref) =>
        if ref.version.Some? then Err(VersionedTarget)
        else if !IsTransitionable(ref.typ) then Err(NotTransitionable)
        else if ref.ns != "" && ref.ns != ctx.ns then Err(ForeignNamespace)
        else Ok(Line(ctx.ns, ref.typ, ref.id))
  }

  // ---- destinations ----

  function TransitionStep(from: Value, forward: bool): Option<Value> {
    if forward then
      match from
      case Planned => Some(Todo)
      case Todo => Some(InProgress)
      case InProgress => Some(InReview)
      case InReview => Some(Done)
      case Canceled => Some(Todo)
      case _ => None
    else
      match from
      case InReview => Some(InProgress)
      case InProgress => Some(Todo)
      case _ => None
  }

  function WorkItemTo(from: Value, req: Request): Result<Value, Refusal> {
    var to := if req.forward || req.backward then TransitionStep(from, req.forward) else Some(req.to);
    if to.None? then Err(NoStep)
    else if !IsLegalExecution(from, to.value) then Err(NotInTable)
    else Ok(to.value)
  }

  function PlanTo(from: Value, req: Request): Result<Value, Refusal> {
    if req.backward then Err(ForwardOnly)
    else if req.forward then
      match from
      case Draft => Ok(Approved)
      case Approved => Err(LockOnly)
      case Immutable => Ok(Superseded)
      case _ => Err(NoStep)
    else if from == Approved && req.to == Immutable then Err(LockOnly)
    else if (from == Immutable && req.to == Superseded) || (from == Draft && req.to == Approved) then Ok(req.to)
    else Err(NotInTable)
  }

  function ContainerTo(from: Value, req: Request): Result<Value, Refusal> {
    if req.backward then Err(ForwardOnly)
    else if req.forward && from == Completed then Err(Terminal)
    else
      var to := if req.forward && from == Planned then Active
                else if req.forward && from == Active then Completed
                else req.to;
      var values := DomainValues(ContainerState, Ctr);
      if (from == Planned && to == Active) || (from == Active && to == Completed) then Ok(to)
      else if IndexOf(values, to) <= IndexOf(values, from) then Err(ForwardOnly)
      else Err(NotInTable)
  }

  // One place forward along an ordered value set.
  function NextTo(values: seq<Value>, from: Value, req: Request): Result<Value, Refusal> {
    var i := IndexOf(values, from);
    if req.backward then Err(ForwardOnly)
    else if req.forward && (i < 0 || i + 1 >= |values|) then Err(NoStep)
    else
      var to := if req.forward then values[i + 1] else req.to;
      var j := IndexOf(values, to);
      if i >= 0 && j == i + 1 then Ok(to)
      else if i >= 0 && i == |values| - 1 then Err(Terminal)
      else if j < 0 then Err(NotInTable)
      else if j <= i then Err(ForwardOnly)
      else Err(NotInTable)
  }

  function ContentTo(t: TypeToken, from: Value, req: Request): Result<Value, Refusal> {
    NextTo(DomainValues(ContentState, t), from, req)
  }

  // ---- the published payload ----

  // The unit with its state moved and the move recorded.
  function Advanced(u: Unit, d: Domain, to: Value, author: Author, today: string): Unit {
    u.(states := SetState(u.states, d, to),
       updated := today,
       changeLog := u.changeLog + [Entry(today, d, StateOf(u, d), to, author)])
  }

  function PutOf(u: Unit, ctx: Context): Put {
    Put(u, PutRef(u.identity, u.identity.typ, u.identity.version, ctx.project, ctx.sourceRepo))
  }

  function Moves(u: Unit, to: Value, ctx: Context, req: Request): Put {
    PutOf(Advanced(u, DomainOf(u.identity.typ), to, req.author, ctx.today), ctx)
  }

  // ---- what a request publishes ----

  type Decision = Result<seq<Put>, Refusal>

  ghost function DecideWorkItem(s: Archive, ctx: Context, req: Request, u: Unit): Decision {
    match WorkItemTo(u.states.execution, req)
    case Err(e) => Err(e)
    case Ok(to) =>
      var line := LineOf(u.identity);
      if !NotesAllow(s, ctx.project, line, ctx.role, ctx.drafts, to) then Err(NotesMissing)
      else if !RegisteredActive(s, ctx.project, line) && !req.confirmed then Err(NotRegistered)
      else Ok([Moves(u, to, ctx, req)])
  }

  ghost predicate PlanBusy(s: Archive, project: string, plan: Line) {
    exists f :: ActiveOnPlan(s, project, plan, f)
  }

  ghost function DecidePlan(s: Archive, ctx: Context, req: Request, u: Unit): Decision {
    match PlanTo(u.states.planning, req)
    case Err(e) => Err(e)
    case Ok(to) =>
      if to == Superseded && PlanBusy(s, ctx.project, LineOf(u.identity)) then Err(ContainersActive)
      else Ok([Moves(u, to, ctx, req)])
  }

  ghost function DecideContent(s: Archive, ctx: Context, req: Request, u: Unit): Decision {
    match ContentTo(u.identity.typ, u.states.content, req)
    case Err(e) => Err(e)
    case Ok(to) =>
      if u.identity.typ == Adr && to == Superseded && !HasSuperseder(s, ctx.project, u.identity) then Err(NotReplaced)
      else Ok([Moves(u, to, ctx, req)])
  }

  // Another container of the same repository is active.
  ghost predicate OtherActive(s: Archive, ctx: Context, u: Unit, f: Identity, sameRepo: bool) {
    && f in s.refs && IsActive(s, ctx.project, f) && LineOf(f) != LineOf(u.identity)
    && (s.refs[f].sourceRepo == ctx.sourceRepo <==> sameRepo)
  }

  ghost predicate IsRepoBusy(s: Archive, ctx: Context, u: Unit) {
    exists f :: OtherActive(s, ctx, u, f, true)
  }

  ghost predicate IsClosureShared(s: Archive, ctx: Context, u: Unit) {
    exists f :: OtherActive(s, ctx, u, f, false) && !DisjointClosures(s, u, UnitAt(s, f))
  }

  ghost function LockPlan(s: Archive, ctx: Context, req: Request, u: Unit, plan: Line): Decision {
    var top := Top(s.refs.Keys, plan);
    if top.None? || top.value !in s.refs then Err(PlanMissing)
    else
      var p := UnitAt(s, top.value);
      match p.states.planning
      case Approved => Ok([Moves(u, Active, ctx, req), Moves(p, Immutable, ctx, req)])
      case Immutable => Ok([Moves(u, Active, ctx, req)])
      case Superseded => Err(PlanRetired)
      case _ => Err(PlanNotApproved)
  }

  ghost function DecideActivation(s: Archive, ctx: Context, req: Request, u: Unit): Decision {
    if IsRepoBusy(s, ctx, u) then Err(RepoBusy)
    else if IsClosureShared(s, ctx, u) then Err(SharedClosure)
    else
      match PlanOf(u)
      case ThePlan(plan) => LockPlan(s, ctx, req, u, plan)
      case _ => Err(PlanUnresolved)
  }

  ghost function DecideContainer(s: Archive, ctx: Context, req: Request, u: Unit): Decision {
    match ContainerTo(u.states.container, req)
    case Err(e) => Err(e)
    case Ok(to) =>
      if u.states.container == Planned then DecideActivation(s, ctx, req, u)
      else if !AllSettled(s, ctx.project, LineOf(u.identity)) then Err(WorkPending)
      else Ok([Moves(u, to, ctx, req)])
  }

  ghost function DecideFor(s: Archive, ctx: Context, req: Request, u: Unit): Decision {
    match DomainOf(u.identity.typ)
    case PlanningState => DecidePlan(s, ctx, req, u)
    case ContainerState => DecideContainer(s, ctx, req, u)
    case ContentState => DecideContent(s, ctx, req, u)
    case _ => DecideWorkItem(s, ctx, req, u)
  }

  // The puts a request leads to.
  ghost function Decide(s: Archive, ctx: Context, req: Request): Decision {
    match Addressed(ctx, req)
    case Err(e) => Err(e)
    case Ok(line) =>
      var top := Top(s.refs.Keys, line);
      if top.None? || top.value !in s.refs then Err(NotFound)
      else
        var u := UnitAt(s, top.value);
        if StateOf(u, DomainOf(u.identity.typ)) == Absent then Err(NoState)
        else DecideFor(s, ctx, req, u)
  }

  // ---- the operations ----

  method TransitionWorkItem(st: Store, ctx: Context, req: Request, u: Unit) returns (puts: Decision)
    ensures puts == DecideWorkItem(st.State(), ctx, req, u)
  {
    var to := WorkItemTo(u.states.execution, req);
    if to.Err? {
      return Err(to.error);
    }
    var allowed := NoteGate(st, ctx.project, LineOf(u.identity), ctx.role, ctx.drafts, to.value);
    if !allowed {
      return Err(NotesMissing);
    }
    var registered := IsRegistered(st, ctx.project, LineOf(u.identity));
    if !registered && !req.confirmed {
      return Err(NotRegistered);
    }
    return Ok([Moves(u, to.value, ctx, req)]);
  }

  method TransitionPlan(st: Store, ctx: Context, req: Request, u: Unit) returns (puts: Decision)
    ensures puts == DecidePlan(st.State(), ctx, req, u)
  {
    var to := PlanTo(u.states.planning, req);
    if to.Err? {
      return Err(to.error);
    }
    if to.value == Superseded {
      var offenders := ActiveContainersForPlan(st, ctx.project, LineOf(u.identity));
      if offenders != {} {
        var f :| f in offenders;
        assert ActiveOnPlan(st.State(), ctx.project, LineOf(u.identity), f);
        return Err(ContainersActive);
      }
    }
    return Ok([Moves(u, to.value, ctx, req)]);
  }

  method TransitionContent(st: Store, ctx: Context, req: Request, u: Unit) returns (puts: Decision)
    ensures puts == DecideContent(st.State(), ctx, req, u)
  {
    var to := ContentTo(u.identity.typ, u.states.content, req);
    if to.Err? {
      return Err(to.error);
    }
    if u.identity.typ == Adr && to.value == Superseded {
      var replaced := FindSuperseder(st, ctx.project, u.identity);
      if !replaced {
        return Err(NotReplaced);
      }
    }
    return Ok([Moves(u, to.value, ctx, req)]);
  }

  // The other active containers, told apart by repository.
  method SplitByRepo(st: Store, ctx: Context, u: Unit) returns (sameRepo: set<Identity>, crossRepo: set<Identity>)
    ensures forall f :: f in sameRepo <==> OtherActive(st.State(), ctx, u, f, true)
    ensures forall f :: f in crossRepo <==> OtherActive(st.State(), ctx, u, f, false)
  {
    var others := OtherActiveContainers(st, ctx.project, LineOf(u.identity));
    sameRepo := set f | f in others && f in st.refs && st.refs[f].sourceRepo == ctx.sourceRepo;
    crossRepo := others - sameRepo;
    assert forall f :: f in others ==> IsActive(st.State(), ctx.project, f) && f in st.refs;
  }

  ghost predicate ClosureApart(s: Archive, u: Unit, f: Identity) {
    f in s.refs && DisjointClosures(s, u, UnitAt(s, f))
  }

  ghost predicate AllApart(s: Archive, u: Unit, others: set<Identity>) {
    forall f :: f in others ==> ClosureApart(s, u, f)
  }

  lemma SharedIffNotApart(s: Archive, ctx: Context, u: Unit, crossRepo: set<Identity>)
    requires forall f :: f in crossRepo <==> OtherActive(s, ctx, u, f, false)
    ensures IsClosureShared(s, ctx, u) <==> !AllApart(s, u, crossRepo)
  {
    if IsClosureShared(s, ctx, u) {
      var f :| OtherActive(s, ctx, u, f, false) && !DisjointClosures(s, u, UnitAt(s, f));
      assert f in crossRepo && !ClosureApart(s, u, f);
    }
    if !AllApart(s, u, crossRepo) {
      var f :| f in crossRepo && !ClosureApart(s, u, f);
      assert OtherActive(s, ctx, u, f, false);
    }
  }

  method SharesClosure(st: Store, u: Unit, others: set<Identity>) returns (shared: bool)
    requires Coherent(st.State()) && others <= st.refs.Keys
    ensures shared <==> !AllApart(st.State(), u, others)
  {
    ghost var s := st.State();
    var todo := others;
    while todo != {}
      invariant todo <= others && AllApart(s, u, others - todo)
    {
      var f :| f in todo;
      var disjoint := ClosuresDisjoint(st, u, st.refs[f].hash.unit);
      assert disjoint <==> ClosureApart(s, u, f);
      if !disjoint {
        return true;
      }
      todo := todo - {f};
    }
    assert others - todo == others;
    return false;
  }

  method LockPlanPuts(st: Store, ctx: Context, req: Request, u: Unit, plan: Line) returns (puts: Decision)
    ensures puts == LockPlan(st.State(), ctx, req, u, plan)
  {
    var top := HighestInstance(st, plan);
    TopNone(st.refs.Keys, plan);
    if top.None? {
      return Err(PlanMissing);
    }
    var p := st.refs[top.value].hash.unit;
    if p.states.planning == Approved {
      return Ok([Moves(u, Active, ctx, req), Moves(p, Immutable, ctx, req)]);
    } else if p.states.planning == Superseded {
      return Err(PlanRetired);
    } else if p.states.planning != Immutable {
      return Err(PlanNotApproved);
    }
    return Ok([Moves(u, Active, ctx, req)]);
  }

  method ActivateContainer(st: Store, ctx: Context, req: Request, u: Unit) returns (puts: Decision)
    requires Coherent(st.State())
    ensures puts == DecideActivation(st.State(), ctx, req, u)
  {
    var sameRepo, crossRepo := SplitByRepo(st, ctx, u);
    if sameRepo != {} {
      var f :| f in sameRepo;
      return Err(RepoBusy);
    }
    assert crossRepo <= st.refs.Keys by {
      assert forall f :: f in crossRepo ==> OtherActive(st.State(), ctx, u, f, false);
    }
    SharedIffNotApart(st.State(), ctx, u, crossRepo);
    var shared := SharesClosure(st, u, crossRepo);
    if shared {
      return Err(SharedClosure);
    }
    var plan := ResolveDependsOnPlan(u);
    if !plan.ThePlan? {
      return Err(PlanUnresolved);
    }
    puts := LockPlanPuts(st, ctx, req, u, plan.line);
  }

  method TransitionContainer(st: Store, ctx: Context, req: Request, u: Unit) returns (puts: Decision)
    requires Coherent(st.State())
    ensures puts == DecideContainer(st.State(), ctx, req, u)
  {
    var to := ContainerTo(u.states.container, req);
    if to.Err? {
      return Err(to.error);
    }
    if u.states.container == Planned {
      puts := ActivateContainer(st, ctx, req, u);
      return;
    }
    var pending := PendingItems(st, ctx.project, LineOf(u.identity));
    if pending {
      return Err(WorkPending);
    }
    return Ok([Moves(u, to.value, ctx, req)]);
  }

  method DecideTransition(st: Store, ctx: Context, req: Request) returns (puts: Decision)
    requires Coherent(st.State())
    ensures puts == Decide(st.State(), ctx, req)
  {
    var line := Addressed(ctx, req);
    if line.Err? {
      return Err(line.error);
    }
    var top := HighestInstance(st, line.value);
    TopNone(st.refs.Keys, line.value);
    if top.None? {
      return Err(NotFound);
    }
    var u := st.refs[top.value].hash.unit;
    var d := DomainOf(u.identity.typ);
    if StateOf(u, d) == Absent {
      return Err(NoState);
    }
    match d
    case PlanningState => puts := TransitionPlan(st, ctx, req, u);
    case ContainerState => puts := TransitionContainer(st, ctx, req, u);
    case ContentState => puts := TransitionContent(st, ctx, req, u);
    case _ => puts := TransitionWorkItem(st, ctx, req, u);
  }

  // One transition: a refusal publishes nothing; otherwise all puts land in one step.
  method Transition(st: Store, ctx: Context, req: Request) returns (outcome: Result<seq<Digest>, Refusal>)
    requires Coherent(st.State())
    modifies st
    ensures match Decide(old(st.State()), ctx, req)
            case Err(e) => outcome == Err(e) && st.State() == old(st.State())
            case Ok(puts) =>
              && outcome.Ok? && |outcome.value| == |puts|
              && (forall i :: 0 <= i < |puts| ==> outcome.value[i] == HashUnit(puts[i].unit))
              && st.State() == PutAll(old(st.State()), puts)
  {
    var decision := DecideTransition(st, ctx, req);
    if decision.Err? {
      return Err(decision.error);
    }
    var hashes := st.PutUnits(decision.value);
    return Ok(hashes);
  }
}
