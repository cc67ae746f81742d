/** Over every run, change logs grow and no transition is swallowed (runtime/transition.go, runtime/relate.go,
    store/payloads.go). */
module LifecycleRuns {
  import opened Ordering
  import opened Taxonomy
  import opened Text
  import opened References
  import opened Units
  import opened PayloadStore
  import opened Queries
  import opened PlanClosure
  import opened Lineage
  import opened Lifecycle
  import opened Relate

  // ---- payloads grow ----

  // The change log of v extends that of u, and no relationship is lost.
  ghost predicate Grows(u: Unit, v: Unit) {
    u.changeLog <= v.changeLog && Elems(u.relationships) <= Elems(v.relationships)
  }

  ghost predicate GrowsStrictly(u: Unit, v: Unit) {
    Grows(u, v) && (|u.changeLog| < |v.changeLog| || Elems(u.relationships) != Elems(v.relationships))
  }

  // The payload is below the current one of its form, and above its predecessor.
  ghost predicate InOrder(s: Archive, h: Digest)
    requires h in s.rows
  {
    && Form(h) in s.refs && Grows(h.unit, s.refs[Form(h)].hash.unit)
    && (s.rows[h].prev.Some? ==> Grows(s.rows[h].prev.value.unit, h.unit))
  }

  ghost predicate Growing(s: Archive) {
    Linear(s) && forall h :: h in s.rows ==> InOrder(s, h)
  }

  lemma GrowingIsCoherent(s: Archive)
    requires Growing(s)
    ensures Coherent(s)
  {
    forall f | f in s.refs
      ensures s.refs[f].hash in s.rows && s.refs[f].hash.unit.identity == f
    {
      assert RefSound(s, f);
    }
  }

  // ---- puts that extend the current payload ----

  // The first put of a form, or a put of strictly more than the current payload.
  ghost predicate Extends(s: Archive, p: Put) {
    Named(p) && (p.ref.form in s.refs ==> GrowsStrictly(UnitAt(s, p.ref.form), p.unit))
  }

  // The put was not swallowed: the reference moved to it, on behalf of the given project and repository.
  ghost predicate Landed(s: Archive, p: Put, o: Outcome) {
    && !o.keptNewer && Moved(s, p, o.archive)
    && o.archive.refs[p.ref.form].project == p.ref.project
    && o.archive.refs[p.ref.form].sourceRepo == p.ref.sourceRepo
  }

  lemma GrowthIsOneWay(u: Unit, v: Unit)
    ensures !(Grows(u, v) && GrowsStrictly(v, u))
  {
  }

  lemma ExtensionIsNew(s: Archive, p: Put)
    requires Growing(s) && Extends(s, p)
    ensures HashUnit(p.unit) !in s.rows
  {
    assert HashUnit(p.unit) in s.rows ==> InOrder(s, HashUnit(p.unit));
    if p.ref.form in s.refs { GrowthIsOneWay(p.unit, UnitAt(s, p.ref.form)); }
  }

  lemma KeptOrLands(s: Archive, p: Put, repoint: bool)
    requires p.ref.form in s.refs ==> HashUnit(p.unit) != s.refs[p.ref.form].hash
    ensures PutUnit(s, p, repoint).keptNewer || Landed(s, p, PutUnit(s, p, repoint))
    ensures p.ref.form !in s.refs ==> !PutUnit(s, p, repoint).keptNewer
    ensures p.ref.form in s.refs && s.refs[p.ref.form].version <= p.ref.version ==> !PutUnit(s, p, true).keptNewer
  {
  }

  lemma ExtensionLands(s: Archive, p: Put, repoint: bool)
    requires Growing(s) && Extends(s, p)
    ensures Landed(s, p, PutUnit(s, p, repoint))
  {
    ExtensionIsNew(s, p);
    if p.ref.form in s.refs {
      assert RefSound(s, p.ref.form);
      GuardIsMembership(s, p);
    }
    KeptOrLands(s, p, repoint);
  }

  lemma ExtensionKeepsGrowing(s: Archive, p: Put, repoint: bool)
    requires Growing(s) && Extends(s, p)
    ensures Growing(PutUnit(s, p, repoint).archive)
  {
    var t := PutUnit(s, p, repoint).archive;
    ExtensionIsNew(s, p);
    ExtensionLands(s, p, repoint);
    RepointKeepsLinearIff(s, p);
    PutKeepsLinear(s, p);
    PutShape(s, p, repoint);
    OrderAfter(s, p, t);
  }

  lemma OrderAfter(s: Archive, p: Put, t: Archive)
    requires Growing(s) && Extends(s, p) && HashUnit(p.unit) !in s.rows
    requires t.rows == Inserted(s, p) && Moved(s, p, t)
    ensures forall h :: h in t.rows ==> InOrder(t, h)
  {
    forall h | h in t.rows
      ensures InOrder(t, h)
    {
      if h in s.rows { assert InOrder(s, h); }
      if p.ref.form in s.refs { assert RefSound(s, p.ref.form); }
    }
  }

  // ---- what a transition publishes ----

  // p moves the current payload of its form.
  ghost predicate IsMove(s: Archive, ctx: Context, req: Request, p: Put) {
    p.ref.form in s.refs && exists to :: p == Moves(UnitAt(s, p.ref.form), to, ctx, req)
  }

  lemma MoveExtends(s: Archive, ctx: Context, req: Request, p: Put)
    requires Coherent(s) && IsMove(s, ctx, req, p)
    ensures Extends(s, p)
  {
  }

  // One move, or the activation of a container with the lock of its plan.
  ghost predicate IsBatch(s: Archive, ctx: Context, req: Request, puts: seq<Put>) {
    && 1 <= |puts| <= 2
    && (forall p :: p in puts ==> IsMove(s, ctx, req, p))
    && (|puts| == 2 ==> puts[0].ref.form.typ == Ctr && puts[1].ref.form.typ == Plan)
  }

  lemma MoveOf(s: Archive, ctx: Context, req: Request, f: Identity, to: Value)
    requires Coherent(s) && f in s.refs
    ensures IsMove(s, ctx, req, Moves(UnitAt(s, f), to, ctx, req))
  {
    assert UnitAt(s, f).identity == f;
  }

  lemma LockIsBatch(s: Archive, ctx: Context, req: Request, f: Identity, plan: Line)
    requires Coherent(s) && f in s.refs && f.typ == Ctr && plan.typ == Plan
    requires LockPlan(s, ctx, req, UnitAt(s, f), plan).Ok?
    ensures IsBatch(s, ctx, req, LockPlan(s, ctx, req, UnitAt(s, f), plan).value)
  {
    var top := Top(s.refs.Keys, plan);
    TopNone(s.refs.Keys, plan);
    MoveOf(s, ctx, req, f, Active);
    MoveOf(s, ctx, req, top.value, Immutable);
  }

  // A decision is taken on the current instance of a line.
  lemma DecidedOn(s: Archive, ctx: Context, req: Request) returns (f: Identity)
    requires Decide(s, ctx, req).Ok?
    ensures f in s.refs && IsTop(s.refs.Keys, LineOf(f), f) && IsTransitionable(f.typ)
    ensures TrimSpace(req.author.name) != ""
    ensures Decide(s, ctx, req) == DecideFor(s, ctx, req, UnitAt(s, f))
  {
    var line := Addressed(ctx, req).value;
    f := Top(s.refs.Keys, line).value;
    TopNone(s.refs.Keys, line);
  }

  lemma ContainerBatch(s: Archive, ctx: Context, req: Request, f: Identity)
    requires Coherent(s) && f in s.refs && f.typ == Ctr && DecideContainer(s, ctx, req, UnitAt(s, f)).Ok?
    ensures IsBatch(s, ctx, req, DecideContainer(s, ctx, req, UnitAt(s, f)).value)
  {
    var u := UnitAt(s, f);
    if u.states.container == Planned {
      PlanIsPlan(u);
      LockIsBatch(s, ctx, req, f, PlanOf(u).line);
    } else {
      MoveOf(s, ctx, req, f, ContainerTo(u.states.container, req).value);
    }
  }

  lemma OtherBatch(s: Archive, ctx: Context, req: Request, f: Identity)
    requires Coherent(s) && f in s.refs && f.typ != Ctr && DecideFor(s, ctx, req, UnitAt(s, f)).Ok?
    ensures IsBatch(s, ctx, req, DecideFor(s, ctx, req, UnitAt(s, f)).value)
  {
    var u := UnitAt(s, f);
    if f.typ == Plan {
      MoveOf(s, ctx, req, f, PlanTo(u.states.planning, req).value);
    } else if OwnsContentState(f.typ) {
      MoveOf(s, ctx, req, f, ContentTo(f.typ, u.states.content, req).value);
    } else {
      MoveOf(s, ctx, req, f, WorkItemTo(u.states.execution, req).value);
    }
  }

  lemma DecisionIsBatch(s: Archive, ctx: Context, req: Request)
    requires Coherent(s) && Decide(s, ctx, req).Ok?
    ensures IsBatch(s, ctx, req, Decide(s, ctx, req).value)
  {
    var f := DecidedOn(s, ctx, req);
    if f.typ == Ctr {
      ContainerBatch(s, ctx, req, f);
    } else {
      OtherBatch(s, ctx, req, f);
    }
  }

  lemma PutAllOne(s: Archive, p: Put)
    ensures PutAll(s, [p]) == PutUnit(s, p, false).archive
  {
    assert [p][..0] == [];
  }

  lemma PutAllTwo(s: Archive, p: Put, q: Put)
    ensures PutAll(s, [p, q]) == PutUnit(PutUnit(s, p, false).archive, q, false).archive
  {
    assert [p, q][..1] == [p];
    PutAllOne(s, p);
  }

  // The i-th put of a batch is made where the earlier ones have left the store.
  ghost predicate LandsAt(s: Archive, puts: seq<Put>, i: nat)
    requires i < |puts|
  {
    Landed(PutAll(s, puts[..i]), puts[i], PutUnit(PutAll(s, puts[..i]), puts[i], false))
  }

  ghost predicate AllLand(s: Archive, puts: seq<Put>) {
    forall i :: 0 <= i < |puts| ==> LandsAt(s, puts, i)
  }

  // No put of a transition is swallowed by the store's guard, the lock of a plan included.
  lemma NothingSwallowed(s: Archive, ctx: Context, req: Request)
    requires Growing(s) && Decide(s, ctx, req).Ok?
    ensures var puts := Decide(s, ctx, req).value;
            IsBatch(s, ctx, req, puts) && AllLand(s, puts) && Growing(PutAll(s, puts))
  {
    var puts := Decide(s, ctx, req).value;
    GrowingIsCoherent(s);
    DecisionIsBatch(s, ctx, req);
    BatchLands(s, ctx, req, puts);
  }

  lemma MoveLands(s: Archive, ctx: Context, req: Request, p: Put)
    requires Growing(s) && IsMove(s, ctx, req, p)
    ensures Landed(s, p, PutUnit(s, p, false)) && Growing(PutUnit(s, p, false).archive)
  {
    GrowingIsCoherent(s);
    MoveExtends(s, ctx, req, p);
    ExtensionLands(s, p, false);
    ExtensionKeepsGrowing(s, p, false);
  }

  // A move of another form is still a move.
  lemma MoveStays(s: Archive, t: Archive, ctx: Context, req: Request, p: Put, q: Put)
    requires Moved(s, p, t) && IsMove(s, ctx, req, q) && q.ref.form != p.ref.form
    ensures IsMove(t, ctx, req, q)
  {
    assert UnitAt(t, q.ref.form) == UnitAt(s, q.ref.form);
  }

  // Where the puts of a batch are made.
  lemma BatchStarts(s: Archive, puts: seq<Put>)
    requires puts != []
    ensures PutAll(s, puts[..0]) == s && PutAll(s, puts[..1]) == PutUnit(s, puts[0], false).archive
  {
    assert puts[..1][..0] == puts[..0] == [];
  }

  lemma TwoMovesLand(s: Archive, ctx: Context, req: Request, p: Put, q: Put)
    requires Growing(s) && IsMove(s, ctx, req, p) && IsMove(s, ctx, req, q) && p.ref.form != q.ref.form
    ensures var mid := PutUnit(s, p, false).archive;
            && Landed(s, p, PutUnit(s, p, false)) && Growing(mid)
            && Landed(mid, q, PutUnit(mid, q, false)) && Growing(PutUnit(mid, q, false).archive)
  {
    var mid := PutUnit(s, p, false).archive;
    MoveLands(s, ctx, req, p);
    MoveStays(s, mid, ctx, req, p, q);
    MoveLands(mid, ctx, req, q);
  }

  lemma LandsOne(s: Archive, puts: seq<Put>)
    requires |puts| == 1 && Landed(s, puts[0], PutUnit(s, puts[0], false))
    ensures AllLand(s, puts) && PutAll(s, puts) == PutUnit(s, puts[0], false).archive
  {
    BatchStarts(s, puts);
    assert LandsAt(s, puts, 0);
  }

  lemma LandsBoth(s: Archive, puts: seq<Put>)
    requires |puts| == 2 && Landed(s, puts[0], PutUnit(s, puts[0], false))
    requires var mid := PutUnit(s, puts[0], false).archive; Landed(mid, puts[1], PutUnit(mid, puts[1], false))
    ensures AllLand(s, puts)
    ensures PutAll(s, puts) == PutUnit(PutUnit(s, puts[0], false).archive, puts[1], false).archive
  {
    BatchStarts(s, puts);
    assert LandsAt(s, puts, 0) && LandsAt(s, puts, 1);
  }

  lemma OneMoveBatch(s: Archive, ctx: Context, req: Request, puts: seq<Put>)
    requires Growing(s) && |puts| == 1 && IsMove(s, ctx, req, puts[0])
    ensures AllLand(s, puts) && Growing(PutAll(s, puts))
  {
    MoveLands(s, ctx, req, puts[0]);
    LandsOne(s, puts);
  }

  lemma TwoMoveBatch(s: Archive, ctx: Context, req: Request, puts: seq<Put>)
    requires Growing(s) && |puts| == 2 && IsMove(s, ctx, req, puts[0]) && IsMove(s, ctx, req, puts[1])
    requires puts[0].ref.form != puts[1].ref.form
    ensures AllLand(s, puts) && Growing(PutAll(s, puts))
  {
    TwoMovesLand(s, ctx, req, puts[0], puts[1]);
    LandsBoth(s, puts);
  }

  lemma BatchLands(s: Archive, ctx: Context, req: Request, puts: seq<Put>)
    requires Growing(s) && IsBatch(s, ctx, req, puts)
    ensures AllLand(s, puts) && Growing(PutAll(s, puts))
  {
    assert puts[0] in puts;
    if |puts| == 1 {
      OneMoveBatch(s, ctx, req, puts);
    } else {
      assert puts[1] in puts;
      TwoMoveBatch(s, ctx, req, puts);
    }
  }

  // ---- runs ----

  // A first publication, a transition, or a relate of a published line.
  datatype Event =
    | Publish(put: Put)
    | Transit(ctx: Context, req: Request)
    | Relating(line: Line, adds: seq<Relationship>, today: string, passes: Unit -> bool)

  ghost predicate WouldRelate(s: Archive, e: Event)
    requires e.Relating?
  {
    var top := Top(s.refs.Keys, e.line);
    top.Some? && top.value in s.refs && Relates(s, top.value, e.adds, e.today, e.passes)
  }

  ghost function After(s: Archive, e: Event): Archive {
    match e
    case Publish(p) => PutUnit(s, p, false).archive
    case Transit(ctx, req) => if Decide(s, ctx, req).Ok? then PutAll(s, Decide(s, ctx, req).value) else s
    case Relating(line, adds, today, _) =>
      if WouldRelate(s, e) then PutUnit(s, RelateTo(s, Top(s.refs.Keys, line).value, adds, today), true).archive else s
  }

  ghost function Reached(s: Archive, events: seq<Event>): Archive {
    if events == [] then s else After(Reached(s, events[..|events| - 1]), events[|events| - 1])
  }

  // Publications are of new forms.
  ghost predicate Fits(s: Archive, e: Event) {
    e.Publish? ==> Lineage.Named(e.put) && e.put.ref.form !in s.refs
  }

  ghost predicate LegalRun(s: Archive, events: seq<Event>) {
    events != [] ==>
      LegalRun(s, events[..|events| - 1]) && Fits(Reached(s, events[..|events| - 1]), events[|events| - 1])
  }

  // A relate publishes strictly more relationships, and is not swallowed either.
  lemma RelateExtends(s: Archive, f: Identity, adds: seq<Relationship>, today: string, passes: Unit -> bool)
    requires Growing(s) && f in s.refs && Relates(s, f, adds, today, passes)
    ensures var p := RelateTo(s, f, adds, today);
            && Extends(s, p) && Landed(s, p, PutUnit(s, p, true)) && p.unit.changeLog == UnitAt(s, f).changeLog
  {
    GrowingIsCoherent(s);
    var u, p := UnitAt(s, f), RelateTo(s, f, adds, today);
    var have := Elems(u.relationships);
    assert Elems(p.unit.relationships) == have + Requested(adds);
    NewEdgesAre(have, adds);
    ElemsEmpty(NewEdges(have, adds));
    ExtensionLands(s, p, true);
  }

  lemma AfterGrows(s: Archive, e: Event)
    requires Growing(s) && Fits(s, e)
    ensures Growing(After(s, e))
  {
    match e
    case Publish(p) =>
      ExtensionKeepsGrowing(s, p, false);
    case Transit(ctx, req) =>
      if Decide(s, ctx, req).Ok? { NothingSwallowed(s, ctx, req); }
    case Relating(line, adds, today, passes) =>
      if WouldRelate(s, e) {
        var f := Top(s.refs.Keys, line).value;
        RelateExtends(s, f, adds, today, passes);
        ExtensionKeepsGrowing(s, RelateTo(s, f, adds, today), true);
      }
  }

  lemma MovedLeavesOthers(s: Archive, p: Put, t: Archive, f: Identity)
    requires Moved(s, p, t) && f in s.refs && f != p.ref.form
    ensures f in t.refs && t.refs[f] == s.refs[f]
  {
  }

  lemma RelateKeepsStates(s: Archive, g: Identity, adds: seq<Relationship>, today: string, passes: Unit -> bool,
      f: Identity)
    requires Growing(s) && g in s.refs && f in s.refs && Relates(s, g, adds, today, passes)
    ensures var t := PutUnit(s, RelateTo(s, g, adds, today), true).archive;
            f in t.refs && UnitAt(t, f).states == UnitAt(s, f).states
  {
    var p := RelateTo(s, g, adds, today);
    RelateExtends(s, g, adds, today, passes);
    GrowingIsCoherent(s);
    if f != p.ref.form { MovedLeavesOthers(s, p, PutUnit(s, p, true).archive, f); }
  }

  // First publications and relates leave the states of every unit alone.
  lemma OnlyTransitionsMove(s: Archive, e: Event, f: Identity)
    requires Growing(s) && Fits(s, e) && f in s.refs && !e.Transit?
    ensures f in After(s, e).refs && UnitAt(After(s, e), f).states == UnitAt(s, f).states
  {
    match e
    case Publish(p) =>
      ExtensionLands(s, p, false);
      MovedLeavesOthers(s, p, After(s, e), f);
    case Relating(line, adds, today, passes) =>
      if WouldRelate(s, e) { RelateKeepsStates(s, Top(s.refs.Keys, line).value, adds, today, passes, f); }
  }

  // The current payload of the form only grows.
  ghost predicate Kept(s: Archive, t: Archive, f: Identity)
    requires f in s.refs
  {
    f in t.refs && Grows(UnitAt(s, f), UnitAt(t, f))
  }

  lemma OrderKeeps(s: Archive, t: Archive, f: Identity)
    requires Growing(s) && Growing(t) && Retained(s.rows, t.rows) && f in s.refs
    ensures Kept(s, t, f)
  {
    assert RefSound(s, f) && InOrder(t, s.refs[f].hash);
  }

  lemma AfterRetains(s: Archive, e: Event)
    ensures Retained(s.rows, After(s, e).rows)
  {
    match e
    case Publish(p) => PutRetains(s, p, false);
    case Transit(ctx, req) =>
      if Decide(s, ctx, req).Ok? { PutAllRetains(s, Decide(s, ctx, req).value); }
    case Relating(line, adds, today, passes) =>
      if WouldRelate(s, e) { PutRetains(s, RelateTo(s, Top(s.refs.Keys, line).value, adds, today), true); }
  }

  lemma {:induction false} RunKeepsGrowing(s: Archive, events: seq<Event>)
    requires Growing(s) && LegalRun(s, events)
    ensures Growing(Reached(s, events)) && Retained(s.rows, Reached(s, events).rows)
  {
    if events != [] {
      var before := Reached(s, events[..|events| - 1]);
      RunKeepsGrowing(s, events[..|events| - 1]);
      AfterGrows(before, events[|events| - 1]);
      AfterRetains(before, events[|events| - 1]);
    }
  }

  // From any reachable store, over every further run, a form's current change log only ever grows.
  lemma LogsOnlyGrow(s: Archive, events: seq<Event>, f: Identity)
    requires Growing(s) && LegalRun(s, events) && f in s.refs
    ensures Growing(Reached(s, events)) && Kept(s, Reached(s, events), f)
  {
    RunKeepsGrowing(s, events);
    OrderKeeps(s, Reached(s, events), f);
  }

  // Over every run of first publications, transitions and relates from the empty store.
  lemma RunGrows(events: seq<Event>)
    requires LegalRun(EMPTY, events)
    ensures Growing(Reached(EMPTY, events))
  {
    assert Growing(EMPTY);
    RunKeepsGrowing(EMPTY, events);
  }
}
