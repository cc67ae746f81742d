/** Work items over every run of publications, transitions and relates (runtime/transition.go). */
module WorkItemRuns {
  import opened Taxonomy
  import opened References
  import opened Units
  import opened PayloadStore
  import opened Queries
  import opened PlanClosure
  import opened Gates
  import opened Lineage
  import opened Lifecycle
  import opened LifecycleRuns
  import opened ContainerInvariants
  import opened Tickets
  import opened Decisions

  predicate IsItem(f: Identity) {
    f.typ in {Sto, Ts, Bug, Td, Ch, Spk}
  }

  // The event changes the execution state of the form.
  ghost predicate Moving(s: Archive, e: Event, f: Identity) {
    && f in s.refs && f in After(s, e).refs && IsItem(f)
    && UnitAt(s, f).states.execution != UnitAt(After(s, e), f).states.execution
  }

  lemma LockPutForms(s: Archive, ctx: Context, req: Request, f0: Identity, plan: Line, puts: seq<Put>, p: Put)
    requires Coherent(s) && f0 in s.refs && f0.typ == Ctr && plan.typ == Plan && p in puts
    requires LockPlan(s, ctx, req, UnitAt(s, f0), plan) == Ok(puts)
    ensures p.ref.form.typ == Ctr || p.ref.form.typ == Plan
  {
    LockFirst(s, ctx, req, f0, plan, puts);
    LockForms(s, ctx, req, f0, plan, puts);
    if p != puts[0] { assert |puts| == 2 && p == puts[1]; }
  }

  // The puts of an activation are of a container and of a plan.
  lemma ActivationForms(s: Archive, ctx: Context, req: Request, f0: Identity, puts: seq<Put>, p: Put)
    requires Coherent(s) && f0 in s.refs && f0.typ == Ctr && Activates(s, ctx, req, f0, puts) && p in puts
    ensures p.ref.form.typ == Ctr || p.ref.form.typ == Plan
  {
    ActivationGates(s, ctx, req, f0, puts);
    LockPutForms(s, ctx, req, f0, PlanOf(UnitAt(s, f0)).line, puts, p);
  }

  lemma CompletionForms(s: Archive, ctx: Context, req: Request, f0: Identity, puts: seq<Put>)
    requires IsDecided(s, ctx, req, f0, puts) && f0.typ == Ctr && UnitAt(s, f0).states.container != Planned
    ensures |puts| == 1 && puts[0].ref.form == f0
  {
  }

  // A put of a work item is the only one, of the addressed work item.
  lemma ItemPut(s: Archive, ctx: Context, req: Request, f0: Identity, puts: seq<Put>, p: Put)
    requires Coherent(s) && IsDecided(s, ctx, req, f0, puts) && p in puts && IsItem(p.ref.form)
    ensures p.ref.form == f0 && puts == [p]
  {
    if f0.typ != Ctr {
      OtherPuts(s, ctx, req, f0, puts);
    } else if UnitAt(s, f0).states.container == Planned {
      ActivationForms(s, ctx, req, f0, puts, p);
    } else {
      CompletionForms(s, ctx, req, f0, puts);
    }
  }

  // What every move of a work item has passed: the table, the notes, and a registration or a confirmation.
  ghost predicate Passed(s: Archive, ctx: Context, req: Request, f: Identity, from: Value, to: Value) {
    && InTable(ExecutionState, f.typ, from, to) && NotesLet(s, ctx, LineOf(f), to)
    && (req.confirmed || exists t, c, g :: InActiveContainer(s, ctx.project, LineOf(f), t, c, g))
  }

  lemma StepInTable(from: Value, to: Value, t: TypeToken)
    requires IsStepUp(from, to) || IsStepDown(from, to)
    ensures InTable(ExecutionState, t, from, to)
  {
  }

  lemma GoesInTable(from: Value, req: Request, to: Value, t: TypeToken)
    requires Goes(from, req, to)
    ensures InTable(ExecutionState, t, from, to)
  {
    if IsStepUp(from, to) || IsStepDown(from, to) { StepInTable(from, to, t); }
  }

  lemma DecidedPasses(s: Archive, ctx: Context, req: Request, f: Identity, puts: seq<Put>, p: Put)
    requires IsDecided(s, ctx, req, f, puts) && IsItem(f) && puts == [p]
    ensures Passed(s, ctx, req, f, UnitAt(s, f).states.execution, p.unit.states.execution)
  {
    var u := UnitAt(s, f);
    WorkItemIff(s, ctx, req, u, puts);
    var to :| WorkItemMoveIs(s, ctx, req, u, to) && puts == [WorkItemPut(u, to, ctx, req)];
    GoesInTable(u.states.execution, req, to, f.typ);
    assert p == WorkItemPut(u, to, ctx, req);
  }

  lemma MovedByPut(s: Archive, ctx: Context, req: Request, f0: Identity, puts: seq<Put>, t: Archive, f: Identity)
    requires IsStep(s, ctx, req, f0, puts, t) && f in s.refs && f in t.refs && IsItem(f)
    requires UnitAt(s, f).states.execution != UnitAt(t, f).states.execution
    ensures Passed(s, ctx, req, f, UnitAt(s, f).states.execution, UnitAt(t, f).states.execution)
  {
    if Avoids(puts, f) {
      Untouched(s, ctx, puts, t, f);
    } else {
      var p :| p in puts && p.ref.form == f;
      assert Published(ctx, p, t);
      ItemPut(s, ctx, req, f0, puts, p);
      DecidedPasses(s, ctx, req, f, puts, p);
    }
  }

  lemma OnlyAcceptedMove(s: Archive, e: Event, f: Identity)
    requires Growing(s) && Fits(s, e) && Moving(s, e, f)
    ensures e.Transit? && Decide(s, e.ctx, e.req).Ok?
  {
    if !e.Transit? { OnlyTransitionsMove(s, e, f); }
  }

  lemma MovePasses(s: Archive, e: Event, f: Identity)
    requires Growing(s) && Fits(s, e) && Moving(s, e, f)
    ensures e.Transit?
    ensures Passed(s, e.ctx, e.req, f, UnitAt(s, f).states.execution, UnitAt(After(s, e), f).states.execution)
  {
    OnlyAcceptedMove(s, e, f);
    var puts := Decide(s, e.ctx, e.req).value;
    GrowingIsCoherent(s);
    var f0 := DecidedOn(s, e.ctx, e.req);
    NothingSwallowed(s, e.ctx, e.req);
    BatchChanges(s, e.ctx, e.req, puts);
    MovedByPut(s, e.ctx, e.req, f0, puts, After(s, e), f);
  }

  // At every step of every run: what changes the execution state of a work item is a transition along the table, into
  // in-review with a resolved implementation note and into done with every note resolved, and of an item registered in
  // an active container or confirmed.
  lemma RunMovesPass(events: seq<Event>, k: nat, f: Identity)
    requires LegalRun(EMPTY, events) && k < |events| && Moving(Reached(EMPTY, events[..k]), events[k], f)
    ensures var s, e := Reached(EMPTY, events[..k]), events[k];
            && e.Transit?
            && Passed(s, e.ctx, e.req, f, UnitAt(s, f).states.execution, UnitAt(After(s, e), f).states.execution)
  {
    LegalPrefix(EMPTY, events, k);
    RunGrows(events[..k]);
    MovePasses(Reached(EMPTY, events[..k]), events[k], f);
  }
}
