/** What tickets register, read off relationships and parsed targets, and what completing a container and moving a work
    item ask of it (runtime/transition.go). */
module Tickets {
  import opened Taxonomy
  import opened References
  import opened Units
  import opened PayloadStore
  import opened Queries
  import opened Gates
  import opened Lineage
  import opened Lifecycle
  import opened LifecycleRuns
  import opened ContainerInvariants
  import opened Relate

  // ---- the reading of one ticket ----

  // Some instance of the line is published in the project.
  ghost predicate IsStored(s: Archive, project: string, l: Line) {
    exists f :: f in s.refs && s.refs[f].project == project && f.ns == l.ns && f.typ == l.typ && f.id == l.id
  }

  predicate OfKind(l: Line, container: bool) {
    if container then l.typ == Ctr else l.typ in {Sto, Ts, Bug, Td, Ch, Spk}
  }

  // l is the target of the k-th relationship, and no earlier one has a stored target of the kind.
  ghost predicate FirstAt(s: Archive, project: string, u: Unit, container: bool, l: Line, k: nat) {
    && RelAt(u, k, "derives-from", l) && OfKind(l, container) && IsStored(s, project, l)
    && forall j: nat, m :: j < k && RelAt(u, j, "derives-from", m) && IsStored(s, project, m) ==> !OfKind(m, container)
  }

  ghost predicate FirstOfKind(s: Archive, project: string, u: Unit, container: bool, l: Line) {
    exists k :: FirstAt(s, project, u, container, l, k)
  }

  // The ticket t stands for the work item w in the container c.
  ghost predicate TicketFor(s: Archive, project: string, t: Identity, c: Line, w: Line) {
    && t in s.refs && s.refs[t].project == project && t.typ == Tkt
    && FirstOfKind(s, project, UnitAt(s, t), true, c) && FirstOfKind(s, project, UnitAt(s, t), false, w)
  }

  lemma StoredIsKnown(s: Archive, project: string, l: Line)
    ensures IsStored(s, project, l) <==> l in KnownLines(s, project)
  {
    if l in KnownLines(s, project) {
      var f :| f in ProjectForms(s, project) && LineOf(f) == l;
    }
    if IsStored(s, project, l) {
      var f :| f in s.refs && s.refs[f].project == project && f.ns == l.ns && f.typ == l.typ && f.id == l.id;
      assert f in ProjectForms(s, project) && LineOf(f) == l;
    }
  }

  lemma MemberIs(s: Archive, project: string, u: Unit, k: nat, container: bool)
    requires k < |u.relationships|
    ensures var rel := u.relationships[k];
            && (forall l :: RelAt(u, k, "derives-from", l) <==> NamedLine(u, rel, "derives-from") == Some(l))
            && (IsMember(u, rel, KnownLines(s, project), container) <==>
                  exists l :: RelAt(u, k, "derives-from", l) && OfKind(l, container) && IsStored(s, project, l))
  {
    var rel := u.relationships[k];
    forall l
      ensures NamedLine(u, rel, "derives-from") == Some(l) <==> RelAt(u, k, "derives-from", l)
    {
      NamedLineIs(u, k, "derives-from", l);
    }
    if NamedLine(u, rel, "derives-from").Some? {
      StoredIsKnown(s, project, NamedLine(u, rel, "derives-from").value);
    }
  }

  // The search from the i-th relationship on.
  lemma {:induction false} SearchFinds(s: Archive, project: string, u: Unit, container: bool, i: nat, l: Line)
    requires i <= |u.relationships|
    requires forall j: nat, m :: j < i && RelAt(u, j, "derives-from", m) && IsStored(s, project, m) ==> !OfKind(m, container)
    ensures FirstMember(u, u.relationships[i..], KnownLines(s, project), container) == Some(l) <==>
            FirstOfKind(s, project, u, container, l)
    decreases |u.relationships| - i
  {
    if i == |u.relationships| {
      assert u.relationships[i..] == [];
      assert forall k :: !FirstAt(s, project, u, container, l, k);
    } else {
      MemberIs(s, project, u, i, container);
      assert u.relationships[i..][0] == u.relationships[i] && u.relationships[i..][1..] == u.relationships[i + 1..];
      if IsMember(u, u.relationships[i], KnownLines(s, project), container) {
        FoundHere(s, project, u, container, i, l);
      } else {
        SearchFinds(s, project, u, container, i + 1, l);
      }
    }
  }

  lemma FoundHere(s: Archive, project: string, u: Unit, container: bool, i: nat, l: Line)
    requires i < |u.relationships|
    requires forall j: nat, m :: j < i && RelAt(u, j, "derives-from", m) && IsStored(s, project, m) ==> !OfKind(m, container)
    requires exists m :: RelAt(u, i, "derives-from", m) && OfKind(m, container) && IsStored(s, project, m)
    ensures FirstOfKind(s, project, u, container, l) <==> RelAt(u, i, "derives-from", l)
  {
    var m :| RelAt(u, i, "derives-from", m) && OfKind(m, container) && IsStored(s, project, m);
    if RelAt(u, i, "derives-from", l) {
      assert l == m;
      assert FirstAt(s, project, u, container, l, i);
    }
    if FirstOfKind(s, project, u, container, l) {
      var k :| FirstAt(s, project, u, container, l, k);
      assert k == i;
    }
  }

  // What the gates take for a registration is what the ticket says.
  lemma RegistersIff(s: Archive, project: string, t: Identity, c: Line, w: Line)
    ensures Registers(s, project, t, c, w) <==> TicketFor(s, project, t, c, w)
  {
    if t in s.refs {
      var u := UnitAt(s, t);
      assert u.relationships[0..] == u.relationships;
      SearchFinds(s, project, u, true, 0, c);
      SearchFinds(s, project, u, false, 0, w);
    }
  }

  // ---- completing a container ----

  predicate IsFinished(u: Unit) {
    u.states.execution == Done || u.states.execution == Canceled
  }

  // The current instance of the line in the project is neither done nor canceled.
  ghost predicate IsOpen(s: Archive, project: string, w: Line) {
    exists f :: IsCurrentIn(s, project, w, f) && !IsFinished(UnitAt(s, f))
  }

  lemma OpenIff(s: Archive, project: string, w: Line)
    ensures IsOpen(s, project, w) <==> !Settled(s, project, w)
  {
    forall f
      ensures IsTop(ProjectForms(s, project), w, f) <==> IsCurrentIn(s, project, w, f)
    {
      TopInIsCurrent(s, project, w, f);
    }
  }

  ghost predicate OpenTicket(s: Archive, project: string, c: Line, t: Identity, w: Line) {
    TicketFor(s, project, t, c, w) && IsOpen(s, project, w)
  }

  // Some ticket of the container stands for an open work item.
  ghost predicate WorkOpen(s: Archive, project: string, c: Line) {
    exists t, w :: OpenTicket(s, project, c, t, w)
  }

  lemma AllSettledIff(s: Archive, project: string, c: Line)
    ensures AllSettled(s, project, c) <==> !WorkOpen(s, project, c)
  {
    forall t, w
      ensures Registers(s, project, t, c, w) && !Settled(s, project, w) <==> OpenTicket(s, project, c, t, w)
    {
      RegistersIff(s, project, t, c, w);
      OpenIff(s, project, w);
    }
  }

  // The completion asked of an active container is refused for pending work exactly when a ticket of the container
  // stands for an open work item; otherwise the container is published completed.
  lemma CompletionIff(s: Archive, ctx: Context, req: Request, u: Unit)
    requires u.identity.typ == Ctr && u.states.container == Active
    requires !req.backward && (req.forward || req.to == Completed)
    ensures WorkOpen(s, ctx.project, LineOf(u.identity)) ==> DecideFor(s, ctx, req, u) == Err(WorkPending)
    ensures !WorkOpen(s, ctx.project, LineOf(u.identity)) ==>
              && DecideFor(s, ctx, req, u).Ok? && |DecideFor(s, ctx, req, u).value| == 1
              && DecideFor(s, ctx, req, u).value[0].unit.states == u.states.(container := Completed)
              && DecideFor(s, ctx, req, u).value[0].ref.form == u.identity
  {
    AllSettledIff(s, ctx.project, LineOf(u.identity));
  }

  // ---- over runs ----

  lemma CompletedByPut(s: Archive, ctx: Context, req: Request, f0: Identity, puts: seq<Put>, t: Archive, f: Identity)
    requires IsStep(s, ctx, req, f0, puts, t) && f in s.refs && f.typ == Ctr
    requires UnitAt(s, f).states.container == Active && UnitAt(t, f).states.container == Completed
    ensures AllSettled(s, ctx.project, LineOf(f))
  {
    if Avoids(puts, f) {
      Untouched(s, ctx, puts, t, f);
    } else {
      var p :| p in puts && p.ref.form == f;
      assert Published(ctx, p, t);
      ContainerPut(s, ctx, req, f0, puts, p);
      AddressedIsSettled(s, ctx, req, f, puts);
    }
  }

  lemma AddressedIsSettled(s: Archive, ctx: Context, req: Request, f: Identity, puts: seq<Put>)
    requires IsDecided(s, ctx, req, f, puts) && f.typ == Ctr && UnitAt(s, f).states.container == Active
    ensures AllSettled(s, ctx.project, LineOf(f))
  {
  }

  // The event took the container from active to completed.
  ghost predicate Completing(s: Archive, e: Event, f: Identity) {
    && f in s.refs && f in After(s, e).refs && f.typ == Ctr
    && UnitAt(s, f).states.container == Active && UnitAt(After(s, e), f).states.container == Completed
  }

  lemma OnlyTransitionsComplete(s: Archive, e: Event, f: Identity)
    requires Growing(s) && Fits(s, e) && Completing(s, e, f)
    ensures e.Transit? && Decide(s, e.ctx, e.req).Ok?
  {
    if !e.Transit? { OnlyTransitionsMove(s, e, f); }
  }

  // Whatever step of a run completes a container, no ticket of it stands for an open work item then.
  lemma CompletedWithoutOpenWork(s: Archive, e: Event, f: Identity)
    requires Growing(s) && Fits(s, e) && Completing(s, e, f)
    ensures e.Transit? && forall t, w :: TicketFor(s, e.ctx.project, t, LineOf(f), w) ==> !IsOpen(s, e.ctx.project, w)
  {
    OnlyTransitionsComplete(s, e, f);
    var puts := Decide(s, e.ctx, e.req).value;
    GrowingIsCoherent(s);
    var f0 := DecidedOn(s, e.ctx, e.req);
    NothingSwallowed(s, e.ctx, e.req);
    BatchChanges(s, e.ctx, e.req, puts);
    CompletedByPut(s, e.ctx, e.req, f0, puts, After(s, e), f);
    AllSettledIff(s, e.ctx.project, LineOf(f));
    assert forall t, w :: TicketFor(s, e.ctx.project, t, LineOf(f), w) && IsOpen(s, e.ctx.project, w) ==>
             OpenTicket(s, e.ctx.project, LineOf(f), t, w);
  }

  // At every step of every run.
  lemma RunCompletesSettled(events: seq<Event>, k: nat, f: Identity)
    requires LegalRun(EMPTY, events) && k < |events| && Completing(Reached(EMPTY, events[..k]), events[k], f)
    ensures var s, e := Reached(EMPTY, events[..k]), events[k];
            e.Transit? && forall t, w :: TicketFor(s, e.ctx.project, t, LineOf(f), w) ==> !IsOpen(s, e.ctx.project, w)
  {
    LegalPrefix(EMPTY, events, k);
    RunGrows(events[..k]);
    CompletedWithoutOpenWork(Reached(EMPTY, events[..k]), events[k], f);
  }

  lemma {:induction false} LegalPrefix(s: Archive, events: seq<Event>, k: nat)
    requires LegalRun(s, events) && k <= |events|
    ensures LegalRun(s, events[..k]) && (k < |events| ==> Fits(Reached(s, events[..k]), events[k]))
    decreases |events|
  {
    if k == |events| {
      assert events[..k] == events;
    } else {
      var rest := events[..|events| - 1];
      LegalPrefix(s, rest, k);
      assert rest[..k] == events[..k];
      assert k < |rest| ==> rest[k] == events[k];
      assert k == |rest| ==> rest[..k] == rest;
    }
  }

  // ---- moving a work item ----

  // A ticket stands for the work item in a container of which some instance in the project is active.
  ghost predicate InActiveContainer(s: Archive, project: string, w: Line, t: Identity, c: Line, f: Identity) {
    && TicketFor(s, project, t, c, w)
    && f in s.refs && s.refs[f].project == project && f.ns == c.ns && f.typ == c.typ && f.id == c.id
    && s.refs[f].hash.unit.states.container == Active
  }

  lemma TicketContainer(s: Archive, project: string, t: Identity, c: Line, w: Line)
    requires TicketFor(s, project, t, c, w)
    ensures c.typ == Ctr && w.typ in {Sto, Ts, Bug, Td, Ch, Spk}
  {
    assert FirstOfKind(s, project, UnitAt(s, t), true, c) && FirstOfKind(s, project, UnitAt(s, t), false, w);
  }

  lemma RegisteredIff(s: Archive, project: string, w: Line)
    ensures RegisteredActive(s, project, w) <==> exists t, c, f :: InActiveContainer(s, project, w, t, c, f)
  {
    if RegisteredActive(s, project, w) {
      var t, c :| Registers(s, project, t, c, w) && SomeActive(s, project, c);
      RegistersIff(s, project, t, c, w);
      var f :| && f in ProjectForms(s, project) && f.typ == Ctr && LineOf(f) == c
               && UnitAt(s, f).states.container == Active;
      assert InActiveContainer(s, project, w, t, c, f);
    }
    if exists t, c, f :: InActiveContainer(s, project, w, t, c, f) {
      var t, c, f :| InActiveContainer(s, project, w, t, c, f);
      RegistersIff(s, project, t, c, w);
      TicketContainer(s, project, t, c, w);
      assert f in ProjectForms(s, project) && LineOf(f) == c;
      assert SomeActive(s, project, c);
    }
  }
}
