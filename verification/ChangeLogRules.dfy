/** Rule 7, change-log soundness (conformance/rules.go), and its preservation by transitions. */
module ChangeLogRules {
  import opened Taxonomy
  import opened Text
  import opened References
  import opened Units
  import opened PayloadStore
  import opened Queries
  import opened PlanClosure
  import opened Lineage
  import opened Lifecycle
  import opened LifecycleRuns
  import opened ContainerInvariants
  import opened Relate

  // ---- rule 7 ----

  // The entries of one domain, in order.
  function EntriesOf(log: seq<Entry>, d: Domain): seq<Entry> {
    if log == [] then []
    else
      var before := EntriesOf(log[..|log| - 1], d);
      var last := log[|log| - 1];
      if last.domain == d then before + [last] else before
  }

  // The domains that need entries.
  function Needed(u: Unit): seq<Domain> {
    Owned(u.identity.typ) + if u.phase != Absent then [Phase] else []
  }

  datatype Finding =
    | MissingLog
    | UnknownDomainIn(entry: Entry) | NotPhased(entry: Entry) | NotOwned(entry: Entry)
    | BadFrom(entry: Entry) | BadTo(entry: Entry) | NoAuthor(entry: Entry)
    | NoEntry(domain: Domain) | LastDiffers(domain: Domain) | IllegalMove(entry: Entry)

  // What is wrong with one entry.
  function EntryFindings(t: TypeToken, e: Entry): seq<Finding> {
    var values := DomainValues(e.domain, t);
    if e.domain.UnknownDomain? then [UnknownDomainIn(e)]
    else
      (if e.domain == Phase then if IsVersionedType(t) then [] else [NotPhased(e)]
       else if e.domain in Owned(t) then [] else [NotOwned(e)])
      + (if e.from != Dash && e.from !in values then [BadFrom(e)] else [])
      + (if e.to == Dash || e.to !in values then [BadTo(e)] else [])
      + (if e.author.name == "" then [NoAuthor(e)] else [])
  }

  predicate EntryValid(t: TypeToken, e: Entry) {
    var values := DomainValues(e.domain, t);
    && (if e.domain == Phase then IsVersionedType(t) else e.domain in Owned(t))
    && (e.from == Dash || e.from in values)
    && e.to != Dash && e.to in values
    && e.author.name != ""
  }

  predicate MoveLegal(t: TypeToken, e: Entry) {
    e.from == Dash || IsLegalTransition(e.domain, t, e.from, e.to)
  }

  // The entries of a domain that holds a value end at that value, by legal moves.
  ghost predicate DomainSound(u: Unit, d: Domain) {
    var entries := EntriesOf(u.changeLog, d);
    StateOf(u, d) != Absent ==>
      && entries != [] && entries[|entries| - 1].to == StateOf(u, d)
      && forall e :: e in entries ==> MoveLegal(u.identity.typ, e)
  }

  ghost predicate PassesRule7(u: Unit) {
    && (u.changeLog == [] ==> Needed(u) == [])
    && LogValid(u.identity.typ, u.changeLog)
    && (u.changeLog != [] ==> DomainsSound(u, Needed(u)))
  }

  lemma OwnedIsKnown(t: TypeToken, d: Domain)
    ensures d in Owned(t) ==> !d.UnknownDomain? && d != Phase
  {
  }

  lemma EntryFindingsExact(t: TypeToken, e: Entry)
    ensures EntryFindings(t, e) == [] <==> EntryValid(t, e)
  {
    OwnedIsKnown(t, e.domain);
  }

  method EntriesForDomain(log: seq<Entry>, d: Domain) returns (entries: seq<Entry>)
    ensures entries == EntriesOf(log, d)
  {
    entries := [];
    for i := 0 to |log|
      invariant entries == EntriesOf(log[..i], d)
    {
      assert log[..i + 1][..i] == log[..i];
      if log[i].domain == d {
        entries := entries + [log[i]];
      }
    }
    assert log[..|log|] == log;
  }

  // ---- the report ----

  function LogFindings(t: TypeToken, log: seq<Entry>): seq<Finding> {
    if log == [] then [] else LogFindings(t, log[..|log| - 1]) + EntryFindings(t, log[|log| - 1])
  }

  function MoveFindings(t: TypeToken, entries: seq<Entry>): seq<Finding> {
    if entries == [] then []
    else
      var last := entries[|entries| - 1];
      MoveFindings(t, entries[..|entries| - 1]) + if MoveLegal(t, last) then [] else [IllegalMove(last)]
  }

  function DomainFindings(u: Unit, d: Domain): seq<Finding> {
    var entries := EntriesOf(u.changeLog, d);
    if StateOf(u, d) == Absent then []
    else if entries == [] then [NoEntry(d)]
    else
      (if entries[|entries| - 1].to != StateOf(u, d) then [LastDiffers(d)] else [])
      + MoveFindings(u.identity.typ, entries)
  }

  function NeededFindings(u: Unit, needed: seq<Domain>): seq<Finding> {
    if needed == [] then []
    else NeededFindings(u, needed[..|needed| - 1]) + DomainFindings(u, needed[|needed| - 1])
  }

  function Findings(u: Unit): seq<Finding> {
    if u.changeLog == [] then if Needed(u) == [] then [] else [MissingLog]
    else LogFindings(u.identity.typ, u.changeLog) + NeededFindings(u, Needed(u))
  }

  ghost predicate LogValid(t: TypeToken, log: seq<Entry>) {
    forall e :: e in log ==> EntryValid(t, e)
  }

  lemma LogValidStep(t: TypeToken, log: seq<Entry>)
    requires log != []
    ensures LogValid(t, log) <==> LogValid(t, log[..|log| - 1]) && EntryValid(t, log[|log| - 1])
  {
    assert log == log[..|log| - 1] + [log[|log| - 1]];
  }

  lemma ConcatEmpty(a: seq<Finding>, b: seq<Finding>)
    ensures a + b == [] <==> a == [] && b == []
  {
    assert |a + b| == |a| + |b|;
  }

  lemma {:induction false} LogFindingsExact(t: TypeToken, log: seq<Entry>)
    ensures LogFindings(t, log) == [] <==> LogValid(t, log)
  {
    if log != [] {
      LogFindingsExact(t, log[..|log| - 1]);
      EntryFindingsExact(t, log[|log| - 1]);
      LogValidStep(t, log);
      ConcatEmpty(LogFindings(t, log[..|log| - 1]), EntryFindings(t, log[|log| - 1]));
    }
  }

  lemma {:induction false} MoveFindingsExact(t: TypeToken, entries: seq<Entry>)
    ensures MoveFindings(t, entries) == [] <==> forall e :: e in entries ==> MoveLegal(t, e)
  {
    if entries != [] {
      MoveFindingsExact(t, entries[..|entries| - 1]);
      assert entries == entries[..|entries| - 1] + [entries[|entries| - 1]];
    }
  }

  lemma DomainFindingsExact(u: Unit, d: Domain)
    ensures DomainFindings(u, d) == [] <==> DomainSound(u, d)
  {
    MoveFindingsExact(u.identity.typ, EntriesOf(u.changeLog, d));
  }

  ghost predicate DomainsSound(u: Unit, needed: seq<Domain>) {
    forall d :: d in needed ==> DomainSound(u, d)
  }

  lemma DomainsSoundStep(u: Unit, needed: seq<Domain>)
    requires needed != []
    ensures DomainsSound(u, needed) <==>
            DomainsSound(u, needed[..|needed| - 1]) && DomainSound(u, needed[|needed| - 1])
  {
    assert needed == needed[..|needed| - 1] + [needed[|needed| - 1]];
  }

  lemma {:induction false} NeededFindingsExact(u: Unit, needed: seq<Domain>)
    ensures NeededFindings(u, needed) == [] <==> DomainsSound(u, needed)
  {
    if needed != [] {
      NeededFindingsExact(u, needed[..|needed| - 1]);
      DomainFindingsExact(u, needed[|needed| - 1]);
      DomainsSoundStep(u, needed);
      ConcatEmpty(NeededFindings(u, needed[..|needed| - 1]), DomainFindings(u, needed[|needed| - 1]));
    }
  }

  // Nothing is reported exactly on the units that pass.
  lemma FindingsExact(u: Unit)
    ensures Findings(u) == [] <==> PassesRule7(u)
  {
    LogFindingsExact(u.identity.typ, u.changeLog);
    NeededFindingsExact(u, Needed(u));
  }

  method ReportMoves(t: TypeToken, entries: seq<Entry>) returns (findings: seq<Finding>)
    ensures findings == MoveFindings(t, entries)
  {
    findings := [];
    for i := 0 to |entries|
      invariant findings == MoveFindings(t, entries[..i])
    {
      assert entries[..i + 1][..i] == entries[..i];
      if !MoveLegal(t, entries[i]) {
        findings := findings + [IllegalMove(entries[i])];
      }
    }
    assert entries[..|entries|] == entries;
  }

  method ReportDomain(u: Unit, d: Domain) returns (findings: seq<Finding>)
    ensures findings == DomainFindings(u, d)
  {
    findings := [];
    if StateOf(u, d) == Absent {
      return;
    }
    var entries := EntriesForDomain(u.changeLog, d);
    if entries == [] {
      return [NoEntry(d)];
    }
    if entries[|entries| - 1].to != StateOf(u, d) {
      findings := [LastDiffers(d)];
    }
    var moves := ReportMoves(u.identity.typ, entries);
    findings := findings + moves;
  }

  method ReportLog(t: TypeToken, log: seq<Entry>) returns (findings: seq<Finding>)
    ensures findings == LogFindings(t, log)
  {
    findings := [];
    for i := 0 to |log|
      invariant findings == LogFindings(t, log[..i])
    {
      assert log[..i + 1][..i] == log[..i];
      findings := findings + EntryFindings(t, log[i]);
    }
    assert log[..|log|] == log;
  }

  method ReportNeeded(u: Unit, needed: seq<Domain>) returns (findings: seq<Finding>)
    ensures findings == NeededFindings(u, needed)
  {
    findings := [];
    for i := 0 to |needed|
      invariant findings == NeededFindings(u, needed[..i])
    {
      assert needed[..i + 1][..i] == needed[..i];
      var more := ReportDomain(u, needed[i]);
      findings := findings + more;
    }
    assert needed[..|needed|] == needed;
  }

  method Rule7(u: Unit) returns (findings: seq<Finding>)
    ensures findings == Findings(u)
    ensures findings == [] <==> PassesRule7(u)
  {
    FindingsExact(u);
    var needed := Needed(u);
    if u.changeLog == [] {
      return if needed == [] then [] else [MissingLog];
    }
    var ofEntries := ReportLog(u.identity.typ, u.changeLog);
    var ofDomains := ReportNeeded(u, needed);
    findings := ofEntries + ofDomains;
  }

  // ---- one legal walk per domain ----

  // Each entry starts where the one before it ended.
  ghost predicate Chained(entries: seq<Entry>) {
    forall i :: 0 < i < |entries| ==> entries[i].from == entries[i - 1].to
  }

  ghost predicate AllChained(u: Unit) {
    forall d :: d in Needed(u) ==> Chained(EntriesOf(u.changeLog, d))
  }

  // Rule 7 holds and the entries of every domain form one walk.
  ghost predicate LogSound(u: Unit) {
    PassesRule7(u) && AllChained(u)
  }

  // A move of the domain a transition of the type takes, by an author with a name.
  ghost predicate LegalMove(u: Unit, to: Value, author: Author) {
    var d := DomainOf(u.identity.typ);
    && d in Owned(u.identity.typ) && author.name != ""
    && StateOf(u, d) != Absent && to != Dash && to != Absent
    && StateOf(u, d) in DomainValues(d, u.identity.typ) && to in DomainValues(d, u.identity.typ)
    && IsLegalTransition(d, u.identity.typ, StateOf(u, d), to)
  }

  lemma EntriesAppend(log: seq<Entry>, e: Entry, d: Domain)
    ensures EntriesOf(log + [e], d) == if e.domain == d then EntriesOf(log, d) + [e] else EntriesOf(log, d)
  {
    assert (log + [e])[..|log|] == log;
  }

  lemma StatesAfter(u: Unit, d: Domain, to: Value, author: Author, today: string, k: Domain)
    requires d in Owned(u.identity.typ)
    ensures StateOf(Advanced(u, d, to, author, today), k) == if k == d then to else StateOf(u, k)
  {
    assert !d.UnknownDomain? && d != Phase;
  }

  lemma WalkExtends(entries: seq<Entry>, e: Entry)
    requires entries != [] && Chained(entries) && e.from == entries[|entries| - 1].to
    ensures Chained(entries + [e])
  {
  }

  lemma WalkEndsAt(u: Unit, d: Domain)
    requires LogSound(u) && d in Needed(u) && StateOf(u, d) != Absent
    ensures var entries := EntriesOf(u.changeLog, d);
            && entries != [] && entries[|entries| - 1].to == StateOf(u, d) && Chained(entries)
            && forall e :: e in entries ==> e.from == Dash || IsLegalTransition(e.domain, u.identity.typ, e.from, e.to)
  {
    assert u.changeLog != [];
    assert DomainSound(u, d);
  }

  lemma SoundByEntries(v: Unit, d: Domain, entries: seq<Entry>)
    requires EntriesOf(v.changeLog, d) == entries && entries != [] && entries[|entries| - 1].to == StateOf(v, d)
    requires forall e :: e in entries ==> MoveLegal(v.identity.typ, e)
    ensures DomainSound(v, d)
  {
  }

  // The domain that moves.
  lemma AdvanceMovesDomain(u: Unit, to: Value, author: Author, today: string)
    requires LogSound(u) && LegalMove(u, to, author)
    ensures var d := DomainOf(u.identity.typ);
            var v := Advanced(u, d, to, author, today);
            DomainSound(v, d) && Chained(EntriesOf(v.changeLog, d))
  {
    var d := DomainOf(u.identity.typ);
    var e := Entry(today, d, StateOf(u, d), to, author);
    var entries := EntriesOf(u.changeLog, d);
    WalkEndsAt(u, d);
    StatesAfter(u, d, to, author, today, d);
    EntriesAppend(u.changeLog, e, d);
    WalkExtends(entries, e);
    SoundByEntries(Advanced(u, d, to, author, today), d, entries + [e]);
  }

  // The other domains.
  lemma AdvanceKeepsDomain(u: Unit, to: Value, author: Author, today: string, k: Domain)
    requires LogSound(u) && LegalMove(u, to, author) && k in Needed(u) && k != DomainOf(u.identity.typ)
    ensures var v := Advanced(u, DomainOf(u.identity.typ), to, author, today);
            DomainSound(v, k) && Chained(EntriesOf(v.changeLog, k))
  {
    var d := DomainOf(u.identity.typ);
    assert d in Needed(u) && u.changeLog != [] && DomainSound(u, k) && Chained(EntriesOf(u.changeLog, k));
    StatesAfter(u, d, to, author, today, k);
    EntriesAppend(u.changeLog, Entry(today, d, StateOf(u, d), to, author), k);
  }

  // A legal move keeps rule 7 and extends the walk of its domain to the new state.
  lemma AdvanceKeepsLogSound(u: Unit, to: Value, author: Author, today: string)
    requires LogSound(u) && LegalMove(u, to, author)
    ensures LogSound(Advanced(u, DomainOf(u.identity.typ), to, author, today))
  {
    var d := DomainOf(u.identity.typ);
    var v := Advanced(u, d, to, author, today);
    StatesAfter(u, d, to, author, today, Phase);
    assert Needed(v) == Needed(u);
    forall k | k in Needed(v)
      ensures DomainSound(v, k) && Chained(EntriesOf(v.changeLog, k))
    {
      if k == d { AdvanceMovesDomain(u, to, author, today); } else { AdvanceKeepsDomain(u, to, author, today, k); }
    }
    AdvancedLogValid(u, to, author, today);
  }

  lemma NewEntryValid(u: Unit, to: Value, author: Author, today: string)
    requires LegalMove(u, to, author)
    ensures var d := DomainOf(u.identity.typ);
            EntryValid(u.identity.typ, Entry(today, d, StateOf(u, d), to, author))
  {
  }

  lemma AdvancedLogValid(u: Unit, to: Value, author: Author, today: string)
    requires LogValid(u.identity.typ, u.changeLog) && LegalMove(u, to, author)
    ensures var v := Advanced(u, DomainOf(u.identity.typ), to, author, today); LogValid(v.identity.typ, v.changeLog)
  {
    var d := DomainOf(u.identity.typ);
    var v := Advanced(u, d, to, author, today);
    NewEntryValid(u, to, author, today);
    forall e | e in v.changeLog
      ensures EntryValid(v.identity.typ, e)
    {
      assert e in u.changeLog || e == Entry(today, d, StateOf(u, d), to, author);
    }
  }

  // ---- every decision is a legal move ----

  lemma ExecutionMoveLegal(t: TypeToken, from: Value, to: Value)
    requires IsLegalExecution(from, to)
    ensures from in DomainValues(ExecutionState, t) && to in DomainValues(ExecutionState, t)
    ensures IsLegalTransition(ExecutionState, t, from, to)
  {
    var values := DomainValues(ExecutionState, t);
    assert values[0] == Planned && values[1] == Todo && values[2] == InProgress;
    assert values[3] == InReview && values[4] == Done && values[5] == Canceled;
  }

  lemma PlanMoveLegal(from: Value, to: Value)
    requires (from == Draft && to == Approved) || (from == Approved && to == Immutable) || (from == Immutable && to == Superseded)
    ensures from in DomainValues(PlanningState, Plan) && to in DomainValues(PlanningState, Plan)
    ensures IsLegalTransition(PlanningState, Plan, from, to)
  {
  }

  lemma ContainerMoveLegal(from: Value, to: Value)
    requires (from == Planned && to == Active) || (from == Active && to == Completed)
    ensures from in DomainValues(ContainerState, Ctr) && to in DomainValues(ContainerState, Ctr)
    ensures IsLegalTransition(ContainerState, Ctr, from, to)
  {
  }

  lemma ContentStep(t: TypeToken, from: Value, req: Request)
    requires ContentTo(t, from, req).Ok?
    ensures 0 <= IndexOf(ContentVariant(t), from)
    ensures IndexOf(ContentVariant(t), ContentTo(t, from, req).value) == IndexOf(ContentVariant(t), from) + 1
  {
  }

  lemma ContentMoveLegal(t: TypeToken, from: Value, to: Value)
    requires 0 <= IndexOf(ContentVariant(t), from) && IndexOf(ContentVariant(t), to) == IndexOf(ContentVariant(t), from) + 1
    ensures from in DomainValues(ContentState, t) && to in DomainValues(ContentState, t)
    ensures to != Dash && to != Absent && IsLegalTransition(ContentState, t, from, to)
  {
  }

  lemma NoBlankState(d: Domain, t: TypeToken)
    ensures Absent !in DomainValues(d, t) && Dash !in DomainValues(d, t)
  {
  }

  lemma DomainIsOwned(t: TypeToken)
    requires IsTransitionable(t)
    ensures DomainOf(t) in Owned(t)
  {
  }

  lemma NameNotBlank(name: string)
    requires TrimSpace(name) != ""
    ensures name != ""
  {
  }

  // p publishes a legal move of the current payload.
  ghost predicate MovesLegally(s: Archive, ctx: Context, req: Request, p: Put) {
    && p.ref.form in s.refs
    && exists to :: p == Moves(UnitAt(s, p.ref.form), to, ctx, req) && LegalMove(UnitAt(s, p.ref.form), to, req.author)
  }

  lemma SingleMove(s: Archive, ctx: Context, req: Request, f: Identity, to: Value)
    requires f in s.refs && UnitAt(s, f).identity == f && IsTransitionable(f.typ) && req.author.name != ""
    requires StateOf(UnitAt(s, f), DomainOf(f.typ)) in DomainValues(DomainOf(f.typ), f.typ)
    requires to in DomainValues(DomainOf(f.typ), f.typ)
    requires IsLegalTransition(DomainOf(f.typ), f.typ, StateOf(UnitAt(s, f), DomainOf(f.typ)), to)
    ensures MovesLegally(s, ctx, req, Moves(UnitAt(s, f), to, ctx, req))
  {
    NoBlankState(DomainOf(f.typ), f.typ);
    DomainIsOwned(f.typ);
  }

  ghost predicate AllLegal(s: Archive, ctx: Context, req: Request, puts: seq<Put>) {
    forall p :: p in puts ==> MovesLegally(s, ctx, req, p)
  }

  lemma WorkItemDecision(s: Archive, ctx: Context, req: Request, f: Identity, puts: seq<Put>) returns (to: Value)
    requires IsDecided(s, ctx, req, f, puts) && DomainOf(f.typ) == ExecutionState
    ensures puts == [Moves(UnitAt(s, f), to, ctx, req)] && IsLegalExecution(UnitAt(s, f).states.execution, to)
  {
    to := WorkItemTo(UnitAt(s, f).states.execution, req).value;
  }

  lemma WorkItemLegal(s: Archive, ctx: Context, req: Request, f: Identity, puts: seq<Put>)
    requires IsDecided(s, ctx, req, f, puts) && IsTransitionable(f.typ) && req.author.name != ""
    requires DomainOf(f.typ) == ExecutionState
    ensures AllLegal(s, ctx, req, puts)
  {
    var to := WorkItemDecision(s, ctx, req, f, puts);
    ExecutionMoveLegal(f.typ, UnitAt(s, f).states.execution, to);
    SingleMove(s, ctx, req, f, to);
  }

  lemma ContentLegal(s: Archive, ctx: Context, req: Request, f: Identity, puts: seq<Put>)
    requires IsDecided(s, ctx, req, f, puts) && IsTransitionable(f.typ) && req.author.name != ""
    requires DomainOf(f.typ) == ContentState
    ensures AllLegal(s, ctx, req, puts)
  {
    var from := UnitAt(s, f).states.content;
    ContentStep(f.typ, from, req);
    ContentMoveLegal(f.typ, from, ContentTo(f.typ, from, req).value);
    SingleMove(s, ctx, req, f, ContentTo(f.typ, from, req).value);
  }

  lemma PlanDecided(s: Archive, ctx: Context, req: Request, f: Identity, puts: seq<Put>) returns (to: Value)
    requires IsDecided(s, ctx, req, f, puts) && f.typ == Plan
    ensures puts == [Moves(UnitAt(s, f), to, ctx, req)]
    ensures var from := UnitAt(s, f).states.planning;
            (from == Draft && to == Approved) || (from == Immutable && to == Superseded)
  {
    to := PlanTo(UnitAt(s, f).states.planning, req).value;
  }

  lemma PlanLegal(s: Archive, ctx: Context, req: Request, f: Identity, puts: seq<Put>)
    requires IsDecided(s, ctx, req, f, puts) && f.typ == Plan && req.author.name != ""
    ensures AllLegal(s, ctx, req, puts)
  {
    var to := PlanDecided(s, ctx, req, f, puts);
    PlanMoveLegal(UnitAt(s, f).states.planning, to);
    SingleMove(s, ctx, req, f, to);
  }

  lemma CompletionDecided(s: Archive, ctx: Context, req: Request, f: Identity, puts: seq<Put>)
    requires IsDecided(s, ctx, req, f, puts) && f.typ == Ctr && UnitAt(s, f).states.container != Planned
    ensures UnitAt(s, f).states.container == Active && puts == [Moves(UnitAt(s, f), Completed, ctx, req)]
  {
  }

  lemma ContainerLegal(s: Archive, ctx: Context, req: Request, f: Identity, puts: seq<Put>)
    requires Coherent(s) && IsDecided(s, ctx, req, f, puts) && f.typ == Ctr && req.author.name != ""
    ensures AllLegal(s, ctx, req, puts)
  {
    if UnitAt(s, f).states.container == Planned {
      ActivationGates(s, ctx, req, f, puts);
      LockLegal(s, ctx, req, f, PlanOf(UnitAt(s, f)).line, puts);
    } else {
      CompletionDecided(s, ctx, req, f, puts);
      ContainerMoveLegal(Active, Completed);
      SingleMove(s, ctx, req, f, Completed);
    }
  }

  lemma ActivationLegal(s: Archive, ctx: Context, req: Request, f: Identity)
    requires f in s.refs && f.typ == Ctr && UnitAt(s, f).identity == f && req.author.name != ""
    requires UnitAt(s, f).states.container == Planned
    ensures MovesLegally(s, ctx, req, Moves(UnitAt(s, f), Active, ctx, req))
  {
    ContainerMoveLegal(Planned, Active);
    SingleMove(s, ctx, req, f, Active);
  }

  lemma LockedPlanLegal(s: Archive, ctx: Context, req: Request, p: Identity)
    requires p in s.refs && p.typ == Plan && UnitAt(s, p).identity == p && req.author.name != ""
    requires UnitAt(s, p).states.planning == Approved
    ensures MovesLegally(s, ctx, req, Moves(UnitAt(s, p), Immutable, ctx, req))
  {
    PlanMoveLegal(Approved, Immutable);
    SingleMove(s, ctx, req, p, Immutable);
  }

  lemma LockedLegal(s: Archive, ctx: Context, req: Request, plan: Line, p: Identity, put: Put)
    requires Coherent(s) && plan.typ == Plan && req.author.name != "" && LocksPlan(s, ctx, req, plan, p, put)
    ensures MovesLegally(s, ctx, req, put)
  {
    LockedPlanLegal(s, ctx, req, p);
  }

  lemma BothLegal(s: Archive, ctx: Context, req: Request, puts: seq<Put>)
    requires 1 <= |puts| <= 2 && MovesLegally(s, ctx, req, puts[0])
    requires |puts| == 2 ==> MovesLegally(s, ctx, req, puts[1])
    ensures AllLegal(s, ctx, req, puts)
  {
  }

  // An activation and the lock that comes with it.
  lemma LockLegal(s: Archive, ctx: Context, req: Request, f: Identity, plan: Line, puts: seq<Put>)
    requires Coherent(s) && f in s.refs && f.typ == Ctr && plan.typ == Plan && req.author.name != ""
    requires UnitAt(s, f).states.container == Planned && LockPlan(s, ctx, req, UnitAt(s, f), plan) == Ok(puts)
    ensures AllLegal(s, ctx, req, puts)
  {
    LockPuts(s, ctx, req, f, plan, puts);
    ActivationLegal(s, ctx, req, f);
    if |puts| == 2 {
      var p :| LocksPlan(s, ctx, req, plan, p, puts[1]);
      LockedLegal(s, ctx, req, plan, p, puts[1]);
    }
    BothLegal(s, ctx, req, puts);
  }

  // Whatever a request publishes is a legal move of its domain.
  lemma DecisionIsLegal(s: Archive, ctx: Context, req: Request)
    requires Coherent(s) && Decide(s, ctx, req).Ok?
    ensures AllLegal(s, ctx, req, Decide(s, ctx, req).value)
  {
    var f := DecidedOn(s, ctx, req);
    var puts := Decide(s, ctx, req).value;
    NameNotBlank(req.author.name);
    assert UnitAt(s, f).identity == f;
    if f.typ == Plan {
      PlanLegal(s, ctx, req, f, puts);
    } else if f.typ == Ctr {
      ContainerLegal(s, ctx, req, f, puts);
    } else if OwnsContentState(f.typ) {
      ContentLegal(s, ctx, req, f, puts);
    } else {
      WorkItemLegal(s, ctx, req, f, puts);
    }
  }

  // ---- runs ----

  // Every archived payload has a sound log.
  ghost predicate LogsSound(s: Archive) {
    forall h :: h in s.rows ==> LogSound(h.unit)
  }

  ghost predicate PublishesSound(e: Event) {
    e.Publish? ==> LogSound(e.put.unit)
  }

  lemma LegallyMovedIsSound(s: Archive, ctx: Context, req: Request, p: Put)
    requires MovesLegally(s, ctx, req, p) && LogSound(UnitAt(s, p.ref.form))
    ensures LogSound(p.unit)
  {
    var u := UnitAt(s, p.ref.form);
    var to :| p == Moves(u, to, ctx, req) && LegalMove(u, to, req.author);
    AdvanceKeepsLogSound(u, to, req.author, ctx.today);
  }

  lemma PutKeepsLogs(s: Archive, p: Put, repoint: bool)
    requires LogsSound(s) && LogSound(p.unit)
    ensures LogsSound(PutUnit(s, p, repoint).archive)
  {
  }

  lemma {:induction false} PutAllKeepsLogs(s: Archive, puts: seq<Put>)
    requires LogsSound(s) && forall p :: p in puts ==> LogSound(p.unit)
    ensures LogsSound(PutAll(s, puts))
  {
    if puts != [] {
      PutAllKeepsLogs(s, puts[..|puts| - 1]);
      PutKeepsLogs(PutAll(s, puts[..|puts| - 1]), puts[|puts| - 1], false);
    }
  }

  lemma RelatedIsSound(u: Unit, merged: seq<Relationship>, today: string)
    requires LogSound(u)
    ensures LogSound(Related(u, merged, today))
  {
    var v := Related(u, merged, today);
    assert Needed(v) == Needed(u);
    forall d | d in Needed(u)
      ensures StateOf(v, d) == StateOf(u, d)
    {
    }
    assert forall d :: d in Needed(u) && DomainSound(u, d) ==> DomainSound(v, d);
  }

  lemma AfterKeepsLogs(s: Archive, e: Event)
    requires Growing(s) && LogsSound(s) && PublishesSound(e)
    ensures LogsSound(After(s, e))
  {
    GrowingIsCoherent(s);
    match e
    case Publish(p) =>
      PutKeepsLogs(s, p, false);
    case Transit(ctx, req) =>
      if Decide(s, ctx, req).Ok? { TransitKeepsLogs(s, ctx, req); }
    case Relating(line, adds, today, passes) =>
      if WouldRelate(s, e) {
        var f := Top(s.refs.Keys, line).value;
        var u := UnitAt(s, f);
        RelatedIsSound(u, RelateTo(s, f, adds, today).unit.relationships, today);
        PutKeepsLogs(s, RelateTo(s, f, adds, today), true);
      }
  }

  lemma TransitKeepsLogs(s: Archive, ctx: Context, req: Request)
    requires Coherent(s) && LogsSound(s) && Decide(s, ctx, req).Ok?
    ensures LogsSound(PutAll(s, Decide(s, ctx, req).value))
  {
    var puts := Decide(s, ctx, req).value;
    DecisionIsLegal(s, ctx, req);
    forall p | p in puts
      ensures LogSound(p.unit)
    {
      assert MovesLegally(s, ctx, req, p) && s.refs[p.ref.form].hash in s.rows;
      LegallyMovedIsSound(s, ctx, req, p);
    }
    PutAllKeepsLogs(s, puts);
  }

  // Over every run in which what is first published is sound, every payload ever archived passes rule 7, and its
  // entries form one legal walk per domain ending at the domain's state.
  lemma {:induction false} RunKeepsLogs(s: Archive, events: seq<Event>)
    requires Growing(s) && LogsSound(s) && LegalRun(s, events)
    requires forall e :: e in events ==> PublishesSound(e)
    ensures LogsSound(Reached(s, events))
  {
    if events != [] {
      RunKeepsLogs(s, events[..|events| - 1]);
      RunKeepsGrowing(s, events[..|events| - 1]);
      AfterKeepsLogs(Reached(s, events[..|events| - 1]), events[|events| - 1]);
    }
  }
}
