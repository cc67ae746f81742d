/** What rule 7 reports, said of the log and the states alone (conformance/rules.go, conformance/state.go). */
module RuleReading {
  import opened Taxonomy
  import opened References
  import opened Units
  import opened PayloadStore
  import opened Lineage
  import opened Lifecycle
  import opened LifecycleRuns
  import opened ChangeLogRules

  // ---- the units and entries the rule looks at ----

  // The unit holds the value in the domain.
  ghost predicate Holds(u: Unit, d: Domain, v: Value) {
    match d
    case ContentState => u.states.content == v
    case ExecutionState => u.states.execution == v
    case PlanningState => u.states.planning == v
    case ContainerState => u.states.container == v
    case ExistenceState => u.states.existence == v
    case NoteState => u.states.note == v
    case Phase => u.phase == v
    case UnknownDomain(_) => v == Absent
  }

  // The rule wants entries of the domain: the type owns it, or it is the phase of a unit that has one.
  ghost predicate Wanted(u: Unit, d: Domain) {
    if d == Phase then u.phase != Absent else OwnsDomain(u.identity.typ, d)
  }

  // The i-th entry of the log is the last one of its domain.
  ghost predicate LastOf(log: seq<Entry>, d: Domain, i: nat) {
    i < |log| && log[i].domain == d && forall j :: i < j < |log| ==> log[j].domain != d
  }

  // The last entry of the domain ends at another value than the unit holds.
  ghost predicate EndsElsewhere(u: Unit, d: Domain) {
    exists i: nat :: LastOf(u.changeLog, d, i) && !Holds(u, d, u.changeLog[i].to)
  }

  ghost predicate HasEntry(log: seq<Entry>, d: Domain) {
    exists e :: e in log && e.domain == d
  }

  // A wanted domain with a value.
  ghost predicate Judged(u: Unit, d: Domain) {
    Wanted(u, d) && !Holds(u, d, Absent) && u.changeLog != []
  }

  // A move the state tables do not allow.
  ghost predicate OutOfTable(t: TypeToken, e: Entry) {
    e.from != Dash && e.domain != Phase && !InTable(e.domain, t, e.from, e.to)
  }

  // What the rule reports of the unit.
  ghost predicate Reportable(u: Unit, f: Finding) {
    var log, t := u.changeLog, u.identity.typ;
    match f
    case MissingLog => log == [] && exists d :: Wanted(u, d)
    case UnknownDomainIn(e) => e in log && e.domain.UnknownDomain?
    case NotPhased(e) => e in log && e.domain == Phase && t != Scp && t != Plan
    case NotOwned(e) => e in log && !e.domain.UnknownDomain? && e.domain != Phase && !OwnsDomain(t, e.domain)
    case BadFrom(e) => e in log && !e.domain.UnknownDomain? && e.from != Dash && !HasValue(e.domain, t, e.from)
    case BadTo(e) => e in log && !e.domain.UnknownDomain? && (e.to == Dash || !HasValue(e.domain, t, e.to))
    case NoAuthor(e) => e in log && !e.domain.UnknownDomain? && e.author.name == ""
    case NoEntry(d) => Judged(u, d) && !HasEntry(log, d)
    case LastDiffers(d) => Judged(u, d) && EndsElsewhere(u, d)
    case IllegalMove(e) => e in log && Judged(u, e.domain) && OutOfTable(t, e)
  }

  // ---- the readings ----

  lemma StateIs(u: Unit, d: Domain, v: Value)
    ensures StateOf(u, d) == v <==> Holds(u, d, v)
  {
  }

  lemma NeededIff(u: Unit, d: Domain)
    ensures d in Needed(u) <==> Wanted(u, d)
  {
    OwnedIff(u.identity.typ, d);
  }

  lemma {:induction false} EntriesAre(log: seq<Entry>, d: Domain, e: Entry)
    ensures e in EntriesOf(log, d) <==> e in log && e.domain == d
  {
    if log != [] {
      EntriesAre(log[..|log| - 1], d, e);
      assert log == log[..|log| - 1] + [log[|log| - 1]];
    }
  }

  lemma NoEntries(log: seq<Entry>, d: Domain)
    ensures EntriesOf(log, d) == [] <==> !HasEntry(log, d)
  {
    forall e
      ensures e in EntriesOf(log, d) <==> e in log && e.domain == d
    {
      EntriesAre(log, d, e);
    }
    assert EntriesOf(log, d) != [] ==> EntriesOf(log, d)[0] in EntriesOf(log, d);
  }

  lemma {:induction false} LastEntryAt(log: seq<Entry>, d: Domain, i: nat)
    requires LastOf(log, d, i)
    ensures EntriesOf(log, d) != [] && EntriesOf(log, d)[|EntriesOf(log, d)| - 1] == log[i]
  {
    var before := log[..|log| - 1];
    if i < |before| {
      assert log[|before|].domain != d;
      assert before[i] == log[i] && forall j :: i < j < |before| ==> before[j] == log[j];
      LastEntryAt(before, d, i);
    }
  }

  lemma {:induction false} LastEntry(log: seq<Entry>, d: Domain) returns (i: nat)
    requires EntriesOf(log, d) != []
    ensures LastOf(log, d, i)
  {
    if log[|log| - 1].domain == d {
      i := |log| - 1;
    } else {
      i := LastEntry(log[..|log| - 1], d);
    }
  }

  // What is reported of one entry.
  ghost predicate EntryReportable(t: TypeToken, e: Entry, f: Finding) {
    match f
    case UnknownDomainIn(e') => e' == e && e.domain.UnknownDomain?
    case NotPhased(e') => e' == e && e.domain == Phase && t != Scp && t != Plan
    case NotOwned(e') => e' == e && !e.domain.UnknownDomain? && e.domain != Phase && !OwnsDomain(t, e.domain)
    case BadFrom(e') => e' == e && !e.domain.UnknownDomain? && e.from != Dash && !HasValue(e.domain, t, e.from)
    case BadTo(e') => e' == e && !e.domain.UnknownDomain? && (e.to == Dash || !HasValue(e.domain, t, e.to))
    case NoAuthor(e') => e' == e && !e.domain.UnknownDomain? && e.author.name == ""
    case _ => false
  }

  lemma EntryFindingsAre(t: TypeToken, e: Entry, f: Finding)
    ensures f in EntryFindings(t, e) <==> EntryReportable(t, e, f)
  {
    OwnedIff(t, e.domain);
    ValuesIff(e.domain, t, e.from);
    ValuesIff(e.domain, t, e.to);
  }

  ghost predicate SomeEntryReportable(t: TypeToken, log: seq<Entry>, f: Finding) {
    exists e :: e in log && EntryReportable(t, e, f)
  }

  lemma SomeEntryStep(t: TypeToken, log: seq<Entry>, f: Finding)
    requires log != []
    ensures SomeEntryReportable(t, log, f) <==>
            SomeEntryReportable(t, log[..|log| - 1], f) || EntryReportable(t, log[|log| - 1], f)
  {
    assert log == log[..|log| - 1] + [log[|log| - 1]];
  }

  lemma {:induction false} LogFindingsAre(t: TypeToken, log: seq<Entry>, f: Finding)
    ensures f in LogFindings(t, log) <==> SomeEntryReportable(t, log, f)
  {
    if log != [] {
      LogFindingsAre(t, log[..|log| - 1], f);
      EntryFindingsAre(t, log[|log| - 1], f);
      SomeEntryStep(t, log, f);
    }
  }

  lemma MoveIs(t: TypeToken, e: Entry)
    ensures MoveLegal(t, e) <==> !OutOfTable(t, e)
  {
    if e.from != Dash && e.domain != Phase { LegalIff(e.domain, t, e.from, e.to); }
  }

  lemma {:induction false} MoveFindingsAre(t: TypeToken, entries: seq<Entry>, f: Finding)
    ensures f in MoveFindings(t, entries) <==> f.IllegalMove? && f.entry in entries && OutOfTable(t, f.entry)
  {
    if entries != [] {
      var last := entries[|entries| - 1];
      MoveFindingsAre(t, entries[..|entries| - 1], f);
      MoveIs(t, last);
      assert entries == entries[..|entries| - 1] + [last];
    }
  }

  // What is reported of one wanted domain.
  ghost predicate DomainReportable(u: Unit, d: Domain, f: Finding) {
    var log := u.changeLog;
    && !Holds(u, d, Absent)
    && match f
       case NoEntry(d') => d' == d && !HasEntry(log, d)
       case LastDiffers(d') => d' == d && EndsElsewhere(u, d)
       case IllegalMove(e) => e in log && e.domain == d && OutOfTable(u.identity.typ, e)
       case _ => false
  }

  lemma EndsIff(u: Unit, d: Domain)
    ensures var entries := EntriesOf(u.changeLog, d);
            EndsElsewhere(u, d) <==> entries != [] && entries[|entries| - 1].to != StateOf(u, d)
  {
    forall i: nat | LastOf(u.changeLog, d, i)
      ensures var entries := EntriesOf(u.changeLog, d);
              && entries != [] && entries[|entries| - 1] == u.changeLog[i]
              && (Holds(u, d, u.changeLog[i].to) <==> u.changeLog[i].to == StateOf(u, d))
    {
      LastEntryAt(u.changeLog, d, i);
      StateIs(u, d, u.changeLog[i].to);
    }
    if EntriesOf(u.changeLog, d) != [] { var i := LastEntry(u.changeLog, d); }
  }

  lemma DomainFindingsAre(u: Unit, d: Domain, f: Finding)
    ensures f in DomainFindings(u, d) <==> DomainReportable(u, d, f)
  {
    var log, entries := u.changeLog, EntriesOf(u.changeLog, d);
    StateIs(u, d, Absent);
    NoEntries(log, d);
    MoveFindingsAre(u.identity.typ, entries, f);
    if f.IllegalMove? { EntriesAre(log, d, f.entry); }
    EndsIff(u, d);
  }

  lemma {:induction false} NeededFindingsAre(u: Unit, needed: seq<Domain>, f: Finding)
    ensures f in NeededFindings(u, needed) <==> exists d :: d in needed && DomainReportable(u, d, f)
  {
    if needed != [] {
      var last := needed[|needed| - 1];
      NeededFindingsAre(u, needed[..|needed| - 1], f);
      DomainFindingsAre(u, last, f);
      assert needed == needed[..|needed| - 1] + [last];
    }
  }

  lemma ReportedAre(u: Unit, f: Finding)
    requires u.changeLog != []
    ensures f in Findings(u) <==>
              || (exists e :: e in u.changeLog && EntryReportable(u.identity.typ, e, f))
              || (exists d :: Wanted(u, d) && DomainReportable(u, d, f))
  {
    LogFindingsAre(u.identity.typ, u.changeLog, f);
    NeededFindingsAre(u, Needed(u), f);
    forall d
      ensures d in Needed(u) <==> Wanted(u, d)
    {
      NeededIff(u, d);
    }
  }

  // The report holds exactly the findings that apply, an illegal move for every entry outside the tables of a wanted
  // domain with a value among them.
  lemma ReportedIff(u: Unit, f: Finding)
    ensures f in Findings(u) <==> Reportable(u, f)
  {
    if u.changeLog == [] {
      forall d
        ensures d in Needed(u) <==> Wanted(u, d)
      {
        NeededIff(u, d);
      }
      assert Needed(u) != [] ==> Needed(u)[0] in Needed(u);
    } else {
      ReportedAre(u, f);
      Gathers(u, f);
    }
  }

  lemma Gathers(u: Unit, f: Finding)
    requires u.changeLog != []
    ensures Reportable(u, f) <==>
              || (exists e :: e in u.changeLog && EntryReportable(u.identity.typ, e, f))
              || (exists d :: Wanted(u, d) && DomainReportable(u, d, f))
  {
    match f
    case NoEntry(d) =>
    case LastDiffers(d) =>
    case IllegalMove(e) => assert DomainReportable(u, e.domain, f) <==>
                                    e in u.changeLog && !Holds(u, e.domain, Absent) && OutOfTable(u.identity.typ, e);
    case MissingLog =>
    case UnknownDomainIn(e) => assert EntryReportable(u.identity.typ, e, f) <==> e.domain.UnknownDomain?;
    case NotPhased(e) => assert EntryReportable(u.identity.typ, e, f) ==> e.domain == Phase;
    case NotOwned(e) => assert EntryReportable(u.identity.typ, e, f) ==> e.domain != Phase;
    case BadFrom(e) => assert EntryReportable(u.identity.typ, e, f) ==> e.from != Dash;
    case BadTo(e) => assert EntryReportable(u.identity.typ, e, f) ==> !e.domain.UnknownDomain?;
    case NoAuthor(e) => assert EntryReportable(u.identity.typ, e, f) ==> e.author.name == "";
  }

  // Nothing is reported exactly when nothing applies.
  lemma SilentIff(u: Unit)
    ensures Findings(u) == [] <==> forall f :: !Reportable(u, f)
  {
    forall f
      ensures f in Findings(u) <==> Reportable(u, f)
    {
      ReportedIff(u, f);
    }
    assert Findings(u) != [] ==> Findings(u)[0] in Findings(u);
  }

  lemma ReportableIsReported(u: Unit, f: Finding)
    requires Reportable(u, f)
    ensures f in Findings(u)
  {
    ReportedIff(u, f);
  }

  lemma SkipIsReportable(u: Unit, e: Entry)
    requires u.identity.typ in {Sto, Ts, Bug, Td, Ch, Spk} && u.states.execution != Absent && e in u.changeLog
    requires e.domain == ExecutionState && e.from == Planned && e.to == Done
    ensures Reportable(u, IllegalMove(e))
  {
  }

  // An entry that skips steps is reported, whatever else the unit holds.
  lemma SkippedStepsReported(u: Unit, e: Entry)
    requires u.identity.typ in {Sto, Ts, Bug, Td, Ch, Spk} && u.states.execution != Absent && e in u.changeLog
    requires e.domain == ExecutionState && e.from == Planned && e.to == Done
    ensures IllegalMove(e) in Findings(u)
  {
    SkipIsReportable(u, e);
    ReportableIsReported(u, IllegalMove(e));
  }

  // A done story whose log goes from planned to done in one step; everything else about it is in order.
  function SkippingStory(author: Author, content: string): Unit {
    Unit(Identity("n", Sto, "x", 1), 1, "2025-01-02",
         StateVector(Absent, Done, Absent, Absent, Active, Absent),
         [Entry("2025-01-01", ExistenceState, Dash, Active, author), Entry("2025-01-01", ExecutionState, Dash, Planned, author),
          Entry("2025-01-02", ExecutionState, Planned, Done, author)],
         [], Absent, "", content)
  }

  // The skipped steps are all that is reported of it.
  lemma OnlyTheSkipReported(author: Author, content: string, f: Finding)
    requires author.name != ""
    ensures var u := SkippingStory(author, content);
            f in Findings(u) <==> f == IllegalMove(u.changeLog[2])
  {
    var u := SkippingStory(author, content);
    ReportedIff(u, f);
    StoryReport(u, author, f);
  }

  lemma StoryEnds(u: Unit, author: Author, d: Domain)
    requires u == SkippingStory(author, u.content)
    ensures Wanted(u, d) <==> d == ExistenceState || d == ExecutionState
    ensures Wanted(u, d) ==> HasEntry(u.changeLog, d) && !EndsElsewhere(u, d)
  {
    assert u.changeLog[0] in u.changeLog && u.changeLog[2] in u.changeLog;
    assert Wanted(u, d) ==> forall i: nat :: LastOf(u.changeLog, d, i) ==> i == if d == ExistenceState then 0 else 2;
  }

  lemma StoryEntry(u: Unit, author: Author, e: Entry, f: Finding)
    requires u == SkippingStory(author, u.content) && author.name != "" && e in u.changeLog
    ensures !EntryReportable(Sto, e, f)
    ensures OutOfTable(Sto, e) <==> e == u.changeLog[2]
  {
    assert e == u.changeLog[0] || e == u.changeLog[1] || e == u.changeLog[2];
  }

  lemma StoryDomain(u: Unit, author: Author, d: Domain, f: Finding)
    requires u == SkippingStory(author, u.content) && author.name != "" && Wanted(u, d)
    ensures DomainReportable(u, d, f) <==> d == ExecutionState && f == IllegalMove(u.changeLog[2])
  {
    StoryEnds(u, author, d);
    assert u.changeLog[2] in u.changeLog;
    if f.IllegalMove? && f.entry in u.changeLog { StoryEntry(u, author, f.entry, f); }
  }

  lemma StoryReport(u: Unit, author: Author, f: Finding)
    requires u == SkippingStory(author, u.content) && author.name != ""
    ensures Reportable(u, f) <==> f == IllegalMove(u.changeLog[2])
  {
    Gathers(u, f);
    forall e | e in u.changeLog { StoryEntry(u, author, e, f); }
    forall d | Wanted(u, d)
      ensures DomainReportable(u, d, f) <==> d == ExecutionState && f == IllegalMove(u.changeLog[2])
    {
      StoryDomain(u, author, d, f);
    }
    StoryEnds(u, author, ExecutionState);
  }

  // ---- sound logs over runs ----

  // Two entries of the domain with none between them.
  ghost predicate Neighbours(log: seq<Entry>, d: Domain, i: nat, j: nat) {
    && i < j < |log| && log[i].domain == d && log[j].domain == d
    && forall k :: i < k < j ==> log[k].domain != d
  }

  // Every entry of the domain starts where the one before it ended.
  ghost predicate ReadsOn(log: seq<Entry>, d: Domain) {
    forall i: nat, j: nat :: Neighbours(log, d, i, j) ==> log[j].from == log[i].to
  }

  lemma NeighboursBefore(log: seq<Entry>, d: Domain, i: nat, j: nat)
    requires log != [] && j < |log| - 1
    ensures Neighbours(log, d, i, j) <==> Neighbours(log[..|log| - 1], d, i, j)
  {
    var before := log[..|log| - 1];
    assert forall k :: 0 <= k < |before| ==> before[k] == log[k];
    assert i < j ==> (forall k :: i < k < j ==> log[k].domain != d) == (forall k :: i < k < j ==> before[k].domain != d);
  }

  lemma LastNeighbours(log: seq<Entry>, d: Domain, i: nat)
    requires log != [] && log[|log| - 1].domain == d
    ensures Neighbours(log, d, i, |log| - 1) <==> LastOf(log[..|log| - 1], d, i)
  {
    var before := log[..|log| - 1];
    assert forall k :: 0 <= k < |before| ==> before[k] == log[k];
  }

  // The last entry starts where the one before it ended, if there is one.
  ghost predicate LastReadsOn(log: seq<Entry>, d: Domain)
    requires log != []
  {
    log[|log| - 1].domain == d ==> forall i: nat :: LastOf(log[..|log| - 1], d, i) ==> log[|log| - 1].from == log[i].to
  }

  lemma ReadsOnStep(log: seq<Entry>, d: Domain)
    requires log != []
    ensures ReadsOn(log, d) <==> ReadsOn(log[..|log| - 1], d) && LastReadsOn(log, d)
  {
    var n, before := |log| - 1, log[..|log| - 1];
    forall i: nat, j: nat | j < n
      ensures Neighbours(log, d, i, j) <==> Neighbours(before, d, i, j)
    {
      NeighboursBefore(log, d, i, j);
    }
    if log[n].domain == d {
      forall i: nat
        ensures Neighbours(log, d, i, n) <==> LastOf(before, d, i)
      {
        LastNeighbours(log, d, i);
      }
    }
  }

  lemma LastChained(log: seq<Entry>, d: Domain)
    requires log != [] && log[|log| - 1].domain == d
    ensures var entries := EntriesOf(log[..|log| - 1], d);
            LastReadsOn(log, d) <==> (entries != [] ==> log[|log| - 1].from == entries[|entries| - 1].to)
  {
    var before := log[..|log| - 1];
    forall i: nat | LastOf(before, d, i)
      ensures EntriesOf(before, d) != [] && EntriesOf(before, d)[|EntriesOf(before, d)| - 1] == log[i]
    {
      LastEntryAt(before, d, i);
      assert before[i] == log[i];
    }
    if EntriesOf(before, d) != [] { var i := LastEntry(before, d); }
  }

  lemma ChainedStep(entries: seq<Entry>, e: Entry)
    ensures Chained(entries + [e]) <==> Chained(entries) && (entries != [] ==> e.from == entries[|entries| - 1].to)
  {
    var longer := entries + [e];
    assert forall i :: 0 <= i < |entries| ==> longer[i] == entries[i];
    if Chained(longer) && entries != [] { assert longer[|entries|].from == longer[|entries| - 1].to; }
  }

  lemma {:induction false} ChainedIff(log: seq<Entry>, d: Domain)
    ensures Chained(EntriesOf(log, d)) <==> ReadsOn(log, d)
  {
    if log != [] {
      var before := log[..|log| - 1];
      ChainedIff(before, d);
      ReadsOnStep(log, d);
      if log[|log| - 1].domain == d {
        ChainedStep(EntriesOf(before, d), log[|log| - 1]);
        LastChained(log, d);
      }
    }
  }

  // Nothing applies to the unit, and every wanted domain reads on from entry to entry.
  ghost predicate ReadsSound(u: Unit) {
    (forall f :: !Reportable(u, f)) && forall d :: Wanted(u, d) ==> ReadsOn(u.changeLog, d)
  }

  lemma SoundIff(u: Unit)
    ensures LogSound(u) <==> ReadsSound(u)
  {
    FindingsExact(u);
    SilentIff(u);
    forall d
      ensures d in Needed(u) <==> Wanted(u, d)
      ensures Chained(EntriesOf(u.changeLog, d)) <==> ReadsOn(u.changeLog, d)
    {
      NeededIff(u, d);
      ChainedIff(u.changeLog, d);
    }
  }

  // In a sound log every entry of a judged domain starts at the marker or makes a move of the tables.
  lemma SoundMoves(u: Unit, e: Entry)
    requires ReadsSound(u) && e in u.changeLog && Judged(u, e.domain) && e.domain != Phase
    ensures e.from == Dash || InTable(e.domain, u.identity.typ, e.from, e.to)
  {
    assert !Reportable(u, IllegalMove(e));
  }

  // Over every run whose first publications are sound, every payload ever archived is.
  lemma RunReadsSound(events: seq<Event>)
    requires LegalRun(EMPTY, events) && forall e :: e in events && e.Publish? ==> ReadsSound(e.put.unit)
    ensures forall h :: h in Reached(EMPTY, events).rows ==> ReadsSound(h.unit)
  {
    forall e | e in events
      ensures PublishesSound(e)
    {
      if e.Publish? { SoundIff(e.put.unit); }
    }
    assert Growing(EMPTY);
    RunKeepsLogs(EMPTY, events);
    forall h | h in Reached(EMPTY, events).rows
      ensures ReadsSound(h.unit)
    {
      SoundIff(h.unit);
    }
  }
}
