/** Issue numbers of a project's groups over runs of the payload store (store/payloads.go). */
module IssueNumbers {
  import opened Taxonomy
  import opened References
  import opened Units
  import opened PayloadStore
  import opened Lineage

  // The n forms of the group carry exactly the numbers 1..n, each once.
  ghost predicate Dense(refs: Refs, project: string, group: NumberGroup) {
    var k := Numbered(refs, project, group);
    && (forall f :: f in k ==> 1 <= refs[f].number <= |k|)
    && (forall f, g :: f in k && g in k && refs[f].number == refs[g].number ==> f == g)
    && Filled(refs, k, |k|)
  }

  ghost predicate Holder(refs: Refs, k: set<Identity>, i: int)
    requires forall f :: f in k ==> f in refs
  {
    exists f :: f in k && refs[f].number == i
  }

  ghost predicate AllDense(refs: Refs) {
    forall project, group :: group != Unnumbered ==> Dense(refs, project, group)
  }

  // The put leaves an existing form in its project.
  predicate StaysInProject(s: Archive, p: Put) {
    p.ref.form in s.refs ==> s.refs[p.ref.form].project == p.ref.project
  }

  lemma NextAfterDense(refs: Refs, project: string, group: NumberGroup)
    requires Dense(refs, project, group)
    ensures NextNumber(refs, project, group) == |Numbered(refs, project, group)| + 1
  {
    var k := Numbered(refs, project, group);
    assert k != {} ==> Holder(refs, k, |k|);
    assert IsNext(refs, project, group, |k| + 1);
    NextIsUnique(refs, project, group, |k| + 1);
  }

  // Every number up to n has a holder in k.
  ghost predicate Filled(refs: Refs, k: set<Identity>, n: int)
    requires forall f :: f in k ==> f in refs
  {
    forall i :: 1 <= i <= n ==> Holder(refs, k, i)
  }

  lemma HolderKept(before: Refs, after: Refs, k: set<Identity>, l: set<Identity>, i: int)
    requires k <= l && (forall f :: f in k ==> f in before) && (forall f :: f in l ==> f in after)
    requires forall g :: g in k ==> after[g].number == before[g].number
    requires Holder(before, k, i)
    ensures Holder(after, l, i)
  {
    var g :| g in k && before[g].number == i;
    assert g in l && after[g].number == i;
  }

  lemma FilledKept(before: Refs, after: Refs, k: set<Identity>, l: set<Identity>, n: int)
    requires k <= l && (forall f :: f in k ==> f in before) && (forall f :: f in l ==> f in after)
    requires forall g :: g in k ==> after[g].number == before[g].number
    requires Filled(before, k, n)
    ensures Filled(after, l, n)
  {
    forall i | 1 <= i <= n
      ensures Holder(after, l, i)
    {
      HolderKept(before, after, k, l, i);
    }
  }

  lemma JoinAtEnd(before: Refs, after: Refs, f: Identity, project: string, group: NumberGroup)
    requires Dense(before, project, group)
    requires Numbered(after, project, group) == Numbered(before, project, group) + {f}
    requires f !in Numbered(before, project, group)
    requires forall g :: g in Numbered(before, project, group) ==> after[g].number == before[g].number
    requires after[f].number == |Numbered(before, project, group)| + 1
    ensures Dense(after, project, group)
  {
    var k, l := Numbered(before, project, group), Numbered(after, project, group);
    assert |l| == |k| + 1;
    assert forall g :: g in l ==> g == f || g in k;
    FilledKept(before, after, k, l, |k|);
    assert f in l && after[f].number == |l|;
    assert Holder(after, l, |l|);
  }

  lemma JoinElsewhere(before: Refs, after: Refs, f: Identity, project: string, group: NumberGroup)
    requires Dense(before, project, group)
    requires Numbered(after, project, group) == Numbered(before, project, group) + {f}
    requires f !in Numbered(before, project, group)
    requires forall g :: g in Numbered(before, project, group) ==> after[g].number == before[g].number
    requires after[f].number != |Numbered(before, project, group)| + 1
    ensures !Dense(after, project, group)
  {
    var k, l := Numbered(before, project, group), Numbered(after, project, group);
    assert |l| == |k| + 1 && f in l;
    if 1 <= after[f].number <= |k| {
      assert Holder(before, k, after[f].number);
      var g :| g in k && before[g].number == after[f].number;
      assert g in l && after[g].number == after[f].number && g != f;
    }
  }

  // A form with the next number joins the group.
  lemma JoinKeepsDense(before: Refs, after: Refs, f: Identity, project: string, group: NumberGroup)
    requires Dense(before, project, group)
    requires Numbered(after, project, group) == Numbered(before, project, group) + {f}
    requires f !in Numbered(before, project, group)
    requires forall g :: g in Numbered(before, project, group) ==> after[g].number == before[g].number
    ensures Dense(after, project, group) <==> after[f].number == |Numbered(before, project, group)| + 1
  {
    if after[f].number == |Numbered(before, project, group)| + 1 {
      JoinAtEnd(before, after, f, project, group);
    } else {
      JoinElsewhere(before, after, f, project, group);
    }
  }

  // A form leaves the group.
  lemma LeaveKeepsDense(before: Refs, after: Refs, f: Identity, project: string, group: NumberGroup)
    requires Dense(before, project, group)
    requires f in Numbered(before, project, group)
    requires Numbered(after, project, group) == Numbered(before, project, group) - {f}
    requires forall g :: g in Numbered(after, project, group) ==> after[g].number == before[g].number
    ensures Dense(after, project, group) <==> before[f].number == |Numbered(before, project, group)|
  {
    var k, l := Numbered(before, project, group), Numbered(after, project, group);
    assert |l| == |k| - 1;
    if before[f].number == |k| {
      forall i | 1 <= i <= |l|
        ensures Holder(after, l, i)
      {
        assert Holder(before, k, i);
        var g :| g in k && before[g].number == i;
        assert g in l && after[g].number == i;
      }
      forall g | g in l
        ensures 1 <= after[g].number <= |l|
      {
        assert g in k && g != f;
      }
    } else {
      assert Holder(before, k, |k|);
      var g :| g in k && before[g].number == |k|;
      assert g in l;
    }
  }

  lemma SameGroup(before: Refs, after: Refs, project: string, group: NumberGroup)
    requires Dense(before, project, group)
    requires Numbered(after, project, group) == Numbered(before, project, group)
    requires forall g :: g in Numbered(before, project, group) ==> after[g].number == before[g].number
    ensures Dense(after, project, group)
  {
    var k := Numbered(before, project, group);
    forall i | 1 <= i <= |k|
      ensures Holder(after, k, i)
    {
      assert Holder(before, k, i);
      var g :| g in k && before[g].number == i;
    }
  }

  // What a put does to the numbers: an existing form keeps its own, a new one takes the next of its group.
  ghost predicate Renumbered(before: Refs, p: Put, after: Refs) {
    var form, group := p.ref.form, GroupOf(p.ref.typ);
    && form in after && after == before[form := after[form]]
    && (form in before ==>
          && after[form].number == before[form].number && after[form].group == before[form].group
          && (after[form] == before[form] || after[form].project == p.ref.project))
    && (form !in before ==>
          && after[form].project == p.ref.project && after[form].group == group
          && (group != Unnumbered ==> after[form].number == NextNumber(before, p.ref.project, group)))
  }

  lemma PutNumbers(s: Archive, p: Put, repoint: bool)
    ensures Renumbered(s.refs, p, PutUnit(s, p, repoint).archive.refs)
  {
  }

  // The put adds its form to the group, or leaves the group as it was.
  lemma GroupAfter(before: Refs, p: Put, after: Refs, project: string, group: NumberGroup)
    requires Renumbered(before, p, after) && (p.ref.form in before ==> before[p.ref.form].project == p.ref.project)
    ensures Numbered(after, project, group) ==
            if p.ref.form !in before && project == p.ref.project && group == GroupOf(p.ref.typ)
            then Numbered(before, project, group) + {p.ref.form} else Numbered(before, project, group)
  {
  }

  lemma RenumberedStaysDense(before: Refs, p: Put, after: Refs, project: string, group: NumberGroup)
    requires Renumbered(before, p, after) && group != Unnumbered && Dense(before, project, group)
    requires p.ref.form in before ==> before[p.ref.form].project == p.ref.project
    ensures Dense(after, project, group)
  {
    GroupAfter(before, p, after, project, group);
    if p.ref.form !in before && project == p.ref.project && group == GroupOf(p.ref.typ) {
      NextAfterDense(before, project, group);
      JoinKeepsDense(before, after, p.ref.form, project, group);
    } else {
      SameGroup(before, after, project, group);
    }
  }

  lemma PutKeepsAllDense(s: Archive, p: Put, repoint: bool)
    requires AllDense(s.refs) && StaysInProject(s, p)
    ensures AllDense(PutUnit(s, p, repoint).archive.refs)
  {
    PutNumbers(s, p, repoint);
    forall project, group | group != Unnumbered
      ensures Dense(PutUnit(s, p, repoint).archive.refs, project, group)
    {
      RenumberedStaysDense(s.refs, p, PutUnit(s, p, repoint).archive.refs, project, group);
    }
  }

  // Every put of the step meets a form in the project it already has.
  ghost predicate StepStays(s: Archive, step: Step) {
    match step
    case PutStep(puts) => forall i :: 0 <= i < |puts| ==> StaysInProject(PutAll(s, puts[..i]), puts[i])
    case RepointStep(p) => StaysInProject(s, p)
  }

  lemma {:induction false} PutAllKeepsDense(s: Archive, puts: seq<Put>)
    requires AllDense(s.refs) && StepStays(s, PutStep(puts))
    ensures AllDense(PutAll(s, puts).refs)
  {
    if puts != [] {
      var rest := puts[..|puts| - 1];
      forall i | 0 <= i < |rest|
        ensures StaysInProject(PutAll(s, rest[..i]), rest[i])
      {
        assert rest[..i] == puts[..i];
      }
      PutAllKeepsDense(s, rest);
      assert StaysInProject(PutAll(s, rest), puts[|puts| - 1]);
      PutKeepsAllDense(PutAll(s, rest), puts[|puts| - 1], false);
    }
  }

  ghost predicate RunStays(s: Archive, steps: seq<Step>) {
    forall i :: 0 <= i < |steps| ==> StepStays(Replay(s, steps[..i]), steps[i])
  }

  lemma EmptyIsDense()
    ensures AllDense(EMPTY.refs)
  {
    forall project, group
      ensures Dense(EMPTY.refs, project, group)
    {
      assert Numbered(EMPTY.refs, project, group) == {};
    }
  }

  // As long as no put moves a form to another project, the numbers of every group are 1..n.
  lemma {:induction false} RunIsDense(steps: seq<Step>)
    requires RunStays(EMPTY, steps)
    ensures AllDense(Replay(EMPTY, steps).refs)
  {
    if steps == [] {
      EmptyIsDense();
    } else {
      var rest := steps[..|steps| - 1];
      forall i | 0 <= i < |rest|
        ensures StepStays(Replay(EMPTY, rest[..i]), rest[i])
      {
        assert rest[..i] == steps[..i];
      }
      RunIsDense(rest);
      assert StepStays(Replay(EMPTY, rest), steps[|steps| - 1]);
      match steps[|steps| - 1]
      case PutStep(puts) => PutAllKeepsDense(Replay(EMPTY, rest), puts);
      case RepointStep(p) => PutKeepsAllDense(Replay(EMPTY, rest), p, true);
    }
  }

  // ---- a form's number never changes ----

  ghost predicate NumbersKept(before: Refs, after: Refs) {
    forall f :: f in before ==> f in after && after[f].number == before[f].number && after[f].group == before[f].group
  }

  lemma {:induction false} PutAllKeepsNumbers(s: Archive, puts: seq<Put>)
    ensures NumbersKept(s.refs, PutAll(s, puts).refs)
  {
    if puts != [] {
      PutAllKeepsNumbers(s, puts[..|puts| - 1]);
      PutNumbers(PutAll(s, puts[..|puts| - 1]), puts[|puts| - 1], false);
    }
  }

  // Whatever is put, moves between projects included.
  lemma {:induction false} RunKeepsNumbers(s: Archive, steps: seq<Step>)
    ensures NumbersKept(s.refs, Replay(s, steps).refs)
  {
    if steps != [] {
      var before := Replay(s, steps[..|steps| - 1]);
      RunKeepsNumbers(s, steps[..|steps| - 1]);
      match steps[|steps| - 1]
      case PutStep(puts) => PutAllKeepsNumbers(before, puts);
      case RepointStep(p) => PutNumbers(before, p, true);
    }
  }

  // ---- what a move between projects does ----

  // The form f went from its home project to another one with its number and group.
  ghost predicate WentAway(before: Refs, after: Refs, f: Identity, away: string) {
    && f in before && f in after && before[f].project != away && before[f].group != Unnumbered
    && after == before[f := after[f]]
    && after[f].project == away && after[f].number == before[f].number && after[f].group == before[f].group
  }

  lemma HomeDenseIff(before: Refs, after: Refs, f: Identity, away: string)
    requires AllDense(before) && WentAway(before, after, f, away)
    ensures Dense(after, before[f].project, before[f].group) <==>
            before[f].number == |Numbered(before, before[f].project, before[f].group)|
  {
    var group, home := before[f].group, before[f].project;
    assert Dense(before, home, group);
    assert Numbered(after, home, group) == Numbered(before, home, group) - {f};
    LeaveKeepsDense(before, after, f, home, group);
  }

  lemma AwayDenseIff(before: Refs, after: Refs, f: Identity, away: string)
    requires AllDense(before) && WentAway(before, after, f, away)
    ensures Dense(after, away, before[f].group) <==>
            before[f].number == |Numbered(before, away, before[f].group)| + 1
  {
    var group := before[f].group;
    assert Dense(before, away, group);
    assert Numbered(after, away, group) == Numbered(before, away, group) + {f};
    JoinKeepsDense(before, after, f, away, group);
  }

  lemma WentAwayDenseIff(before: Refs, after: Refs, f: Identity, away: string)
    requires AllDense(before) && WentAway(before, after, f, away)
    ensures AllDense(after) <==>
              && before[f].number == |Numbered(before, before[f].project, before[f].group)|
              && before[f].number == |Numbered(before, away, before[f].group)| + 1
  {
    HomeDenseIff(before, after, f, away);
    AwayDenseIff(before, after, f, away);
    OthersStayDense(before, after, f, away);
  }

  lemma OthersStayDense(before: Refs, after: Refs, f: Identity, away: string)
    requires AllDense(before) && WentAway(before, after, f, away)
    ensures forall project, g :: g != Unnumbered && !(g == before[f].group && (project == before[f].project || project == away)) ==>
              Dense(after, project, g)
  {
    forall project, g | g != Unnumbered && !(g == before[f].group && (project == before[f].project || project == away))
      ensures Dense(after, project, g)
    {
      assert Numbered(after, project, g) == Numbered(before, project, g);
      SameGroup(before, after, project, g);
    }
  }

  // Moving a form to another project keeps the numbering dense exactly when the form held the last number
  // of the one group and that is the next number of the other.
  lemma MoveKeepsDenseIff(s: Archive, p: Put, repoint: bool)
    requires AllDense(s.refs) && p.ref.form in s.refs
    requires !StaysInProject(s, p) && s.refs[p.ref.form].group != Unnumbered
    requires PutUnit(s, p, repoint).archive.refs != s.refs
    ensures var f := p.ref.form;
            var group, number := s.refs[f].group, s.refs[f].number;
            AllDense(PutUnit(s, p, repoint).archive.refs) <==>
              && number == |Numbered(s.refs, s.refs[f].project, group)|
              && number == |Numbered(s.refs, p.ref.project, group)| + 1
  {
    var after := PutUnit(s, p, repoint).archive.refs;
    PutNumbers(s, p, repoint);
    assert after[p.ref.form] == s.refs[p.ref.form] ==> after == s.refs;
    WentAwayDenseIff(s.refs, after, p.ref.form, p.ref.project);
  }

  // ---- the instances of one line ----

  // References stand in the group of their type.
  ghost predicate Grouped(refs: Refs) {
    forall f :: f in refs ==> refs[f].group == GroupOf(f.typ)
  }

  predicate TypeNamed(p: Put) {
    p.ref.typ == p.ref.form.typ
  }

  lemma PutKeepsGrouped(s: Archive, p: Put, repoint: bool)
    requires Grouped(s.refs) && TypeNamed(p)
    ensures Grouped(PutUnit(s, p, repoint).archive.refs)
  {
    PutNumbers(s, p, repoint);
  }

  lemma {:induction false} PutAllKeepsGrouped(s: Archive, puts: seq<Put>)
    requires Grouped(s.refs) && forall p :: p in puts ==> Named(p)
    ensures Grouped(PutAll(s, puts).refs)
  {
    if puts != [] {
      PutAllKeepsGrouped(s, puts[..|puts| - 1]);
      assert Named(puts[|puts| - 1]);
      PutKeepsGrouped(PutAll(s, puts[..|puts| - 1]), puts[|puts| - 1], false);
    }
  }

  lemma {:induction false} RunIsGrouped(steps: seq<Step>)
    requires forall step :: step in steps ==> NamedStep(step)
    ensures Grouped(Replay(EMPTY, steps).refs)
  {
    if steps != [] {
      RunIsGrouped(steps[..|steps| - 1]);
      var before, step := Replay(EMPTY, steps[..|steps| - 1]), steps[|steps| - 1];
      assert NamedStep(step);
      match step
      case PutStep(puts) => PutAllKeepsGrouped(before, puts);
      case RepointStep(p) => PutKeepsGrouped(before, p, true);
    }
  }

  // The first put of another instance of the line of f: inside the project its number is larger than that of f, and
  // it is the same only by coincidence, in another project whose next number it is.
  lemma NewInstanceNumber(s: Archive, p: Put, repoint: bool, f: Identity)
    requires AllDense(s.refs) && Grouped(s.refs) && f in s.refs && p.ref.form !in s.refs
    requires TypeNamed(p) && LineOf(p.ref.form) == LineOf(f) && GroupOf(f.typ) != Unnumbered
    ensures p.ref.form in PutUnit(s, p, repoint).archive.refs
    ensures var earlier, later := s.refs[f], PutUnit(s, p, repoint).archive.refs[p.ref.form];
            && (later.project == earlier.project ==> later.number > earlier.number)
            && (later.number == earlier.number <==>
                  later.project != earlier.project
                  && |Numbered(s.refs, later.project, earlier.group)| + 1 == earlier.number)
  {
    PutNumbers(s, p, repoint);
    NextAfterDense(s.refs, p.ref.project, GroupOf(f.typ));
    assert Dense(s.refs, s.refs[f].project, s.refs[f].group);
    assert f in Numbered(s.refs, s.refs[f].project, s.refs[f].group);
  }

  // Two instances of a line in one project never share a number.
  lemma InstancesNumberedApart(steps: seq<Step>, f: Identity, g: Identity)
    requires RunStays(EMPTY, steps) && forall step :: step in steps ==> NamedStep(step)
    requires var refs := Replay(EMPTY, steps).refs;
             f in refs && g in refs && f != g && LineOf(f) == LineOf(g) && refs[f].project == refs[g].project
    requires GroupOf(f.typ) != Unnumbered
    ensures var refs := Replay(EMPTY, steps).refs; refs[f].number != refs[g].number
  {
    var refs := Replay(EMPTY, steps).refs;
    RunIsDense(steps);
    RunIsGrouped(steps);
    assert Dense(refs, refs[f].project, GroupOf(f.typ));
    assert f in Numbered(refs, refs[f].project, GroupOf(f.typ)) && g in Numbered(refs, refs[f].project, GroupOf(f.typ));
  }

  // A line's number changes with its second instance.
  lemma SecondInstanceIsNumberTwo(p: Put, q: Put)
    requires p.ref.form == Identity("n", Sto, "a", 1) && q.ref.form == Identity("n", Sto, "a", 2)
    requires TypeNamed(p) && TypeNamed(q) && p.ref.project == q.ref.project
    ensures var refs := PutAll(EMPTY, [p, q]).refs;
            && p.ref.form in refs && q.ref.form in refs
            && refs[p.ref.form].number == 1 && refs[q.ref.form].number == 2
  {
    var one := PutUnit(EMPTY, p, false).archive;
    EmptyIsDense();
    PutNumbers(EMPTY, p, false);
    NextAfterDense(EMPTY.refs, p.ref.project, WorkItem);
    PutKeepsAllDense(EMPTY, p, false);
    PutNumbers(one, q, false);
    NextAfterDense(one.refs, p.ref.project, WorkItem);
    assert Numbered(EMPTY.refs, p.ref.project, WorkItem) == {};
    assert Numbered(one.refs, p.ref.project, WorkItem) == {p.ref.form};
    assert PutAll(EMPTY, [p]) == one by { assert [p][..0] == []; }
    assert [p, q][..1] == [p];
  }

  // ---- the three kinds of numbered artifacts, by type ----

  // Tickets, notes and work items.
  predicate IsKind(types: set<TypeToken>) {
    types == {Tkt} || types == {Cmt} || types == {Sto, Ts, Bug, Td, Ch, Spk}
  }

  ghost function FormsOf(refs: Refs, project: string, types: set<TypeToken>): set<Identity> {
    set f | f in refs && refs[f].project == project && f.typ in types
  }

  // The forms carry exactly the numbers from one to their count, each once.
  ghost predicate NumberedInOrder(refs: Refs, forms: set<Identity>) {
    && (forall f :: f in forms ==> f in refs && 1 <= refs[f].number <= |forms|)
    && (forall f, g :: f in forms && g in forms && refs[f].number == refs[g].number ==> f == g)
    && Filled(refs, forms, |forms|)
  }

  lemma KindIsGroup(types: set<TypeToken>, t: TypeToken, u: TypeToken)
    requires IsKind(types) && t in types
    ensures GroupOf(t) != Unnumbered && (GroupOf(u) == GroupOf(t) <==> u in types)
  {
    GroupMeans(t);
    GroupMeans(u);
  }

  lemma FormsAreNumbered(refs: Refs, project: string, types: set<TypeToken>, t: TypeToken)
    requires Grouped(refs) && IsKind(types) && t in types
    ensures FormsOf(refs, project, types) == Numbered(refs, project, GroupOf(t))
  {
    forall f | f in refs
      ensures refs[f].group == GroupOf(t) <==> f.typ in types
    {
      KindIsGroup(types, t, f.typ);
    }
  }

  // As long as no put moves a form to another project, the tickets of a project are numbered one to n, and so are its
  // notes, and so are its work items, each on their own.
  lemma RunNumbersEachKind(steps: seq<Step>, project: string, types: set<TypeToken>)
    requires RunStays(EMPTY, steps) && forall step :: step in steps ==> NamedStep(step)
    requires IsKind(types)
    ensures var refs := Replay(EMPTY, steps).refs; NumberedInOrder(refs, FormsOf(refs, project, types))
  {
    var refs := Replay(EMPTY, steps).refs;
    var t :| t in types;
    RunIsDense(steps);
    RunIsGrouped(steps);
    KindIsGroup(types, t, t);
    FormsAreNumbered(refs, project, types, t);
    assert Dense(refs, project, GroupOf(t));
  }

  // References outside the groups carry no number.
  ghost predicate OthersBlank(refs: Refs) {
    forall f :: f in refs && f.typ !in {Tkt, Cmt, Sto, Ts, Bug, Td, Ch, Spk} ==> refs[f].number == 0
  }

  lemma PutKeepsBlank(s: Archive, p: Put, repoint: bool)
    requires OthersBlank(s.refs) && TypeNamed(p)
    ensures OthersBlank(PutUnit(s, p, repoint).archive.refs)
  {
    PutNumbers(s, p, repoint);
    var after := PutUnit(s, p, repoint).archive.refs;
    if p.ref.typ !in {Tkt, Cmt, Sto, Ts, Bug, Td, Ch, Spk} && p.ref.form !in s.refs {
      BlankFirst(s, p, repoint);
    }
  }

  lemma BlankFirst(s: Archive, p: Put, repoint: bool)
    requires p.ref.form !in s.refs && p.ref.typ !in {Tkt, Cmt, Sto, Ts, Bug, Td, Ch, Spk}
    ensures var refs := PutUnit(s, p, repoint).archive.refs; p.ref.form in refs && refs[p.ref.form].number == 0
  {
  }

  lemma {:induction false} PutAllKeepsBlank(s: Archive, puts: seq<Put>)
    requires OthersBlank(s.refs) && forall p :: p in puts ==> Named(p)
    ensures OthersBlank(PutAll(s, puts).refs)
  {
    if puts != [] {
      PutAllKeepsBlank(s, puts[..|puts| - 1]);
      assert Named(puts[|puts| - 1]);
      PutKeepsBlank(PutAll(s, puts[..|puts| - 1]), puts[|puts| - 1], false);
    }
  }

  // Over every run, moves between projects included.
  lemma {:induction false} RunKeepsOthersBlank(steps: seq<Step>)
    requires forall step :: step in steps ==> NamedStep(step)
    ensures OthersBlank(Replay(EMPTY, steps).refs)
  {
    if steps != [] {
      RunKeepsOthersBlank(steps[..|steps| - 1]);
      var before, step := Replay(EMPTY, steps[..|steps| - 1]), steps[|steps| - 1];
      assert NamedStep(step);
      match step
      case PutStep(puts) => PutAllKeepsBlank(before, puts);
      case RepointStep(p) => PutKeepsBlank(before, p, true);
    }
  }

  lemma OtherKindLeavesGroup(before: Refs, p: Put, after: Refs, project: string, group: NumberGroup)
    requires Renumbered(before, p, after) && Grouped(before) && TypeNamed(p) && GroupOf(p.ref.typ) != group
    ensures Numbered(after, project, group) == Numbered(before, project, group)
    ensures forall f :: f in Numbered(before, project, group) ==> after[f].number == before[f].number
  {
  }

  lemma SameNext(before: Refs, after: Refs, project: string, group: NumberGroup)
    requires Numbered(after, project, group) == Numbered(before, project, group)
    requires forall f :: f in Numbered(before, project, group) ==> after[f].number == before[f].number
    requires Dense(before, project, group)
    ensures NextNumber(after, project, group) == NextNumber(before, project, group)
  {
    SameGroup(before, after, project, group);
    NextAfterDense(before, project, group);
    NextAfterDense(after, project, group);
  }

  // What a first put of one kind is numbered does not depend on a put of another kind before it.
  lemma OtherKindLeavesNext(s: Archive, p: Put, repoint: bool, q: Put, types: set<TypeToken>)
    requires AllDense(s.refs) && Grouped(s.refs) && TypeNamed(p) && TypeNamed(q)
    requires IsKind(types) && q.ref.typ in types && p.ref.typ !in types && q.ref.form !in s.refs
    ensures var t := PutUnit(s, p, repoint).archive;
            && q.ref.form in PutUnit(s, q, false).archive.refs && q.ref.form in PutUnit(t, q, false).archive.refs
            && PutUnit(t, q, false).archive.refs[q.ref.form].number == PutUnit(s, q, false).archive.refs[q.ref.form].number
  {
    var t, group := PutUnit(s, p, repoint).archive, GroupOf(q.ref.typ);
    KindIsGroup(types, q.ref.typ, p.ref.typ);
    PutNumbers(s, p, repoint);
    PutNumbers(s, q, false);
    PutNumbers(t, q, false);
    OtherKindLeavesGroup(s.refs, p, t.refs, q.ref.project, group);
    SameNext(s.refs, t.refs, q.ref.project, group);
  }

  // A story and a ticket, the first of their project, are both number one.
  lemma FirstOfEachKindIsOne(p: Put, q: Put)
    requires p.ref.form == Identity("n", Sto, "a", 1) && q.ref.form == Identity("n", Tkt, "t", 1)
    requires TypeNamed(p) && TypeNamed(q) && p.ref.project == q.ref.project
    ensures var refs := PutUnit(PutUnit(EMPTY, p, false).archive, q, false).archive.refs;
            && p.ref.form in refs && q.ref.form in refs
            && refs[p.ref.form].number == 1 && refs[q.ref.form].number == 1
  {
    EmptyIsDense();
    OtherKindLeavesNext(EMPTY, p, false, q, {Tkt});
    FirstIsOne(p);
    FirstIsOne(q);
    PutNumbers(PutUnit(EMPTY, p, false).archive, q, false);
  }

  lemma FirstIsOne(p: Put)
    requires p.ref.typ in {Tkt, Cmt, Sto, Ts, Bug, Td, Ch, Spk}
    ensures var refs := PutUnit(EMPTY, p, false).archive.refs; p.ref.form in refs && refs[p.ref.form].number == 1
  {
    EmptyIsDense();
    PutNumbers(EMPTY, p, false);
    NextAfterDense(EMPTY.refs, p.ref.project, GroupOf(p.ref.typ));
    assert Numbered(EMPTY.refs, p.ref.project, GroupOf(p.ref.typ)) == {};
  }
}
