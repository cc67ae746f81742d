/** Write order of the accepted units of an import (exchange/integrate.go). */
module CommitOrder {
  import opened Ordering
  import opened Graphs

  // One accepted unit: its canonical form and its relationship targets, repetitions included.
  datatype NewUnit = NewUnit(form: string, targets: seq<string>)

  type Package = map<string, NewUnit>

  ghost function Forms(units: seq<NewUnit>): seq<string> {
    seq(|units|, i requires 0 <= i < |units| => units[i].form)
  }

  // Every form names one unit.
  ghost predicate ByForm(units: seq<NewUnit>, pkg: Package) {
    && (forall u :: u in units ==> u.form in pkg && pkg[u.form] == u)
    && (forall f :: f in pkg ==> pkg[f] in units && pkg[f].form == f)
  }

  ghost function Indexed(units: seq<NewUnit>): (pkg: Package)
    requires Distinct(Forms(units))
    ensures ByForm(units, pkg)
  {
    FormsApart(units);
    map i: int | 0 <= i < |units| :: units[i].form := units[i]
  }

  lemma FormsApart(units: seq<NewUnit>)
    requires Distinct(Forms(units))
    ensures forall i, j :: 0 <= i < |units| && 0 <= j < |units| && units[i].form == units[j].form ==> i == j
  {
    forall i, j | 0 <= i < |units| && 0 <= j < |units| && units[i].form == units[j].form
      ensures i == j
    {
      assert Forms(units)[i] == Forms(units)[j];
    }
  }

  ghost function RefGraph(pkg: Package): Graph<string> {
    map f | f in pkg :: set t | t in pkg[f].targets && t in pkg
  }

  // How many relationships point into rest.
  function Pending(targets: seq<string>, rest: set<string>): nat {
    if targets == [] then 0
    else (if targets[0] in rest then 1 else 0) + Pending(targets[1..], rest)
  }

  ghost predicate Free(pkg: Package, rest: set<string>, f: string) {
    f in rest && f in pkg && Pending(pkg[f].targets, rest) == 0
  }

  ghost function FreeForms(pkg: Package, rest: set<string>): set<string> {
    set f | f in rest && Free(pkg, rest, f)
  }

  // The forms one round emits: all free ones, or the least remaining one when a cycle blocks them all.
  ghost function Batch(pkg: Package, rest: set<string>): (r: set<string>)
    requires rest != {}
    ensures r != {} && r <= rest
  {
    var free := FreeForms(pkg, rest);
    if free != {} then free else {Least(rest)}
  }

  // The rounds that remain once only rest is unwritten.
  ghost function Rounds(pkg: Package, rest: set<string>): seq<string> {
    if rest == {} then []
    else
      var batch := Batch(pkg, rest);
      Ascending(batch) + Rounds(pkg, rest - batch)
  }

  lemma {:induction false} PendingZero(targets: seq<string>, rest: set<string>)
    ensures Pending(targets, rest) == 0 <==> forall t :: t in targets ==> t !in rest
  {
    if targets != [] {
      PendingZero(targets[1..], rest);
      assert targets == [targets[0]] + targets[1..];
    }
  }

  lemma {:induction false} PendingDrops(targets: seq<string>, rest: set<string>, f: string)
    requires f in rest
    ensures Pending(targets, rest - {f}) == Pending(targets, rest) - multiset(targets)[f]
  {
    if targets != [] {
      PendingDrops(targets[1..], rest, f);
      assert targets == [targets[0]] + targets[1..];
    }
  }

  lemma {:induction false} RoundsEmitEachOnce(pkg: Package, rest: set<string>)
    ensures Distinct(Rounds(pkg, rest))
    ensures forall f :: f in Rounds(pkg, rest) <==> f in rest
  {
    if rest != {} {
      var batch := Batch(pkg, rest);
      AscendingIsSorted(batch);
      RoundsEmitEachOnce(pkg, rest - batch);
      DistinctConcat(Ascending(batch), Rounds(pkg, rest - batch));
    }
  }

  lemma DistinctConcat<T>(a: seq<T>, b: seq<T>)
    requires Distinct(a) && Distinct(b) && forall x :: x in a ==> x !in b
    ensures Distinct(a + b)
  {
    forall i, j | 0 <= i < j < |a + b|
      ensures (a + b)[i] != (a + b)[j]
    {
      if i < |a| <= j {
        assert (a + b)[i] in a && (a + b)[j] in b;
      }
    }
  }

  lemma BlockedReachesCycle(pkg: Package, rest: set<string>, f: string)
    requires rest <= pkg.Keys && f in rest && FreeForms(pkg, rest) == {}
    ensures ReachesCycle(RefGraph(pkg), f)
  {
    forall x | x in rest
      ensures HasSuccessorIn(RefGraph(pkg), rest, x)
    {
      assert x !in FreeForms(pkg, rest);
      PendingZero(pkg[x].targets, rest);
      var t :| t in pkg[x].targets && t in rest;
      assert Edge(RefGraph(pkg), x, t);
    }
    StuckReachesCycle(RefGraph(pkg), rest, f);
  }

  // A unit written while one of its targets is still unwritten reaches a cycle.
  lemma OpenTarget(pkg: Package, rest: set<string>, f: string, t: string)
    requires rest != {} && rest <= pkg.Keys && f in Batch(pkg, rest) && t in rest && Edge(RefGraph(pkg), f, t)
    ensures ReachesCycle(RefGraph(pkg), f)
  {
    if FreeForms(pkg, rest) == {} {
      BlockedReachesCycle(pkg, rest, f);
    } else {
      PendingZero(pkg[f].targets, rest);
    }
  }

  // What is unwritten when the i-th form is: its round comes out of it, and so does all that follows.
  ghost predicate OpenAt(pkg: Package, rest: set<string>, o: seq<string>, i: nat, open: set<string>)
    requires i < |o|
  {
    && open <= rest && open != {} && o[i] in Batch(pkg, open)
    && forall k :: i < k < |o| ==> o[k] in open
  }

  lemma OpenInTail(pkg: Package, rest: set<string>, batch: set<string>, head: seq<string>, tail: seq<string>, i: nat,
      open: set<string>)
    requires |head| <= i < |head| + |tail| && OpenAt(pkg, rest - batch, tail, i - |head|, open)
    ensures OpenAt(pkg, rest, head + tail, i, open)
  {
    assert (head + tail)[i] == tail[i - |head|];
    forall k | i < k < |head + tail|
      ensures (head + tail)[k] in open
    {
      assert (head + tail)[k] == tail[k - |head|];
    }
  }

  lemma {:induction false} RoundOf(pkg: Package, rest: set<string>, i: nat) returns (open: set<string>)
    requires i < |Rounds(pkg, rest)|
    ensures OpenAt(pkg, rest, Rounds(pkg, rest), i, open)
  {
    var batch := Batch(pkg, rest);
    var head, tail := Ascending(batch), Rounds(pkg, rest - batch);
    if i < |head| {
      open := rest;
      RoundsEmitEachOnce(pkg, rest);
      assert (head + tail)[i] == head[i] && head[i] in head;
      assert forall k :: 0 <= k < |head + tail| ==> (head + tail)[k] in head + tail;
    } else {
      open := RoundOf(pkg, rest - batch, i - |head|);
      OpenInTail(pkg, rest, batch, head, tail, i, open);
    }
  }

  // A unit is written before one of its targets only when it reaches a cycle.
  lemma TargetsFirstUnlessCyclic(pkg: Package, rest: set<string>, i: nat, j: nat)
    requires rest <= pkg.Keys
    requires i < j < |Rounds(pkg, rest)|
    requires Edge(RefGraph(pkg), Rounds(pkg, rest)[i], Rounds(pkg, rest)[j])
    ensures ReachesCycle(RefGraph(pkg), Rounds(pkg, rest)[i])
  {
    var o := Rounds(pkg, rest);
    var open := RoundOf(pkg, rest, i);
    OpenTarget(pkg, open, o[i], o[j]);
  }

  lemma AcyclicTargetIsEarlier(pkg: Package, i: nat, j: nat)
    requires Acyclic(RefGraph(pkg))
    requires i < |Rounds(pkg, pkg.Keys)| && j < |Rounds(pkg, pkg.Keys)|
    requires Edge(RefGraph(pkg), Rounds(pkg, pkg.Keys)[i], Rounds(pkg, pkg.Keys)[j])
    ensures j < i
  {
    var d := Rounds(pkg, pkg.Keys)[j];
    if i < j {
      TargetsFirstUnlessCyclic(pkg, pkg.Keys, i, j);
    }
    assert i == j ==> WalkBetween(RefGraph(pkg), [d, d], d, d);
    assert i == j ==> OnCycle(RefGraph(pkg), d);
  }

  lemma AcyclicTargetIsWritten(pkg: Package, i: nat, d: string)
    requires Acyclic(RefGraph(pkg))
    requires i < |Rounds(pkg, pkg.Keys)| && Edge(RefGraph(pkg), Rounds(pkg, pkg.Keys)[i], d)
    ensures d in Rounds(pkg, pkg.Keys)[..i]
  {
    var o := Rounds(pkg, pkg.Keys);
    RoundsEmitEachOnce(pkg, pkg.Keys);
    assert d in o;
    var j :| 0 <= j < |o| && o[j] == d;
    AcyclicTargetIsEarlier(pkg, i, j);
    assert o[..i][j] == d;
  }

  // Without cycles the order is topological.
  lemma AcyclicRoundsAreTopological(pkg: Package)
    requires Acyclic(RefGraph(pkg))
    ensures SuccessorsFirst(RefGraph(pkg), Rounds(pkg, pkg.Keys))
  {
    forall i, d | 0 <= i < |Rounds(pkg, pkg.Keys)| && Edge(RefGraph(pkg), Rounds(pkg, pkg.Keys)[i], d)
      ensures d in Rounds(pkg, pkg.Keys)[..i]
    {
      AcyclicTargetIsWritten(pkg, i, d);
    }
  }

  // ---- the counters of the implementation ----

  function Count(m: map<string, int>, k: string): int {
    if k in m then m[k] else 0
  }

  function Lookup(m: map<string, seq<string>>, k: string): seq<string> {
    if k in m then m[k] else []
  }

  // Counting the entry of every listed key up or down once per occurrence; a missing entry counts from zero.
  ghost predicate Shifted(before: map<string, int>, list: seq<string>, up: bool, after: map<string, int>) {
    && after.Keys == before.Keys + Elems(list)
    && forall k :: if up then Count(after, k) == Count(before, k) + multiset(list)[k]
                   else Count(after, k) == Count(before, k) - multiset(list)[k]
  }

  lemma ShiftStep(before: map<string, int>, list: seq<string>, up: bool, mid: map<string, int>, k: string,
      after: map<string, int>)
    requires Shifted(before, list, up, mid) && after == mid[k := Count(mid, k) + if up then 1 else -1]
    ensures Shifted(before, list + [k], up, after)
  {
    assert Elems(list + [k]) == Elems(list) + {k};
  }

  method Shift(before: map<string, int>, list: seq<string>, up: bool) returns (after: map<string, int>)
    ensures Shifted(before, list, up, after)
  {
    after := before;
    var i := 0;
    while i < |list|
      invariant 0 <= i <= |list|
      invariant Shifted(before, list[..i], up, after)
    {
      ghost var shifted := after;
      after := after[list[i] := Count(after, list[i]) + if up then 1 else -1];
      ShiftStep(before, list[..i], up, shifted, list[i], after);
      assert list[..i + 1] == list[..i] + [list[i]];
      i := i + 1;
    }
    assert list[..i] == list;
  }

  // A unit refers to t as often as it is listed among the referrers of t.
  ghost predicate ReferrersOf(pkg: Package, seen: set<string>, referrers: map<string, seq<string>>) {
    && referrers.Keys <= pkg.Keys
    && forall t, r :: t in pkg ==>
         multiset(Lookup(referrers, t))[r] == if r in seen && r in pkg then multiset(pkg[r].targets)[t] else 0
  }

  // Open units count the relationships still pointing at open units; entries left behind by a cycle break
  // have gone negative.
  ghost predicate Counters(pkg: Package, rest: set<string>, indegree: map<string, int>) {
    && rest <= indegree.Keys && indegree.Keys <= pkg.Keys
    && forall f :: f in indegree ==>
         if f in rest then indegree[f] == Pending(pkg[f].targets, rest) else indegree[f] < 0
  }

  lemma EmittingKeepsCounters(pkg: Package, rest: set<string>, f: string, referrers: map<string, seq<string>>,
                              before: map<string, int>, after: map<string, int>)
    requires rest <= pkg.Keys && f in rest
    requires ReferrersOf(pkg, pkg.Keys, referrers) && Counters(pkg, rest, before)
    requires Shifted(before, Lookup(referrers, f), false, after)
    ensures Counters(pkg, rest - {f}, after - {f})
  {
    var list := Lookup(referrers, f);
    forall r | r in list
      ensures r in pkg
    {
      assert multiset(list)[r] > 0;
    }
    forall r | r in after && r != f
      ensures if r in rest then after[r] == Pending(pkg[r].targets, rest - {f}) else after[r] < 0
    {
      assert after[r] == Count(before, r) - multiset(list)[r];
      assert multiset(list)[r] == multiset(pkg[r].targets)[f];
      PendingDrops(pkg[r].targets, rest, f);
      assert r !in before ==> r in Elems(list);
      assert r in list <==> multiset(list)[r] > 0;
    }
  }

  method CollectReferrers(units: seq<NewUnit>, ghost pkg: Package) returns (referrers: map<string, seq<string>>)
    requires ByForm(units, pkg) && Distinct(Forms(units))
    ensures ReferrersOf(pkg, pkg.Keys, referrers)
  {
    var inPackage := CollectForms(units);
    FormsArePackage(units, pkg);
    referrers := map[];
    assert Elems(Forms(units[..0])) == {};
    for i := 0 to |units|
      invariant ReferrersOf(pkg, Elems(Forms(units[..i])), referrers)
    {
      NextForm(units, i);
      assert units[i] in units;
      referrers := AddReferrer(pkg, Elems(Forms(units[..i])), units[i], inPackage, referrers);
    }
    assert units[..|units|] == units;
  }

  method CollectForms(units: seq<NewUnit>) returns (inPackage: set<string>)
    ensures inPackage == Elems(Forms(units))
  {
    inPackage := {};
    for i := 0 to |units|
      invariant inPackage == Elems(Forms(units[..i]))
    {
      assert Forms(units[..i + 1]) == Forms(units[..i]) + [units[i].form];
      inPackage := inPackage + {units[i].form};
    }
    assert units[..|units|] == units;
  }

  lemma NextForm(units: seq<NewUnit>, i: nat)
    requires i < |units| && Distinct(Forms(units))
    ensures units[i].form !in Elems(Forms(units[..i]))
    ensures Elems(Forms(units[..i + 1])) == Elems(Forms(units[..i])) + {units[i].form}
  {
    FormIsNew(units, i);
    assert Forms(units[..i + 1]) == Forms(units[..i]) + [units[i].form];
  }

  lemma FormsArePackage(units: seq<NewUnit>, pkg: Package)
    requires ByForm(units, pkg)
    ensures Elems(Forms(units)) == pkg.Keys
  {
    forall f
      ensures f in Forms(units) <==> f in pkg
    {
      if f in pkg {
        var i :| 0 <= i < |units| && units[i] == pkg[f];
        assert Forms(units)[i] == f;
      }
      if f in Forms(units) {
        var i :| 0 <= i < |units| && Forms(units)[i] == f;
        assert units[i] in units;
      }
    }
  }

  lemma FormIsNew(units: seq<NewUnit>, i: nat)
    requires i < |units| && Distinct(Forms(units))
    ensures units[i].form !in Forms(units[..i])
  {
    forall j | 0 <= j < i
      ensures Forms(units[..i])[j] != units[i].form
    {
      assert Forms(units)[j] != Forms(units)[i];
    }
  }

  // The first i targets of u have been recorded.
  ghost predicate Recorded(pkg: Package, u: NewUnit, i: nat, before: map<string, seq<string>>, after: map<string,
      seq<string>>)
    requires i <= |u.targets|
  {
    && after.Keys <= pkg.Keys
    && forall t, r :: t in pkg ==>
         multiset(Lookup(after, t))[r] ==
           multiset(Lookup(before, t))[r] + if r == u.form then multiset(u.targets[..i])[t] else 0
  }

  lemma RecordOne(pkg: Package, u: NewUnit, i: nat, before: map<string, seq<string>>,
                  mid: map<string, seq<string>>, after: map<string, seq<string>>)
    requires i < |u.targets| && Recorded(pkg, u, i, before, mid)
    requires after == if u.targets[i] in pkg then mid[u.targets[i] := Lookup(mid, u.targets[i]) + [u.form]] else mid
    ensures Recorded(pkg, u, i + 1, before, after)
  {
    var t0 := u.targets[i];
    assert u.targets[..i + 1] == u.targets[..i] + [t0];
    forall t, r | t in pkg
      ensures multiset(Lookup(after, t))[r] ==
              multiset(Lookup(before, t))[r] + if r == u.form then multiset(u.targets[..i + 1])[t] else 0
    {
      CountAppended(u.targets[..i], t0, t);
      CountAppended(Lookup(mid, t), u.form, r);
    }
  }

  lemma CountAppended(s: seq<string>, x: string, y: string)
    ensures multiset(s + [x])[y] == multiset(s)[y] + if x == y then 1 else 0
  {
  }

  method AddReferrer(ghost pkg: Package, ghost seen: set<string>, u: NewUnit, inPackage: set<string>,
                     before: map<string, seq<string>>)
    returns (referrers: map<string, seq<string>>)
    requires inPackage == pkg.Keys && u.form in pkg && pkg[u.form] == u && u.form !in seen
    requires ReferrersOf(pkg, seen, before)
    ensures ReferrersOf(pkg, seen + {u.form}, referrers)
  {
    referrers := before;
    for i := 0 to |u.targets|
      invariant Recorded(pkg, u, i, before, referrers)
    {
      ghost var mid := referrers;
      if u.targets[i] in inPackage {
        referrers := referrers[u.targets[i] := Lookup(referrers, u.targets[i]) + [u.form]];
      }
      RecordOne(pkg, u, i, before, mid, referrers);
    }
    AllRecorded(pkg, seen, u, before, referrers);
  }

  lemma AllRecorded(pkg: Package, seen: set<string>, u: NewUnit, before: map<string, seq<string>>, after: map<string,
      seq<string>>)
    requires u.form in pkg && pkg[u.form] == u && u.form !in seen
    requires ReferrersOf(pkg, seen, before) && Recorded(pkg, u, |u.targets|, before, after)
    ensures ReferrersOf(pkg, seen + {u.form}, after)
  {
    assert u.targets[..|u.targets|] == u.targets;
  }

  method InitialCounters(units: seq<NewUnit>, ghost pkg: Package, referrers: map<string, seq<string>>)
    returns (byForm: Package, indegree: map<string, int>)
    requires ByForm(units, pkg) && Distinct(Forms(units)) && ReferrersOf(pkg, pkg.Keys, referrers)
    ensures byForm == pkg
    ensures Counters(pkg, pkg.Keys, indegree)
  {
    byForm, indegree := Zeroed(units, pkg);
    indegree := AddReferences(pkg, referrers, indegree);
  }

  // The units by form, with counters at zero.
  method Zeroed(units: seq<NewUnit>, ghost pkg: Package) returns (byForm: Package, indegree: map<string, int>)
    requires ByForm(units, pkg) && Distinct(Forms(units))
    ensures byForm == pkg
    ensures indegree.Keys == pkg.Keys && forall f :: f in indegree ==> indegree[f] == 0
  {
    byForm, indegree := map[], map[];
    for i := 0 to |units|
      invariant byForm.Keys == indegree.Keys == Elems(Forms(units[..i]))
      invariant forall f :: f in byForm ==> f in pkg && byForm[f] == pkg[f]
      invariant forall f :: f in indegree ==> indegree[f] == 0
    {
      NextForm(units, i);
      assert units[i] in units;
      byForm := byForm[units[i].form := units[i]];
      indegree := indegree[units[i].form := 0];
    }
    assert units[..|units|] == units;
    FormsArePackage(units, pkg);
  }

  method AddReferences(ghost pkg: Package, referrers: map<string, seq<string>>, zero: map<string, int>)
    returns (indegree: map<string, int>)
    requires ReferrersOf(pkg, pkg.Keys, referrers)
    requires zero.Keys == pkg.Keys && forall f :: f in zero ==> zero[f] == 0
    ensures Counters(pkg, pkg.Keys, indegree)
  {
    indegree := zero;
    forall f | f in pkg { PendingNone(pkg[f].targets); }
    var todo := referrers.Keys;
    assert referrers.Keys - todo == {};
    while todo != {}
      invariant todo <= referrers.Keys
      invariant CountsInto(pkg, referrers.Keys - todo, indegree)
    {
      var t :| t in todo;
      ghost var before := indegree;
      indegree := Shift(indegree, referrers[t], true);
      CountMore(pkg, referrers, referrers.Keys - todo, t, before, indegree);
      Visited(referrers.Keys, todo, t);
      todo := todo - {t};
    }
    assert referrers.Keys - todo == referrers.Keys;
    CountsAreComplete(pkg, referrers, indegree);
  }

  ghost predicate CountsInto(pkg: Package, targets: set<string>, indegree: map<string, int>) {
    indegree.Keys == pkg.Keys && forall f :: f in pkg ==> indegree[f] == Pending(pkg[f].targets, targets)
  }

  lemma {:induction false} PendingNone(targets: seq<string>)
    ensures Pending(targets, {}) == 0
  {
    PendingZero(targets, {});
  }

  lemma {:induction false} PendingSame(targets: seq<string>, a: set<string>, b: set<string>)
    requires forall t :: t in targets ==> (t in a <==> t in b)
    ensures Pending(targets, a) == Pending(targets, b)
  {
    if targets != [] {
      assert targets[0] in targets;
      assert forall t :: t in targets[1..] ==> t in targets;
      PendingSame(targets[1..], a, b);
    }
  }

  lemma CountMore(pkg: Package, referrers: map<string, seq<string>>, targets: set<string>, t: string,
                  before: map<string, int>, after: map<string, int>)
    requires ReferrersOf(pkg, pkg.Keys, referrers) && t in referrers && t !in targets
    requires CountsInto(pkg, targets, before) && Shifted(before, referrers[t], true, after)
    ensures CountsInto(pkg, targets + {t}, after)
  {
    var list := Lookup(referrers, t);
    forall r | r in list
      ensures r in pkg
    {
      assert multiset(list)[r] > 0;
    }
    forall f | f in pkg
      ensures after[f] == Pending(pkg[f].targets, targets + {t})
    {
      PendingDrops(pkg[f].targets, targets + {t}, t);
      assert (targets + {t}) - {t} == targets;
      assert Count(after, f) == Count(before, f) + multiset(list)[f];
    }
  }

  lemma CountsAreComplete(pkg: Package, referrers: map<string, seq<string>>, indegree: map<string, int>)
    requires ReferrersOf(pkg, pkg.Keys, referrers) && CountsInto(pkg, referrers.Keys, indegree)
    ensures Counters(pkg, pkg.Keys, indegree)
  {
    forall f | f in pkg
      ensures Pending(pkg[f].targets, referrers.Keys) == Pending(pkg[f].targets, pkg.Keys)
    {
      forall t | t in pkg[f].targets && t in pkg
        ensures t in referrers
      {
        assert multiset(Lookup(referrers, t))[f] == multiset(pkg[f].targets)[t];
      }
      PendingSame(pkg[f].targets, referrers.Keys, pkg.Keys);
    }
  }

  // The forms whose counter satisfies the test, sorted.
  method Collect(indegree: map<string, int>, positive: bool) returns (forms: seq<string>)
    ensures Sorted(forms) && Distinct(forms)
    ensures forall f :: f in forms <==> f in indegree && if positive then indegree[f] > 0 else indegree[f] == 0
  {
    forms := [];
    var todo := indegree.Keys;
    while todo != {}
      invariant todo <= indegree.Keys
      invariant Distinct(forms)
      invariant forall f :: f in forms <==>
        f in indegree && f !in todo && if positive then indegree[f] > 0 else indegree[f] == 0
    {
      var f :| f in todo;
      if (if positive then indegree[f] > 0 else indegree[f] == 0) {
        forms := forms + [f];
      }
      todo := todo - {f};
    }
    SortKeepsElements(forms);
    forms := SortStrings(forms);
  }

  lemma ReadyFormsAreFree(pkg: Package, rest: set<string>, indegree: map<string, int>, forms: seq<string>)
    requires rest <= pkg.Keys && Counters(pkg, rest, indegree)
    requires Sorted(forms) && Distinct(forms) && forall f :: f in forms <==> f in indegree && indegree[f] == 0
    ensures forms == Ascending(FreeForms(pkg, rest))
  {
    forall f
      ensures f in forms <==> f in FreeForms(pkg, rest)
    {
      if f in rest { assert f in indegree; }
    }
    SortedIsAscending(forms, FreeForms(pkg, rest));
  }

  // When nothing is free the positive counters are exactly the open units, so the first one is the least.
  lemma BlockedFormsArePositive(pkg: Package, rest: set<string>, indegree: map<string, int>, forms: seq<string>)
    requires rest != {} && rest <= pkg.Keys && Counters(pkg, rest, indegree) && FreeForms(pkg, rest) == {}
    requires Sorted(forms) && Distinct(forms) && forall f :: f in forms <==> f in indegree && indegree[f] > 0
    ensures forms != [] && forms[0] == Least(rest)
  {
    forall f
      ensures f in forms <==> f in rest
    {
      if f in rest { assert f in indegree && f !in FreeForms(pkg, rest); }
    }
    SortedIsAscending(forms, rest);
  }

  // Emits one round.
  lemma RestShrinks(rest: set<string>, forms: seq<string>, i: nat)
    requires i < |forms| && Distinct(forms) && forall f :: f in forms ==> f in rest
    ensures forms[..i + 1] == forms[..i] + [forms[i]]
    ensures forms[i] in rest - Elems(forms[..i])
    ensures rest - Elems(forms[..i + 1]) == (rest - Elems(forms[..i])) - {forms[i]}
  {
    assert forms[..i + 1] == forms[..i] + [forms[i]];
    assert forms[i] in forms && forms[i] !in forms[..i];
  }

  method EmitRound(ghost pkg: Package, ghost rest: set<string>, byForm: Package,
                   referrers: map<string, seq<string>>, before: map<string, int>, forms: seq<string>)
    returns (emitted: seq<NewUnit>, indegree: map<string, int>)
    requires byForm == pkg && rest <= pkg.Keys && Distinct(forms) && forall f :: f in forms ==> f in rest
    requires ReferrersOf(pkg, pkg.Keys, referrers) && Counters(pkg, rest, before)
    requires forall f :: f in pkg ==> pkg[f].form == f
    ensures Forms(emitted) == forms && forall u :: u in emitted ==> u.form in pkg && u == pkg[u.form]
    ensures Counters(pkg, rest - Elems(forms), indegree)
  {
    emitted, indegree := [], before;
    assert rest - Elems(forms[..0]) == rest;
    for i := 0 to |forms|
      invariant Forms(emitted) == forms[..i]
      invariant forall u :: u in emitted ==> u.form in pkg && u == pkg[u.form]
      invariant Counters(pkg, rest - Elems(forms[..i]), indegree)
    {
      var form := forms[i];
      RestShrinks(rest, forms, i);
      emitted := emitted + [byForm[form]];
      ghost var counters := indegree;
      indegree := Shift(indegree, Lookup(referrers, form), false);
      EmittingKeepsCounters(pkg, rest - Elems(forms[..i]), form, referrers, counters, indegree);
      indegree := indegree - {form};
    }
    assert forms[..|forms|] == forms;
  }

  // The next batch of forms, chosen from the counters alone.
  method NextBatch(ghost pkg: Package, ghost rest: set<string>, indegree: map<string, int>) returns (forms: seq<string>)
    requires rest != {} && rest <= pkg.Keys && Counters(pkg, rest, indegree)
    ensures forms == Ascending(Batch(pkg, rest))
  {
    forms := Collect(indegree, false);
    ReadyFormsAreFree(pkg, rest, indegree, forms);
    if |forms| == 0 {
      var blocked := Collect(indegree, true);
      assert FreeForms(pkg, rest) == {};
      BlockedFormsArePositive(pkg, rest, indegree, blocked);
      forms := [blocked[0]];
      assert {Least(rest)} - {Least(rest)} == {};
    }
  }

  lemma RoundDone(pkg: Package, rest: set<string>, forms: seq<string>)
    requires rest != {} && forms == Ascending(Batch(pkg, rest))
    ensures Distinct(forms) && Elems(forms) == Batch(pkg, rest)
    ensures Rounds(pkg, rest) == forms + Rounds(pkg, rest - Elems(forms))
    ensures |rest - Elems(forms)| + |forms| == |rest| && |forms| > 0
  {
    AscendingIsSorted(Batch(pkg, rest));
    DistinctSize(forms);
    assert rest == Elems(forms) + (rest - Elems(forms));
  }

  ghost predicate Written(pkg: Package, rest: set<string>, order: seq<NewUnit>) {
    && rest <= pkg.Keys
    && |order| + |rest| == |pkg|
    && Forms(order) + Rounds(pkg, rest) == Rounds(pkg, pkg.Keys)
    && forall u :: u in order ==> u.form in pkg && u == pkg[u.form]
  }

  lemma RoundWritten(pkg: Package, rest: set<string>, order: seq<NewUnit>, emitted: seq<NewUnit>)
    requires rest != {} && Written(pkg, rest, order)
    requires Forms(emitted) == Ascending(Batch(pkg, rest))
    requires forall u :: u in emitted ==> u.form in pkg && u == pkg[u.form]
    ensures Written(pkg, rest - Elems(Forms(emitted)), order + emitted)
    ensures |emitted| > 0
  {
    var done, batch := Forms(order), Forms(emitted);
    RoundDone(pkg, rest, batch);
    assert |emitted| == |batch|;
    FormsConcat(order, emitted);
    Associative(done, batch, Rounds(pkg, rest - Elems(batch)));
  }

  lemma FormsConcat(a: seq<NewUnit>, b: seq<NewUnit>)
    ensures Forms(a + b) == Forms(a) + Forms(b)
  {
  }

  lemma Associative(a: seq<string>, b: seq<string>, c: seq<string>)
    ensures (a + b) + c == a + (b + c)
  {
  }

  // The dependency-resolved write order: Kahn's rounds with cycle breaking.
  method Order(units: seq<NewUnit>) returns (order: seq<NewUnit>)
    requires Distinct(Forms(units))
    ensures Forms(order) == Rounds(Indexed(units), Indexed(units).Keys)
    ensures multiset(order) == multiset(units)
  {
    ghost var pkg := Indexed(units);
    var referrers := CollectReferrers(units, pkg);
    var byForm, indegree := InitialCounters(units, pkg, referrers);
    order := [];
    ghost var rest := pkg.Keys;
    PackageSize(units, pkg);
    while |order| < |units|
      invariant Written(pkg, rest, order)
      invariant Counters(pkg, rest, indegree)
      decreases |units| - |order|
    {
      var forms := NextBatch(pkg, rest, indegree);
      RoundDone(pkg, rest, forms);
      var emitted;
      emitted, indegree := EmitRound(pkg, rest, byForm, referrers, indegree, forms);
      RoundWritten(pkg, rest, order, emitted);
      order := order + emitted;
      rest := rest - Elems(forms);
    }
    assert rest == {};
    SameUnits(units, order);
  }

  // The order lists the units themselves, each once.
  lemma SameUnits(units: seq<NewUnit>, order: seq<NewUnit>)
    requires Distinct(Forms(units)) && Written(Indexed(units), {}, order)
    ensures multiset(order) == multiset(units)
  {
    var pkg := Indexed(units);
    RoundsEmitEachOnce(pkg, pkg.Keys);
    assert Forms(order) == Rounds(pkg, pkg.Keys);
    FormsArePackage(units, pkg);
    OneUnitPerForm(units);
    OneUnitPerForm(order);
    forall u { SameUnit(units, order, pkg, u); }
    EqualMultisets(order, units);
  }

  lemma EqualMultisets(a: seq<NewUnit>, b: seq<NewUnit>)
    requires forall u :: u in a <==> u in b
    requires forall u :: multiset(a)[u] <= 1
    requires forall u :: multiset(b)[u] <= 1
    ensures multiset(a) == multiset(b)
  {
    forall u
      ensures multiset(a)[u] == multiset(b)[u]
    {
      assert (u in a <==> u in multiset(a)) && (u in b <==> u in multiset(b));
    }
  }

  lemma SameUnit(units: seq<NewUnit>, order: seq<NewUnit>, pkg: Package, u: NewUnit)
    requires ByForm(units, pkg)
    requires forall f :: f in Forms(order) <==> f in pkg
    requires forall v :: v in order ==> v.form in pkg && v == pkg[v.form]
    ensures u in order <==> u in units
  {
    if u in units {
      assert u.form in Forms(order);
      var i :| 0 <= i < |order| && Forms(order)[i] == u.form;
      assert order[i] in order;
    }
  }

  lemma OneUnitPerForm(units: seq<NewUnit>)
    requires Distinct(Forms(units))
    ensures forall u :: multiset(units)[u] <= 1
  {
    forall i, j | 0 <= i < j < |units|
      ensures units[i] != units[j]
    {
      assert Forms(units)[i] != Forms(units)[j];
    }
    DistinctIsMultiset(units);
  }

  lemma PackageSize(units: seq<NewUnit>, pkg: Package)
    requires Distinct(Forms(units)) && ByForm(units, pkg)
    ensures |pkg| == |units|
  {
    FormsArePackage(units, pkg);
    DistinctSize(Forms(units));
    assert |pkg.Keys| == |pkg|;
  }
}
