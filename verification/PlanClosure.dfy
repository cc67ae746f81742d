/** The plan a container depends on and its transitive closure (runtime/container.go, runtime/transition.go). */
module PlanClosure {
  import opened Taxonomy
  import opened References
  import opened Units
  import opened PayloadStore
  import opened Graphs
  import opened Queries

  // The plan line a relationship depends on.
  function PlanTarget(u: Unit, rel: Relationship): Option<Line> {
    match NamedLine(u, rel, "depends-on")
    case Some(l) => if l.typ == Plan then Some(l) else None
    case None => None
  }

  // The distinct plan lines among the first i depends-on targets.
  ghost function PlansWithin(u: Unit, i: nat): set<Line>
    requires i <= |u.relationships|
  {
    set j | 0 <= j < i && PlanTarget(u, u.relationships[j]).Some? :: PlanTarget(u, u.relationships[j]).value
  }

  datatype PlanRef = NoPlan | Ambiguous | ThePlan(line: Line)

  // The single element, if there is exactly one.
  ghost function Only(lines: set<Line>): PlanRef {
    if lines == {} then NoPlan
    else if exists l :: lines == {l} then
      var l :| lines == {l};
      ThePlan(l)
    else Ambiguous
  }

  // The plan a unit depends on.
  ghost function PlanOf(u: Unit): PlanRef {
    Only(PlansWithin(u, |u.relationships|))
  }

  lemma OnlyOne(lines: set<Line>, l: Line)
    ensures Only(lines) == ThePlan(l) <==> lines == {l}
  {
    if lines == {l} { assert l in lines; }
  }

  lemma PlanIsPlan(u: Unit)
    ensures PlanOf(u).ThePlan? ==> PlanOf(u).line.typ == Plan
  {
    if PlanOf(u).ThePlan? {
      OnlyOne(PlansWithin(u, |u.relationships|), PlanOf(u).line);
      assert PlanOf(u).line in PlansWithin(u, |u.relationships|);
    }
  }

  lemma PlansStep(u: Unit, i: nat)
    requires i < |u.relationships|
    ensures var line := PlanTarget(u, u.relationships[i]);
            PlansWithin(u, i + 1) == if line.Some? then PlansWithin(u, i) + {line.value} else PlansWithin(u, i)
  {
  }

  method ResolveDependsOnPlan(u: Unit) returns (p: PlanRef)
    ensures p == PlanOf(u)
  {
    var lines: set<Line> := {};
    for i := 0 to |u.relationships|
      invariant lines == PlansWithin(u, i)
    {
      PlansStep(u, i);
      var line := PlanTarget(u, u.relationships[i]);
      if line.Some? {
        lines := lines + {line.value};
      }
    }
    p := TheOnly(lines);
  }

  method TheOnly(lines: set<Line>) returns (p: PlanRef)
    ensures p == Only(lines)
  {
    if lines == {} {
      return NoPlan;
    }
    var l :| l in lines;
    OnlyOne(lines, l);
    if lines == {l} {
      return ThePlan(l);
    }
    return Ambiguous;
  }

  // ---- the closure ----

  // The line the walk follows along a relationship.
  function Follow(u: Unit, rel: Relationship): Option<Line> {
    match NamedLine(u, rel, "depends-on")
    case Some(l) => Some(l)
    case None => NamedLine(u, rel, "derives-from")
  }

  ghost function Followed(u: Unit): set<Line> {
    set rel | rel in u.relationships && Follow(u, rel).Some? :: Follow(u, rel).value
  }

  ghost function Lines(s: Archive): set<Line> {
    set f | f in s.refs :: LineOf(f)
  }

  // The edges of a line are those of its highest instance; a line without instances is a leaf.
  ghost function Successors(s: Archive, l: Line): set<Line> {
    var top := Top(s.refs.Keys, l);
    if top.Some? && top.value in s.refs then Followed(UnitAt(s, top.value)) else {}
  }

  ghost function LineGraph(s: Archive): Graph<Line> {
    map l | l in Lines(s) :: Successors(s, l)
  }

  // The lines in the closure of a container.
  ghost predicate InClosure(s: Archive, u: Unit, l: Line) {
    PlanOf(u).ThePlan? && Reaches(LineGraph(s), PlanOf(u).line, l)
  }

  ghost function Universe(s: Archive, start: Line): set<Line> {
    {start} + set l, t | l in LineGraph(s) && t in LineGraph(s)[l] :: t
  }

  // The targets a unit adds to the queue.
  method Enqueue(u: Unit, closure: set<Line>, before: seq<Line>) returns (queue: seq<Line>)
    ensures before <= queue
    ensures forall l :: l in queue ==> l in before || l in Followed(u)
    ensures forall l :: l in Followed(u) ==> l in closure || l in queue
  {
    queue := before;
    for i := 0 to |u.relationships|
      invariant Queued(u, i, closure, before, queue)
    {
      var line := Follow(u, u.relationships[i]);
      ghost var mid := queue;
      if line.Some? && line.value !in closure {
        queue := queue + [line.value];
      }
      QueueStep(u, i, closure, before, mid, queue);
    }
    QueueComplete(u, closure, before, queue);
  }

  // The first i relationships have been handled.
  ghost predicate Queued(u: Unit, i: nat, closure: set<Line>, before: seq<Line>, queue: seq<Line>)
    requires i <= |u.relationships|
  {
    && before <= queue
    && (forall l :: l in queue ==> l in before || FollowedWithin(u, i, l))
    && (forall j :: 0 <= j < i ==> Handled(Follow(u, u.relationships[j]), closure, queue))
  }

  ghost predicate FollowedWithin(u: Unit, i: nat, l: Line)
    requires i <= |u.relationships|
  {
    exists j :: 0 <= j < i && Follow(u, u.relationships[j]) == Some(l)
  }

  ghost predicate Handled(line: Option<Line>, closure: set<Line>, queue: seq<Line>) {
    line.Some? ==> line.value in closure || line.value in queue
  }

  lemma QueueStep(u: Unit, i: nat, closure: set<Line>, before: seq<Line>, mid: seq<Line>, queue: seq<Line>)
    requires i < |u.relationships| && Queued(u, i, closure, before, mid)
    requires var line := Follow(u, u.relationships[i]);
             queue == if line.Some? && line.value !in closure then mid + [line.value] else mid
    ensures Queued(u, i + 1, closure, before, queue)
  {
    forall l | l in queue
      ensures l in before || FollowedWithin(u, i + 1, l)
    {
      if l in mid && l !in before {
        var j :| 0 <= j < i && Follow(u, u.relationships[j]) == Some(l);
        assert FollowedWithin(u, i + 1, l);
      }
    }
    forall j | 0 <= j < i + 1
      ensures Handled(Follow(u, u.relationships[j]), closure, queue)
    {
      assert j < i ==> Handled(Follow(u, u.relationships[j]), closure, mid);
    }
  }

  lemma QueueComplete(u: Unit, closure: set<Line>, before: seq<Line>, queue: seq<Line>)
    requires Queued(u, |u.relationships|, closure, before, queue)
    ensures forall l :: l in queue ==> l in before || l in Followed(u)
    ensures forall l :: l in Followed(u) ==> l in closure || l in queue
  {
    forall l | l in queue && l !in before
      ensures l in Followed(u)
    {
      var j :| 0 <= j < |u.relationships| && Follow(u, u.relationships[j]) == Some(l);
      assert u.relationships[j] in u.relationships;
    }
    forall l | l in Followed(u)
      ensures l in closure || l in queue
    {
      var rel :| rel in u.relationships && Follow(u, rel) == Some(l);
      var j :| 0 <= j < |u.relationships| && u.relationships[j] == rel;
      assert Handled(Follow(u, u.relationships[j]), closure, queue);
    }
  }

  // The state of the walk: everything found is reachable, and every edge leaving the closure is queued.
  ghost predicate Walking(g: Graph<Line>, start: Line, closure: set<Line>, queue: seq<Line>) {
    && (start in closure || start in queue)
    && (forall l :: l in closure || l in queue ==> Reaches(g, start, l))
    && (forall a, b :: a in closure && Edge(g, a, b) ==> b in closure || b in queue)
  }

  lemma WalkStarts(g: Graph<Line>, start: Line)
    ensures Walking(g, start, {}, [start])
  {
    ReachesSelf(g, start);
  }

  lemma WalkDrops(g: Graph<Line>, start: Line, closure: set<Line>, queue: seq<Line>)
    requires queue != [] && Walking(g, start, closure, queue) && queue[0] in closure
    ensures Walking(g, start, closure, queue[1..])
  {
    assert queue == [queue[0]] + queue[1..];
  }

  lemma WalkVisits(g: Graph<Line>, start: Line, closure: set<Line>, queue: seq<Line>, after: seq<Line>)
    requires queue != [] && Walking(g, start, closure, queue)
    requires queue[1..] <= after
    requires forall b :: b in after ==> b in queue[1..] || Edge(g, queue[0], b)
    requires forall b :: Edge(g, queue[0], b) ==> b in closure + {queue[0]} || b in after
    ensures Walking(g, start, closure + {queue[0]}, after)
  {
    var line := queue[0];
    assert queue == [line] + queue[1..];
    assert line in queue;
    assert Reaches(g, start, line);
    forall l | l in closure + {line} || l in after
      ensures Reaches(g, start, l)
    {
      if l !in closure && l != line && l !in queue[1..] {
        ReachesEdge(g, line, l);
        ReachesTransitive(g, start, line, l);
      }
    }
    forall a, b | a in closure + {line} && Edge(g, a, b)
      ensures b in closure + {line} || b in after
    {
      if a in closure && a != line {
        assert b in closure || b in queue;
      }
    }
  }

  lemma WalkEnds(g: Graph<Line>, start: Line, closure: set<Line>)
    requires Walking(g, start, closure, [])
    ensures forall l :: l in closure <==> Reaches(g, start, l)
  {
    forall l | Reaches(g, start, l)
      ensures l in closure
    {
      ReachableStaysInside(g, closure, start, l);
    }
  }

  lemma EdgesOf(s: Archive, line: Line)
    requires Coherent(s)
    ensures Top(s.refs.Keys, line).Some? ==> Top(s.refs.Keys, line).value in s.refs
    ensures forall b :: Edge(LineGraph(s), line, b) <==>
              Top(s.refs.Keys, line).Some? && b in Followed(UnitAt(s, Top(s.refs.Keys, line).value))
  {
    TopNone(s.refs.Keys, line);
  }

  // Breadth-first search; cycles are cut by the visited set.
  method Closure(st: Store, start: Line) returns (closure: set<Line>)
    requires Coherent(st.State())
    ensures forall l :: l in closure <==> Reaches(LineGraph(st.State()), start, l)
  {
    ghost var s := st.State();
    ghost var g := LineGraph(s);
    closure := {};
    var queue := [start];
    WalkStarts(g, start);
    while queue != []
      invariant Walking(g, start, closure, queue)
      invariant closure <= Universe(s, start) && forall l :: l in queue ==> l in Universe(s, start)
      decreases Universe(s, start) - closure, |queue|
    {
      var line := queue[0];
      if line in closure {
        WalkDrops(g, start, closure, queue);
        queue := queue[1..];
        continue;
      }
      queue := Visit(st, start, closure, queue);
      closure := closure + {line};
    }
    WalkEnds(g, start, closure);
  }

  method Visit(st: Store, ghost start: Line, closure: set<Line>, before: seq<Line>) returns (queue: seq<Line>)
    requires Coherent(st.State())
    requires before != [] && Walking(LineGraph(st.State()), start, closure, before)
    requires forall l :: l in before ==> l in Universe(st.State(), start)
    ensures Walking(LineGraph(st.State()), start, closure + {before[0]}, queue)
    ensures forall l :: l in queue ==> l in Universe(st.State(), start)
  {
    ghost var s := st.State();
    var line := before[0];
    queue := before[1..];
    var top := HighestInstance(st, line);
    EdgesOf(s, line);
    if top.Some? {
      queue := Enqueue(st.refs[top.value].hash.unit, closure + {line}, queue);
    }
    WalkVisits(LineGraph(s), start, closure, before, queue);
    forall l | l in queue
      ensures l in Universe(s, start)
    {
      if l !in before[1..] { assert Edge(LineGraph(s), line, l); }
    }
  }
}
