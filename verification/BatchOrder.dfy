/** Publication order of a batch of pending drafts (runtime/batch.go). */
module BatchOrder {
  import opened Ordering
  import opened Graphs

  // One pending draft: the name it is reported under and the identities of the drafts it references.
  datatype Draft = Draft(title: string, deps: set<string>)

  type Batch = map<string, Draft>

  datatype Ordered =
    | Order(keys: seq<string>)
    | Cycle(blocked: seq<string>, labels: seq<string>)

  // Only references to pending drafts become dependencies.
  ghost predicate WellFormed(nodes: Batch) {
    forall k, d :: k in nodes && d in nodes[k].deps ==> d in nodes
  }

  ghost function DepGraph(nodes: Batch): Graph<string> {
    map k | k in nodes :: nodes[k].deps
  }

  // A complete order in which every draft follows the drafts it references.
  ghost predicate Topological(nodes: Batch, o: seq<string>) {
    && Distinct(o)
    && (forall k :: k in o <==> k in nodes)
    && SuccessorsFirst(DepGraph(nodes), o)
  }

  // a is b, or smaller at the first position where they differ.
  ghost predicate LexAtMost(a: seq<string>, b: seq<string>) {
    || a == b
    || exists i :: 0 <= i < |a| && i < |b| && a[..i] == b[..i] && Less(a[i], b[i])
  }

  // How many references of k are still unpublished.
  function Waiting(nodes: Batch, done: set<string>, k: string): nat
    requires k in nodes
  {
    |nodes[k].deps - done|
  }

  lemma WaitingDrops(nodes: Batch, done: set<string>, key: string, k: string)
    requires k in nodes && key !in done
    ensures Waiting(nodes, done + {key}, k) == Waiting(nodes, done, k) - (if key in nodes[k].deps then 1 else 0)
  {
    var d := nodes[k].deps;
    if key in d {
      assert d - (done + {key}) == (d - done) - {key};
    } else {
      assert d - (done + {key}) == d - done;
    }
  }

  lemma WaitingZero(nodes: Batch, done: set<string>, k: string)
    requires k in nodes
    ensures Waiting(nodes, done, k) == 0 <==> nodes[k].deps <= done
  {
    var rest := nodes[k].deps - done;
    assert nodes[k].deps <= done + rest;
    assert |rest| == 0 ==> rest == {};
    assert nodes[k].deps <= done ==> rest == {};
  }

  // A draft is ready once every draft it references is published.
  predicate Ready(nodes: Batch, done: set<string>, k: string) {
    k in nodes && k !in done && Waiting(nodes, done, k) == 0
  }

  ghost predicate LeastReady(nodes: Batch, done: set<string>, k: string) {
    Ready(nodes, done, k) && forall x :: Ready(nodes, done, x) ==> AtMost(k, x)
  }

  // Every position holds the least draft that was ready there.
  ghost predicate Greedy(nodes: Batch, o: seq<string>) {
    forall i :: 0 <= i < |o| ==> LeastReady(nodes, Elems(o[..i]), o[i])
  }

  lemma GreedyExtends(nodes: Batch, o: seq<string>, k: string)
    requires Greedy(nodes, o) && LeastReady(nodes, Elems(o), k)
    ensures Greedy(nodes, o + [k])
  {
    var q := o + [k];
    forall i | 0 <= i < |q|
      ensures LeastReady(nodes, Elems(q[..i]), q[i])
    {
      if i < |o| {
        assert q[..i] == o[..i];
      } else {
        assert q[..i] == o;
      }
    }
  }

  lemma GreedyIsOrdered(nodes: Batch, o: seq<string>)
    requires Greedy(nodes, o)
    ensures Distinct(o) && SuccessorsFirst(DepGraph(nodes), o)
    ensures forall k :: k in o ==> k in nodes
  {
    forall i, j | 0 <= i < j < |o|
      ensures o[i] != o[j]
    {
      assert LeastReady(nodes, Elems(o[..j]), o[j]);
      assert o[i] in o[..j];
    }
    forall i, d | 0 <= i < |o| && Edge(DepGraph(nodes), o[i], d)
      ensures d in o[..i]
    {
      assert LeastReady(nodes, Elems(o[..i]), o[i]);
      WaitingZero(nodes, Elems(o[..i]), o[i]);
      assert d in Elems(o[..i]);
    }
    forall k | k in o
      ensures k in nodes
    {
      var i :| 0 <= i < |o| && o[i] == k;
      assert LeastReady(nodes, Elems(o[..i]), o[i]);
    }
  }

  lemma TopologicalIsReady(nodes: Batch, t: seq<string>, n: nat)
    requires Topological(nodes, t) && n < |t|
    ensures Ready(nodes, Elems(t[..n]), t[n])
  {
    assert t[n] in t;
    forall d | d in nodes[t[n]].deps
      ensures d in Elems(t[..n])
    {
      assert Edge(DepGraph(nodes), t[n], d);
    }
    WaitingZero(nodes, Elems(t[..n]), t[n]);
  }

  // Where the greedy order first differs from a topological one, it holds the smaller draft.
  lemma GreedyDiffersSmaller(nodes: Batch, o: seq<string>, t: seq<string>, n: nat)
    requires Greedy(nodes, o) && Topological(nodes, t)
    requires n < |o| && n < |t| && o[..n] == t[..n] && o[n] != t[n]
    ensures Less(o[n], t[n])
  {
    TopologicalIsReady(nodes, t, n);
    assert LeastReady(nodes, Elems(o[..n]), o[n]);
    assert AtMost(o[n], t[n]);
  }

  // The greedy order precedes every topological order lexicographically.
  lemma {:induction false} GreedyIsLeast(nodes: Batch, o: seq<string>, t: seq<string>, n: nat)
    requires Greedy(nodes, o) && Topological(nodes, t)
    requires n <= |o| == |t| && o[..n] == t[..n]
    ensures LexAtMost(o, t)
    decreases |o| - n
  {
    if n == |o| {
      assert o == o[..n] && t == t[..n];
    } else if o[n] == t[n] {
      SamePrefixExtends(o, t, n);
      GreedyIsLeast(nodes, o, t, n + 1);
    } else {
      GreedyDiffersSmaller(nodes, o, t, n);
    }
  }

  lemma SamePrefixExtends(o: seq<string>, t: seq<string>, n: nat)
    requires n < |o| && n < |t| && o[..n] == t[..n] && o[n] == t[n]
    ensures o[..n + 1] == t[..n + 1]
  {
    assert o[..n + 1] == o[..n] + [o[n]] && t[..n + 1] == t[..n] + [t[n]];
  }

  // Every draft outside done keeps a reference outside done: none of them can ever be ordered.
  lemma StuckDraftsReachCycles(nodes: Batch, done: set<string>)
    requires WellFormed(nodes)
    requires forall k :: !Ready(nodes, done, k)
    ensures forall k :: k in nodes && k !in done ==> ReachesCycle(DepGraph(nodes), k)
  {
    var s := nodes.Keys - done;
    forall x | x in s
      ensures HasSuccessorIn(DepGraph(nodes), s, x)
    {
      assert !Ready(nodes, done, x);
      WaitingZero(nodes, done, x);
      var y :| y in nodes[x].deps && y !in done;
      assert y in s && Edge(DepGraph(nodes), x, y);
    }
    forall k | k in s { StuckReachesCycle(DepGraph(nodes), s, k); }
  }

  // A missing key reads as the empty slice.
  function Lookup(m: map<string, seq<string>>, k: string): seq<string> {
    if k in m then m[k] else []
  }

  // list holds, once each, the drafts among seen that reference d.
  ghost predicate References(nodes: Batch, seen: set<string>, d: string, list: seq<string>) {
    Distinct(list) && forall k :: k in list <==> k in seen && k in nodes && d in nodes[k].deps
  }

  ghost predicate ConsumersOf(nodes: Batch, seen: set<string>, consumers: map<string, seq<string>>) {
    forall d :: References(nodes, seen, d, Lookup(consumers, d))
  }

  ghost predicate IndegreeOf(nodes: Batch, done: set<string>, seen: set<string>, indegree: map<string, int>) {
    && indegree.Keys == seen
    && forall k :: k in seen && k in nodes ==> indegree[k] == Waiting(nodes, done, k)
  }

  method CountReferences(nodes: Batch) returns (indegree: map<string, int>, consumers: map<string, seq<string>>)
    ensures IndegreeOf(nodes, {}, nodes.Keys, indegree)
    ensures ConsumersOf(nodes, nodes.Keys, consumers)
  {
    indegree, consumers := map[], map[];
    var todo := nodes.Keys;
    while todo != {}
      invariant todo <= nodes.Keys
      invariant IndegreeOf(nodes, {}, nodes.Keys - todo, indegree)
      invariant ConsumersOf(nodes, nodes.Keys - todo, consumers)
    {
      var key :| key in todo;
      indegree, consumers := CountDraft(nodes, nodes.Keys - todo, key, indegree, consumers);
      Visited(nodes.Keys, todo, key);
      todo := todo - {key};
    }
    assert nodes.Keys - todo == nodes.Keys;
    SortingKeepsConsumers(nodes, consumers);
    var unsorted := consumers;
    consumers := map d | d in unsorted :: SortStrings(unsorted[d]);
  }

  // The loop body for one draft.
  method CountDraft(nodes: Batch, ghost seen: set<string>, key: string,
                    before: map<string, int>, consumersBefore: map<string, seq<string>>)
    returns (indegree: map<string, int>, consumers: map<string, seq<string>>)
    requires key in nodes && key !in seen
    requires IndegreeOf(nodes, {}, seen, before) && ConsumersOf(nodes, seen, consumersBefore)
    ensures IndegreeOf(nodes, {}, seen + {key}, indegree)
    ensures ConsumersOf(nodes, seen + {key}, consumers)
  {
    assert nodes[key].deps - {} == nodes[key].deps;
    indegree := before[key := |nodes[key].deps|];
    consumers := AddConsumer(consumersBefore, key, nodes[key].deps);
    ConsumersExtend(nodes, seen, consumersBefore, key, consumers);
  }

  // key is appended to the consumers of each of its references.
  method AddConsumer(before: map<string, seq<string>>, key: string, references: set<string>)
    returns (consumers: map<string, seq<string>>)
    ensures Appended(before, key, references, consumers)
  {
    consumers := before;
    var deps := references;
    while deps != {}
      invariant deps <= references
      invariant Appended(before, key, references - deps, consumers)
    {
      var dep :| dep in deps;
      consumers := consumers[dep := Lookup(consumers, dep) + [key]];
      deps := deps - {dep};
    }
    assert references - deps == references;
  }

  ghost predicate Appended(before: map<string, seq<string>>, key: string, references: set<string>, after: map<string,
      seq<string>>) {
    forall d :: Lookup(after, d) == Lookup(before, d) + (if d in references then [key] else [])
  }

  lemma ConsumersExtend(nodes: Batch, seen: set<string>, before: map<string, seq<string>>, key: string,
      after: map<string, seq<string>>)
    requires ConsumersOf(nodes, seen, before) && key in nodes && key !in seen
    requires Appended(before, key, nodes[key].deps, after)
    ensures ConsumersOf(nodes, seen + {key}, after)
  {
    forall d
      ensures References(nodes, seen + {key}, d, Lookup(after, d))
    {
      ReferencesExtend(nodes, seen, d, Lookup(before, d), key, Lookup(after, d));
    }
  }

  lemma ReferencesExtend(nodes: Batch, seen: set<string>, d: string, before: seq<string>, key: string,
      after: seq<string>)
    requires References(nodes, seen, d, before) && key in nodes && key !in seen
    requires after == before + if d in nodes[key].deps then [key] else []
    ensures References(nodes, seen + {key}, d, after)
  {
    assert key !in before;
  }

  lemma SortingKeepsConsumers(nodes: Batch, consumers: map<string, seq<string>>)
    requires ConsumersOf(nodes, nodes.Keys, consumers)
    ensures ConsumersOf(nodes, nodes.Keys, map d | d in consumers :: SortStrings(consumers[d]))
  {
    var sorted := map d | d in consumers :: SortStrings(consumers[d]);
    forall d
      ensures References(nodes, nodes.Keys, d, Lookup(sorted, d))
    {
      assert References(nodes, nodes.Keys, d, Lookup(consumers, d));
      if d in consumers { SortKeepsElements(consumers[d]); }
    }
  }

  // The initial ready set, sorted.
  method CollectZero(nodes: Batch, indegree: map<string, int>) returns (ready: seq<string>)
    requires indegree.Keys == nodes.Keys
    ensures Sorted(ready) && Distinct(ready)
    ensures forall k :: k in ready <==> k in nodes && indegree[k] == 0
  {
    ready := [];
    var todo := indegree.Keys;
    while todo != {}
      invariant todo <= indegree.Keys
      invariant Distinct(ready)
      invariant forall k :: k in ready <==> k in indegree.Keys - todo && indegree[k] == 0
    {
      var key :| key in todo;
      if indegree[key] == 0 {
        ready := ready + [key];
      }
      todo := todo - {key};
    }
    SortKeepsElements(ready);
    ready := SortStrings(ready);
  }

  // The counters and the ready set while the drafts in left still wait for their decrement.
  ghost predicate Releasing(nodes: Batch, done: set<string>, left: set<string>, indegree: map<string, int>,
      ready: seq<string>) {
    && indegree.Keys == nodes.Keys
    && (forall k :: k in nodes ==> indegree[k] == Waiting(nodes, done, k) + if k in left then 1 else 0)
    && Sorted(ready) && Distinct(ready)
    && (forall k :: k in ready <==> Ready(nodes, done, k) && k !in left)
  }

  // Taking the head of the ready set keeps the order greedy.
  lemma OrderExtends(nodes: Batch, order: seq<string>, indegree: map<string, int>, ready: seq<string>)
    requires Greedy(nodes, order) && ready != []
    requires Releasing(nodes, Elems(order), {}, indegree, ready)
    ensures Greedy(nodes, order + [ready[0]])
    ensures ready[0] in nodes && ready[0] !in order
  {
    assert ready[0] in ready;
    assert LeastReady(nodes, Elems(order), ready[0]);
    GreedyExtends(nodes, order, ready[0]);
  }

  lemma ConsumersNotOrdered(nodes: Batch, order: seq<string>, key: string, k: string)
    requires Greedy(nodes, order + [key]) && k in nodes && key in nodes[k].deps
    ensures k !in order && k != key
  {
    var o := order + [key];
    GreedyIsOrdered(nodes, o);
    assert o[|order|] == key;
    forall i | 0 <= i < |o|
      ensures o[i] != k
    {
      assert key !in o[..i];
      assert !Edge(DepGraph(nodes), o[i], key);
    }
    assert forall i :: 0 <= i < |order| ==> o[i] == order[i];
  }

  lemma ReleaseStarts(nodes: Batch, done: set<string>, key: string, left: set<string>,
                      indegree: map<string, int>, ready: seq<string>)
    requires Releasing(nodes, done, {}, indegree, [key] + ready)
    requires forall k :: k in left <==> k in nodes && key in nodes[k].deps
    ensures Releasing(nodes, done + {key}, left, indegree, ready)
  {
    var all := [key] + ready;
    assert ready == all[1..];
    assert key in all;
    forall k | k in nodes
      ensures indegree[k] == Waiting(nodes, done + {key}, k) + if k in left then 1 else 0
    {
      WaitingDrops(nodes, done, key, k);
    }
    forall k
      ensures k in ready <==> Ready(nodes, done + {key}, k) && k !in left
    {
      assert k in all <==> k == key || k in ready;
    }
  }

  method ReleaseOne(nodes: Batch, ghost done: set<string>, ghost left: set<string>, dependent: string,
                    before: map<string, int>, waiting: seq<string>)
    returns (indegree: map<string, int>, ready: seq<string>)
    requires Releasing(nodes, done, left, before, waiting)
    requires dependent in left && dependent in nodes && dependent !in done
    ensures Releasing(nodes, done, left - {dependent}, indegree, ready)
  {
    WaitingZero(nodes, done, dependent);
    indegree := before[dependent := before[dependent] - 1];
    ready := waiting;
    if indegree[dependent] == 0 {
      SortKeepsElements(ready + [dependent]);
      ready := SortStrings(ready + [dependent]);
    }
  }

  // Publishing key releases the drafts whose last unpublished reference it was.
  method Release(nodes: Batch, ghost done: set<string>, dependents: seq<string>,
                 before: map<string, int>, waiting: seq<string>)
    returns (indegree: map<string, int>, ready: seq<string>)
    requires Distinct(dependents) && forall k :: k in dependents ==> k in nodes && k !in done
    requires Releasing(nodes, done, Elems(dependents), before, waiting)
    ensures Releasing(nodes, done, {}, indegree, ready)
  {
    indegree, ready := before, waiting;
    var i := 0;
    assert dependents[0..] == dependents;
    while i < |dependents|
      invariant 0 <= i <= |dependents|
      invariant Releasing(nodes, done, Elems(dependents[i..]), indegree, ready)
    {
      assert Elems(dependents[i..]) - {dependents[i]} == Elems(dependents[i + 1..]);
      indegree, ready := ReleaseOne(nodes, done, Elems(dependents[i..]), dependents[i], indegree, ready);
      i := i + 1;
    }
    assert Elems(dependents[i..]) == {};
  }

  ghost predicate InProgress(nodes: Batch, order: seq<string>, indegree: map<string, int>, ready: seq<string>) {
    Greedy(nodes, order) && Releasing(nodes, Elems(order), {}, indegree, ready)
  }

  method Start(nodes: Batch) returns (indegree: map<string, int>, consumers: map<string, seq<string>>,
      ready: seq<string>)
    ensures ConsumersOf(nodes, nodes.Keys, consumers)
    ensures InProgress(nodes, [], indegree, ready)
  {
    indegree, consumers := CountReferences(nodes);
    ready := CollectZero(nodes, indegree);
    NothingPublishedYet(nodes, indegree, ready);
  }

  lemma NothingPublishedYet(nodes: Batch, indegree: map<string, int>, ready: seq<string>)
    requires IndegreeOf(nodes, {}, nodes.Keys, indegree)
    requires Sorted(ready) && Distinct(ready)
    requires forall k :: k in ready <==> k in nodes && indegree[k] == 0
    ensures InProgress(nodes, [], indegree, ready)
  {
    forall k
      ensures k in ready <==> Ready(nodes, {}, k) && k !in {}
    {
    }
    assert Releasing(nodes, {}, {}, indegree, ready);
    assert Elems<string>([]) == {};
  }

  lemma ConsumersWait(nodes: Batch, order: seq<string>, key: string)
    requires Greedy(nodes, order + [key])
    ensures forall k :: k in nodes && key in nodes[k].deps ==> k !in order && k != key
  {
    forall k | k in nodes && key in nodes[k].deps
      ensures k !in order && k != key
    {
      ConsumersNotOrdered(nodes, order, key, k);
    }
  }

  // The dependents of the published head still wait, for it among others.
  lemma DependentsWait(nodes: Batch, order: seq<string>, key: string, dependents: seq<string>)
    requires Greedy(nodes, order + [key]) && References(nodes, nodes.Keys, key, dependents)
    ensures forall k :: k in dependents ==> k in nodes && k !in Elems(order) + {key}
    ensures forall k :: k in Elems(dependents) <==> k in nodes && key in nodes[k].deps
  {
    ConsumersWait(nodes, order, key);
  }

  lemma HeadReleased(nodes: Batch, done: set<string>, left: set<string>, indegree: map<string, int>,
      waiting: seq<string>)
    requires waiting != [] && Releasing(nodes, done, {}, indegree, waiting)
    requires forall k :: k in left <==> k in nodes && waiting[0] in nodes[k].deps
    ensures Releasing(nodes, done + {waiting[0]}, left, indegree, waiting[1..])
  {
    assert waiting == [waiting[0]] + waiting[1..];
    ReleaseStarts(nodes, done, waiting[0], left, indegree, waiting[1..]);
  }

  // Taking the head off the ready set leaves its dependents to be released.
  lemma HeadLeaves(nodes: Batch, order: seq<string>, dependents: seq<string>, indegree: map<string, int>,
      waiting: seq<string>)
    requires waiting != [] && Greedy(nodes, order) && Releasing(nodes, Elems(order), {}, indegree, waiting)
    requires References(nodes, nodes.Keys, waiting[0], dependents)
    ensures Greedy(nodes, order + [waiting[0]]) && waiting[0] in nodes && waiting[0] !in order
    ensures forall k :: k in dependents ==> k in nodes && k !in Elems(order + [waiting[0]])
    ensures Releasing(nodes, Elems(order + [waiting[0]]), Elems(dependents), indegree, waiting[1..])
  {
    OrderExtends(nodes, order, indegree, waiting);
    DependentsWait(nodes, order, waiting[0], dependents);
    HeadReleased(nodes, Elems(order), Elems(dependents), indegree, waiting);
    ElemsAppend(order, waiting[0]);
  }

  lemma ElemsAppend(order: seq<string>, key: string)
    ensures Elems(order + [key]) == Elems(order) + {key}
  {
  }

  lemma HeadCounts(nodes: Batch, order: seq<string>, key: string)
    requires key in nodes && key !in order
    ensures nodes.Keys - Elems(order + [key]) < nodes.Keys - Elems(order)
  {
    ElemsAppend(order, key);
    assert key in nodes.Keys - Elems(order);
  }

  method PublishHead(nodes: Batch, ghost order: seq<string>, dependents: seq<string>,
                     before: map<string, int>, waiting: seq<string>)
    returns (indegree: map<string, int>, ready: seq<string>)
    requires waiting != [] && InProgress(nodes, order, before, waiting)
    requires References(nodes, nodes.Keys, waiting[0], dependents)
    ensures InProgress(nodes, order + [waiting[0]], indegree, ready)
    ensures nodes.Keys - Elems(order + [waiting[0]]) < nodes.Keys - Elems(order)
  {
    var key := waiting[0];
    ghost var done := Elems(order + [key]);
    HeadLeaves(nodes, order, dependents, before, waiting);
    indegree, ready := Release(nodes, done, dependents, before, waiting[1..]);
    HeadCounts(nodes, order, key);
  }

  // The drafts that reach a cycle and are reported under the title.
  ghost function BlockedAs(nodes: Batch, title: string): set<string> {
    set k | k in nodes && ReachesCycle(DepGraph(nodes), k) && nodes[k].title == title
  }

  // Kahn's algorithm with a sorted ready set. On a cycle the labels are the titles of the blocked drafts, each as
  // often as blocked drafts bear it.
  method BatchTopoOrder(nodes: Batch) returns (r: Ordered)
    requires WellFormed(nodes)
    ensures r.Order? <==> Acyclic(DepGraph(nodes))
    ensures r.Order? ==> Topological(nodes, r.keys)
    ensures r.Order? ==> forall t :: Topological(nodes, t) ==> LexAtMost(r.keys, t)
    ensures r.Cycle? ==> Sorted(r.blocked) && Distinct(r.blocked)
    ensures r.Cycle? ==> forall k :: k in r.blocked <==> k in nodes && ReachesCycle(DepGraph(nodes), k)
    ensures r.Cycle? ==> Sorted(r.labels) && forall t :: multiset(r.labels)[t] == |BlockedAs(nodes, t)|
  {
    var indegree, consumers, ready := Start(nodes);
    var order: seq<string> := [];
    while ready != []
      invariant ConsumersOf(nodes, nodes.Keys, consumers)
      invariant InProgress(nodes, order, indegree, ready)
      decreases nodes.Keys - Elems(order)
    {
      var key := ready[0];
      indegree, ready := PublishHead(nodes, order, Lookup(consumers, key), indegree, ready);
      order := order + [key];
    }
    r := Report(nodes, order, indegree);
  }

  // The verdict once the ready set is empty.
  method Report(nodes: Batch, order: seq<string>, indegree: map<string, int>) returns (r: Ordered)
    requires WellFormed(nodes) && InProgress(nodes, order, indegree, [])
    ensures r.Order? <==> Acyclic(DepGraph(nodes))
    ensures r.Order? ==> Topological(nodes, r.keys)
    ensures r.Order? ==> forall t :: Topological(nodes, t) ==> LexAtMost(r.keys, t)
    ensures r.Cycle? ==> Sorted(r.blocked) && Distinct(r.blocked)
    ensures r.Cycle? ==> forall k :: k in r.blocked <==> k in nodes && ReachesCycle(DepGraph(nodes), k)
    ensures r.Cycle? ==> Sorted(r.labels) && forall t :: multiset(r.labels)[t] == |BlockedAs(nodes, t)|
  {
    assert forall k :: !Ready(nodes, Elems(order), k);
    Finished(nodes, order);
    if |order| != |nodes| {
      var leftover := CollectPositive(nodes, indegree);
      PositiveIsUnordered(nodes, order, indegree);
      LabelsAreBlocked(nodes, leftover);
      r := Cycle(leftover, SortStrings(Labels(nodes, leftover)));
    } else {
      r := Order(order);
    }
  }

  // What holds when no draft is ready any more.
  lemma Finished(nodes: Batch, order: seq<string>)
    requires WellFormed(nodes) && Greedy(nodes, order)
    requires forall k :: !Ready(nodes, Elems(order), k)
    ensures forall k :: k in nodes ==> (ReachesCycle(DepGraph(nodes), k) <==> k !in order)
    ensures |order| == |nodes| <==> Acyclic(DepGraph(nodes))
    ensures |order| == |nodes| ==> Topological(nodes, order)
    ensures |order| == |nodes| ==> forall t :: Topological(nodes, t) ==> LexAtMost(order, t)
  {
    GreedyIsOrdered(nodes, order);
    StuckDraftsReachCycles(nodes, Elems(order));
    forall k | k in order { OrderedReachesNoCycle(DepGraph(nodes), order, k); }
    CompleteWhenSameSize(nodes.Keys, order);
    AcyclicWhenNoneReaches(nodes);
    if |order| == |nodes| {
      forall t | Topological(nodes, t)
        ensures LexAtMost(order, t)
      {
        CompleteWhenSameSize(nodes.Keys, t);
        GreedyIsLeast(nodes, order, t, 0);
      }
    }
  }

  lemma CompleteWhenSameSize(all: set<string>, o: seq<string>)
    requires Distinct(o) && forall k :: k in o ==> k in all
    ensures |o| == |all| <==> forall k :: k in all ==> k in o
  {
    DistinctSize(o);
    var e := Elems(o);
    assert all == e + (all - e);
    assert |all| == |e| + |all - e|;
    assert (forall k :: k in all ==> k in o) ==> all - e == {};
  }

  lemma AcyclicWhenNoneReaches(nodes: Batch)
    requires WellFormed(nodes)
    ensures Acyclic(DepGraph(nodes)) <==> forall k :: k in nodes ==> !ReachesCycle(DepGraph(nodes), k)
  {
    var g := DepGraph(nodes);
    forall c | OnCycle(g, c)
      ensures c in nodes && ReachesCycle(g, c)
    {
      var p :| WalkBetween(g, p, c, c) && |p| >= 2;
      assert Edge(g, p[0], p[1]);
      ReachesSelf(g, c);
    }
  }

  lemma PositiveIsUnordered(nodes: Batch, order: seq<string>, indegree: map<string, int>)
    requires InProgress(nodes, order, indegree, [])
    ensures forall k :: k in nodes ==> (indegree[k] > 0 <==> k !in order)
  {
    forall k | k in order { OrderedWaitsForNothing(nodes, order, k); }
    forall k | k in nodes { WaitingZero(nodes, Elems(order), k); }
    assert forall k :: !Ready(nodes, Elems(order), k);
  }

  function Labels(nodes: Batch, keys: seq<string>): seq<string>
    requires forall k :: k in keys ==> k in nodes
  {
    seq(|keys|, i requires 0 <= i < |keys| => nodes[keys[i]].title)
  }

  ghost function NamedIn(nodes: Batch, keys: seq<string>, title: string): set<string> {
    set k | k in keys && k in nodes && nodes[k].title == title
  }

  lemma LabelsStep(nodes: Batch, rest: seq<string>, last: string)
    requires forall k :: k in rest + [last] ==> k in nodes
    ensures Labels(nodes, rest + [last]) == Labels(nodes, rest) + [nodes[last].title]
  {
  }

  lemma NamedStep(nodes: Batch, rest: seq<string>, last: string, title: string)
    requires last !in rest && last in nodes
    ensures |NamedIn(nodes, rest + [last], title)| ==
            |NamedIn(nodes, rest, title)| + if nodes[last].title == title then 1 else 0
  {
    assert NamedIn(nodes, rest + [last], title) ==
           NamedIn(nodes, rest, title) + if nodes[last].title == title then {last} else {};
  }

  lemma {:induction false} LabelsCount(nodes: Batch, keys: seq<string>, title: string)
    requires Distinct(keys) && forall k :: k in keys ==> k in nodes
    ensures multiset(Labels(nodes, keys))[title] == |NamedIn(nodes, keys, title)|
  {
    if keys != [] {
      var last, rest := keys[|keys| - 1], keys[..|keys| - 1];
      LabelsCount(nodes, rest, title);
      assert keys == rest + [last] && last !in rest;
      LabelsStep(nodes, rest, last);
      NamedStep(nodes, rest, last, title);
    }
  }

  lemma LabelsAreBlocked(nodes: Batch, keys: seq<string>)
    requires Distinct(keys) && forall k :: k in keys <==> k in nodes && ReachesCycle(DepGraph(nodes), k)
    ensures forall t :: multiset(Labels(nodes, keys))[t] == |BlockedAs(nodes, t)|
  {
    forall t
      ensures multiset(Labels(nodes, keys))[t] == |BlockedAs(nodes, t)|
    {
      LabelsCount(nodes, keys, t);
      assert BlockedAs(nodes, t) == NamedIn(nodes, keys, t);
    }
  }

  lemma OrderedWaitsForNothing(nodes: Batch, order: seq<string>, k: string)
    requires Greedy(nodes, order) && k in order && k in nodes
    ensures nodes[k].deps <= Elems(order)
  {
    var i :| 0 <= i < |order| && order[i] == k;
    assert LeastReady(nodes, Elems(order[..i]), order[i]);
    WaitingZero(nodes, Elems(order[..i]), k);
  }

  method CollectPositive(nodes: Batch, indegree: map<string, int>) returns (leftover: seq<string>)
    requires indegree.Keys == nodes.Keys
    ensures Sorted(leftover) && Distinct(leftover)
    ensures forall k :: k in leftover <==> k in nodes && indegree[k] > 0
  {
    leftover := [];
    var todo := nodes.Keys;
    while todo != {}
      invariant todo <= nodes.Keys
      invariant Distinct(leftover)
      invariant forall k :: k in leftover <==> k in nodes.Keys - todo && indegree[k] > 0
    {
      var key :| key in todo;
      if indegree[key] > 0 {
        leftover := leftover + [key];
      }
      todo := todo - {key};
    }
    SortKeepsElements(leftover);
    leftover := SortStrings(leftover);
  }
}
