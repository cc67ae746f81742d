/** The write order read off the emitted forms: its rounds, said of targets and forms alone (exchange/integrate.go). */
module CommitReading {
  import opened Ordering
  import opened Graphs
  import opened CommitOrder

  // The unit refers to a unit still to be written.
  ghost predicate Waits(pkg: Package, o: seq<string>, f: string) {
    f in pkg && exists t :: t in pkg[f].targets && t in o
  }

  ghost predicate Ascends(o: seq<string>) {
    forall i, j :: 0 <= i < j < |o| ==> Less(o[i], o[j])
  }

  // The first n of the unwritten forms are exactly those that wait for nothing.
  ghost predicate WritesFree(pkg: Package, o: seq<string>, n: nat)
    requires n <= |o|
  {
    forall f :: f in o ==> (f in o[..n] <==> !Waits(pkg, o, f))
  }

  // Every unwritten form waits, and the least of all comes first, alone.
  ghost predicate BreaksCycle(pkg: Package, o: seq<string>, n: nat)
    requires n <= |o|
  {
    && n == 1 && (forall f :: f in o ==> Waits(pkg, o, f))
    && forall f :: f in o ==> f == o[0] || Less(o[0], f)
  }

  ghost predicate IsRound(pkg: Package, o: seq<string>, n: nat) {
    0 < n <= |o| && Ascends(o[..n]) && (WritesFree(pkg, o, n) || BreaksCycle(pkg, o, n))
  }

  // The forms fall into rounds.
  ghost predicate InRounds(pkg: Package, o: seq<string>)
    decreases |o|
  {
    o == [] || exists n: nat :: IsRound(pkg, o, n) && InRounds(pkg, o[n..])
  }

  // ---- the batches are the rounds ----

  lemma WaitsIff(pkg: Package, rest: set<string>, o: seq<string>, f: string)
    requires rest == Elems(o) && rest <= pkg.Keys && f in o
    ensures f in FreeForms(pkg, rest) <==> !Waits(pkg, o, f)
  {
    PendingZero(pkg[f].targets, rest);
  }

  lemma SortedAscends(s: seq<string>)
    requires Sorted(s) && Distinct(s)
    ensures Ascends(s)
  {
    forall i, j | 0 <= i < j < |s|
      ensures Less(s[i], s[j])
    {
      assert AtMost(s[i], s[j]) && s[i] != s[j];
    }
  }

  lemma BatchIsFree(pkg: Package, rest: set<string>, o: seq<string>)
    requires rest == Elems(o) && rest <= pkg.Keys && FreeForms(pkg, rest) != {}
    ensures forall f :: f in o ==> (f in Batch(pkg, rest) <==> !Waits(pkg, o, f))
  {
    forall f | f in o
      ensures f in Batch(pkg, rest) <==> !Waits(pkg, o, f)
    {
      WaitsIff(pkg, rest, o, f);
    }
  }

  lemma BatchIsLeast(pkg: Package, rest: set<string>, o: seq<string>)
    requires rest == Elems(o) && rest <= pkg.Keys && rest != {} && FreeForms(pkg, rest) == {}
    ensures (forall f :: f in o ==> Waits(pkg, o, f)) && Batch(pkg, rest) == {Least(rest)}
  {
    forall f | f in o
      ensures Waits(pkg, o, f)
    {
      WaitsIff(pkg, rest, o, f);
    }
  }

  lemma BatchIsRound(pkg: Package, rest: set<string>, head: seq<string>, tail: seq<string>)
    requires rest == Elems(head + tail) && rest <= pkg.Keys && rest != {}
    requires head == Ascending(Batch(pkg, rest)) && Distinct(head + tail)
    ensures IsRound(pkg, head + tail, |head|)
  {
    var o := head + tail;
    assert o[..|head|] == head;
    AscendingIsSorted(Batch(pkg, rest));
    SortedAscends(head);
    assert head != [] by {
      var f :| f in Batch(pkg, rest);
      assert f in head;
    }
    if FreeForms(pkg, rest) != {} {
      BatchIsFree(pkg, rest, o);
      assert WritesFree(pkg, o, |head|);
    } else {
      BatchIsLeast(pkg, rest, o);
      LeastAlone(pkg, rest, o, head);
    }
  }

  lemma LeastAlone(pkg: Package, rest: set<string>, o: seq<string>, head: seq<string>)
    requires rest == Elems(o) && rest != {} && head == Ascending({Least(rest)}) && head <= o
    requires forall f :: f in o ==> Waits(pkg, o, f)
    ensures BreaksCycle(pkg, o, |head|)
  {
    AscendingIsSorted({Least(rest)});
    SortedIsAscending([Least(rest)], {Least(rest)});
    assert head[0] == Least(rest);
    assert forall f :: f in o ==> f in rest;
  }

  lemma {:induction false} RoundsFallIntoRounds(pkg: Package, rest: set<string>)
    requires rest <= pkg.Keys
    ensures InRounds(pkg, Rounds(pkg, rest))
  {
    if rest != {} {
      var batch := Batch(pkg, rest);
      var head, tail := Ascending(batch), Rounds(pkg, rest - batch);
      RoundsEmitEachOnce(pkg, rest);
      assert Elems(head + tail) == rest;
      BatchIsRound(pkg, rest, head, tail);
      RoundsFallIntoRounds(pkg, rest - batch);
      assert (head + tail)[|head|..] == tail;
    }
  }

  // ---- and no other order falls into rounds ----

  lemma FreeRound(pkg: Package, rest: set<string>, o: seq<string>, n: nat)
    requires rest == Elems(o) && rest <= pkg.Keys && rest != {} && 0 < n <= |o| && WritesFree(pkg, o, n)
    ensures Elems(o[..n]) == Batch(pkg, rest)
  {
    assert o[0] in o[..n] && o[0] in o;
    WaitsIff(pkg, rest, o, o[0]);
    BatchIsFree(pkg, rest, o);
    assert forall f :: f in o[..n] ==> f in o;
  }

  lemma BrokenRound(pkg: Package, rest: set<string>, o: seq<string>)
    requires rest == Elems(o) && rest <= pkg.Keys && rest != {} && o != [] && BreaksCycle(pkg, o, 1)
    ensures Elems(o[..1]) == Batch(pkg, rest)
  {
    NoneFree(pkg, rest, o);
    BatchIsLeast(pkg, rest, o);
    LeastIsFirst(rest, o);
  }

  lemma FirstRound(pkg: Package, rest: set<string>, o: seq<string>, n: nat)
    requires rest == Elems(o) && rest <= pkg.Keys && rest != {} && IsRound(pkg, o, n)
    ensures Elems(o[..n]) == Batch(pkg, rest)
  {
    if WritesFree(pkg, o, n) { FreeRound(pkg, rest, o, n); } else { BrokenRound(pkg, rest, o); }
  }

  lemma NoneFree(pkg: Package, rest: set<string>, o: seq<string>)
    requires rest == Elems(o) && rest <= pkg.Keys && forall f :: f in o ==> Waits(pkg, o, f)
    ensures FreeForms(pkg, rest) == {}
  {
    forall f | f in rest
      ensures f !in FreeForms(pkg, rest)
    {
      WaitsIff(pkg, rest, o, f);
    }
  }

  lemma LeastIsFirst(rest: set<string>, o: seq<string>)
    requires rest == Elems(o) && rest != {} && o != [] && forall f :: f in o ==> f == o[0] || Less(o[0], f)
    ensures Least(rest) == o[0] && Elems(o[..1]) == {o[0]}
  {
    assert o[0] in rest;
    assert AtMost(Least(rest), o[0]);
    if Least(rest) != o[0] { LessAsymmetric(o[0], Least(rest)); }
  }

  lemma AscendsIsAscending(q: seq<string>, s: set<string>)
    requires Ascends(q) && Elems(q) == s
    ensures q == Ascending(s)
  {
    assert Distinct(q) by {
      forall i, j | 0 <= i < j < |q|
        ensures q[i] != q[j]
      {
        LessIrreflexive(q[i]);
      }
    }
    SortedIsAscending(q, s);
  }

  lemma Apart(o: seq<string>, n: nat)
    requires Distinct(o) && n <= |o|
    ensures Distinct(o[n..]) && Elems(o[n..]) == Elems(o) - Elems(o[..n])
  {
    assert o == o[..n] + o[n..];
    forall x | x in o[n..]
      ensures x !in o[..n]
    {
      var j :| 0 <= j < |o[n..]| && o[n..][j] == x;
      assert o[n + j] == x;
    }
  }

  lemma RoundStep(pkg: Package, o: seq<string>, n: nat)
    requires o != [] && Elems(o) <= pkg.Keys && Distinct(o) && IsRound(pkg, o, n)
    ensures Distinct(o[n..]) && Elems(o[n..]) <= pkg.Keys
    ensures Rounds(pkg, Elems(o)) == o[..n] + Rounds(pkg, Elems(o[n..]))
  {
    var rest := Elems(o);
    assert o[0] in rest;
    FirstRound(pkg, rest, o, n);
    AscendsIsAscending(o[..n], Batch(pkg, rest));
    Apart(o, n);
  }

  lemma RoundFrom(pkg: Package, o: seq<string>) returns (n: nat)
    requires o != [] && InRounds(pkg, o)
    ensures 0 < n <= |o| && IsRound(pkg, o, n) && InRounds(pkg, o[n..])
  {
    n :| IsRound(pkg, o, n) && InRounds(pkg, o[n..]);
  }

  lemma SplitAt(o: seq<string>, n: nat)
    requires n <= |o|
    ensures o == o[..n] + o[n..]
  {
  }

  lemma {:induction false} OnlyRounds(pkg: Package, o: seq<string>)
    requires Elems(o) <= pkg.Keys && Distinct(o) && InRounds(pkg, o)
    ensures o == Rounds(pkg, Elems(o))
    decreases |o|
  {
    if o != [] {
      var n := RoundFrom(pkg, o);
      RoundStep(pkg, o, n);
      OnlyRounds(pkg, o[n..]);
      SplitAt(o, n);
    }
  }

  // The write order is the one sequence of all the forms that falls into rounds: the forms that wait for nothing, in
  // ascending order, or the least of all when every one waits.
  lemma RoundsIff(pkg: Package, o: seq<string>)
    ensures o == Rounds(pkg, pkg.Keys) <==> Distinct(o) && Elems(o) == pkg.Keys && InRounds(pkg, o)
  {
    RoundsEmitEachOnce(pkg, pkg.Keys);
    RoundsFallIntoRounds(pkg, pkg.Keys);
    if Distinct(o) && Elems(o) == pkg.Keys && InRounds(pkg, o) { OnlyRounds(pkg, o); }
    assert Elems(Rounds(pkg, pkg.Keys)) == pkg.Keys;
  }
}
