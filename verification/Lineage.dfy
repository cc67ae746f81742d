/** What every run of the payload store keeps (store/payloads.go). */
module Lineage {
  import opened Taxonomy
  import opened References
  import opened Units
  import opened PayloadStore

  function Form(h: Digest): Identity {
    h.unit.identity
  }

  // A put addresses the reference its payload names.
  predicate Named(p: Put) {
    p.ref.form == p.unit.identity && p.ref.typ == p.unit.identity.typ && p.ref.version == p.unit.identity.version
  }

  datatype Step =
    | PutStep(puts: seq<Put>)
    | RepointStep(put: Put)

  predicate NamedStep(step: Step) {
    match step
    case PutStep(puts) => forall p :: p in puts ==> Named(p)
    case RepointStep(p) => Named(p)
  }

  ghost function Take(s: Archive, step: Step): Archive {
    match step
    case PutStep(puts) => PutAll(s, puts)
    case RepointStep(p) => PutUnit(s, p, true).archive
  }

  ghost function Replay(s: Archive, steps: seq<Step>): Archive {
    if steps == [] then s else Take(Replay(s, steps[..|steps| - 1]), steps[|steps| - 1])
  }

  const EMPTY: Archive := Archive(map[], map[])

  // ---- rows are immutable ----

  ghost predicate Retained(before: Rows, after: Rows) {
    forall h :: h in before ==> h in after && after[h] == before[h]
  }

  lemma PutRetains(s: Archive, p: Put, repoint: bool)
    ensures Retained(s.rows, PutUnit(s, p, repoint).archive.rows)
  {
  }

  lemma {:induction false} PutAllRetains(s: Archive, puts: seq<Put>)
    ensures Retained(s.rows, PutAll(s, puts).rows)
  {
    if puts != [] {
      PutAllRetains(s, puts[..|puts| - 1]);
      PutRetains(PutAll(s, puts[..|puts| - 1]), puts[|puts| - 1], false);
    }
  }

  // No step of any run changes or removes a payload row, whatever the caller puts.
  lemma {:induction false} RunRetains(s: Archive, steps: seq<Step>)
    ensures Retained(s.rows, Replay(s, steps).rows)
  {
    if steps != [] {
      var before := Replay(s, steps[..|steps| - 1]);
      RunRetains(s, steps[..|steps| - 1]);
      match steps[|steps| - 1]
      case PutStep(puts) => PutAllRetains(before, puts);
      case RepointStep(p) => PutRetains(before, p, true);
    }
  }

  // ---- every form's payloads are a tree ----

  ghost predicate Grounded(rows: Rows, h: Digest) {
    exists n: nat :: Back(rows, Some(h), n) == None
  }

  ghost predicate IsRoot(rows: Rows, h: Digest) {
    h in rows && rows[h].prev.None?
  }

  ghost predicate Rooted(rows: Rows, h: Digest)
    requires h in rows
  {
    && rows[h].unit == h.unit
    && (rows[h].prev.Some? ==> rows[h].prev.value in rows && Form(rows[h].prev.value) == Form(h))
    && Grounded(rows, h)
  }

  ghost predicate RowSound(s: Archive, h: Digest)
    requires h in s.rows
  {
    Form(h) in s.refs && Rooted(s.rows, h)
  }

  ghost predicate RefSound(s: Archive, f: Identity)
    requires f in s.refs
  {
    s.refs[f].hash in s.rows && Form(s.refs[f].hash) == f && s.refs[f].version == f.version
  }

  ghost predicate OneRoot(rows: Rows) {
    forall h, k :: IsRoot(rows, h) && IsRoot(rows, k) && Form(h) == Form(k) ==> h == k
  }

  ghost predicate Sound(s: Archive) {
    && (forall h :: h in s.rows ==> RowSound(s, h))
    && (forall f :: f in s.refs ==> RefSound(s, f))
    && OneRoot(s.rows)
  }

  // Adding a row nobody points at leaves the walks of the others alone.
  lemma {:induction false} BackUnchanged(before: Rows, after: Rows, h: Option<Digest>, n: nat)
    requires Retained(before, after)
    requires forall k :: k in before && before[k].prev.Some? ==> before[k].prev.value in before
    requires h.Some? ==> h.value in before
    ensures Back(after, h, n) == Back(before, h, n)
    ensures Back(before, h, n).Some? ==> Back(before, h, n).value in before
    decreases n
  {
    if n > 0 && h.Some? {
      BackUnchanged(before, after, Prev(before, h.value), n - 1);
    }
  }

  lemma GroundedKept(before: Rows, after: Rows, h: Digest)
    requires Retained(before, after) && h in before && Grounded(before, h)
    requires forall k :: k in before && before[k].prev.Some? ==> before[k].prev.value in before
    ensures Grounded(after, h)
  {
    var n: nat :| Back(before, Some(h), n) == None;
    BackUnchanged(before, after, Some(h), n);
  }

  lemma GroundedNew(rows: Rows, h: Digest)
    requires h in rows && (rows[h].prev.Some? ==> Grounded(rows, rows[h].prev.value))
    ensures Grounded(rows, h)
  {
    if rows[h].prev.Some? {
      var n: nat :| Back(rows, rows[h].prev, n) == None;
      assert Back(rows, Some(h), n + 1) == None;
    } else {
      assert Back(rows, Some(h), 1) == None;
    }
  }

  lemma OldRowRooted(s: Archive, p: Put, k: Digest)
    requires Sound(s) && k in s.rows
    ensures k in Inserted(s, p) && Rooted(Inserted(s, p), k)
  {
    assert RowSound(s, k);
    EdgesInside(s);
    GroundedKept(s.rows, Inserted(s, p), k);
  }

  lemma NewRowRooted(s: Archive, p: Put)
    requires Sound(s) && Named(p) && HashUnit(p.unit) !in s.rows
    ensures Rooted(Inserted(s, p), HashUnit(p.unit))
    ensures IsRoot(Inserted(s, p), HashUnit(p.unit)) <==> p.ref.form !in s.refs
  {
    if p.ref.form in s.refs {
      assert RefSound(s, p.ref.form);
      OldRowRooted(s, p, s.refs[p.ref.form].hash);
    }
    GroundedNew(Inserted(s, p), HashUnit(p.unit));
  }

  lemma StillOneRoot(s: Archive, p: Put)
    requires Sound(s) && Named(p)
    ensures OneRoot(Inserted(s, p))
  {
    var rows := Inserted(s, p);
    var h := HashUnit(p.unit);
    if h !in s.rows { NewRowRooted(s, p); }
    forall k, l | IsRoot(rows, k) && IsRoot(rows, l) && Form(k) == Form(l)
      ensures k == l
    {
      if k in s.rows { assert RowSound(s, k); }
      if l in s.rows { assert RowSound(s, l); }
      assert k in s.rows && l in s.rows ==> IsRoot(s.rows, k) && IsRoot(s.rows, l);
    }
  }

  // The form now refers to the put payload; every other reference is as before.
  ghost predicate Moved(s: Archive, p: Put, t: Archive) {
    && p.ref.form in t.refs
    && t.refs == s.refs[p.ref.form := t.refs[p.ref.form]]
    && t.refs[p.ref.form].hash == HashUnit(p.unit) && t.refs[p.ref.form].version == p.ref.version
  }

  ghost predicate PutResult(s: Archive, p: Put, t: Archive) {
    && t.rows == Inserted(s, p)
    && ((p.ref.form in s.refs && t.refs == s.refs) || Moved(s, p, t))
  }

  lemma PutShape(s: Archive, p: Put, repoint: bool)
    ensures PutResult(s, p, PutUnit(s, p, repoint).archive)
  {
  }

  lemma RowStaysSound(s: Archive, p: Put, t: Archive, k: Digest)
    requires Sound(s) && Named(p) && PutResult(s, p, t) && k in t.rows
    ensures RowSound(t, k)
  {
    if k in s.rows {
      assert RowSound(s, k);
      OldRowRooted(s, p, k);
    } else {
      NewRowRooted(s, p);
    }
  }

  lemma MovedRefSound(s: Archive, p: Put, t: Archive)
    requires Named(p) && t.rows == Inserted(s, p) && Moved(s, p, t)
    ensures RefSound(t, p.ref.form)
  {
  }

  lemma StayedRefSound(s: Archive, p: Put, t: Archive, f: Identity)
    requires Sound(s) && t.rows == Inserted(s, p) && f in s.refs && f in t.refs && t.refs[f] == s.refs[f]
    ensures RefSound(t, f)
  {
    assert RefSound(s, f);
  }

  lemma RefStaysSound(s: Archive, p: Put, t: Archive, f: Identity)
    requires Sound(s) && Named(p) && PutResult(s, p, t) && f in t.refs
    ensures RefSound(t, f)
  {
    if t.refs == s.refs || f != p.ref.form {
      StayedRefSound(s, p, t, f);
    } else {
      MovedRefSound(s, p, t);
    }
  }

  lemma ResultIsSound(s: Archive, p: Put, t: Archive)
    requires Sound(s) && Named(p) && PutResult(s, p, t)
    ensures Sound(t)
  {
    StillOneRoot(s, p);
    forall k | k in t.rows
      ensures RowSound(t, k)
    {
      RowStaysSound(s, p, t, k);
    }
    forall f | f in t.refs
      ensures RefSound(t, f)
    {
      RefStaysSound(s, p, t, f);
    }
  }

  lemma PutKeepsSound(s: Archive, p: Put, repoint: bool)
    requires Sound(s) && Named(p)
    ensures Sound(PutUnit(s, p, repoint).archive)
  {
    PutShape(s, p, repoint);
    ResultIsSound(s, p, PutUnit(s, p, repoint).archive);
  }

  lemma {:induction false} PutAllKeepsSound(s: Archive, puts: seq<Put>)
    requires Sound(s) && forall p :: p in puts ==> Named(p)
    ensures Sound(PutAll(s, puts))
  {
    if puts != [] {
      PutAllKeepsSound(s, puts[..|puts| - 1]);
      PutKeepsSound(PutAll(s, puts[..|puts| - 1]), puts[|puts| - 1], false);
    }
  }

  lemma StepKeepsSound(s: Archive, step: Step)
    requires Sound(s) && NamedStep(step)
    ensures Sound(Take(s, step))
  {
    match step
    case PutStep(puts) => PutAllKeepsSound(s, puts);
    case RepointStep(p) => PutKeepsSound(s, p, true);
  }

  // Over every run mixing puts, batches and repoints.
  lemma {:induction false} RunIsSound(steps: seq<Step>)
    requires forall step :: step in steps ==> NamedStep(step)
    ensures Sound(Replay(EMPTY, steps))
  {
    if steps != [] {
      RunIsSound(steps[..|steps| - 1]);
      StepKeepsSound(Replay(EMPTY, steps[..|steps| - 1]), steps[|steps| - 1]);
    }
  }

  lemma AncestorSelf(rows: Rows, h: Digest)
    ensures Ancestor(rows, h, h)
  {
    assert Back(rows, Some(h), 0) == Some(h);
  }

  lemma AncestorStep(rows: Rows, target: Digest, h: Digest)
    requires h in rows && rows[h].prev.Some? && Ancestor(rows, target, rows[h].prev.value)
    ensures Ancestor(rows, target, h)
  {
    var k: nat :| Back(rows, Some(rows[h].prev.value), k) == Some(target);
    assert Back(rows, Some(h), k + 1) == Some(target);
  }

  lemma BackUnfolds(rows: Rows, h: Digest, n: nat)
    requires h in rows && Back(rows, Some(h), n) == None
    ensures n > 0 && Back(rows, rows[h].prev, n - 1) == None
  {
  }

  // Lineage edges stay inside the form and the archive.
  ghost predicate EdgeKept(rows: Rows, h: Digest)
    requires h in rows
  {
    rows[h].prev.Some? ==> rows[h].prev.value in rows && Form(rows[h].prev.value) == Form(h)
  }

  ghost predicate EdgesKept(rows: Rows) {
    forall h :: h in rows ==> EdgeKept(rows, h)
  }

  lemma SoundKeepsEdges(s: Archive)
    requires Sound(s)
    ensures EdgesKept(s.rows)
  {
    forall h | h in s.rows
      ensures EdgeKept(s.rows, h)
    {
      assert RowSound(s, h);
    }
  }

  // The walk from h ends in a root of h's form.
  lemma {:induction false} WalkFindsRoot(rows: Rows, h: Digest, n: nat) returns (root: Digest)
    requires EdgesKept(rows) && h in rows && Back(rows, Some(h), n) == None
    ensures IsRoot(rows, root) && Form(root) == Form(h) && Ancestor(rows, root, h)
    decreases n
  {
    if rows[h].prev.None? {
      root := h;
      AncestorSelf(rows, h);
    } else {
      assert EdgeKept(rows, h);
      BackUnfolds(rows, h, n);
      root := WalkFindsRoot(rows, rows[h].prev.value, n - 1);
      AncestorStep(rows, root, h);
    }
  }

  lemma GroundedFindsRoot(s: Archive, h: Digest) returns (root: Digest)
    requires Sound(s) && h in s.rows
    ensures IsRoot(s.rows, root) && Form(root) == Form(h) && Ancestor(s.rows, root, h)
  {
    assert RowSound(s, h);
    var n: nat :| Back(s.rows, Some(h), n) == None;
    SoundKeepsEdges(s);
    root := WalkFindsRoot(s.rows, h, n);
  }

  // The rows of each form make a tree: one root, an ancestor of every row of the form.
  lemma FormIsTree(s: Archive, f: Identity) returns (root: Digest)
    requires Sound(s) && f in s.refs
    ensures IsRoot(s.rows, root) && Form(root) == f
    ensures forall k :: IsRoot(s.rows, k) && Form(k) == f ==> k == root
    ensures forall h :: h in s.rows && Form(h) == f ==> Ancestor(s.rows, root, h)
  {
    assert RefSound(s, f);
    root := GroundedFindsRoot(s, s.refs[f].hash);
    forall k | k in s.rows && Form(k) == f
      ensures Ancestor(s.rows, root, k)
    {
      var r := GroundedFindsRoot(s, k);
      assert r == root;
    }
  }

  // ---- the visited test of the walk never fires ----

  lemma {:induction false} BackAdds(rows: Rows, h: Option<Digest>, m: nat, n: nat)
    ensures Back(rows, h, m + n) == Back(rows, Back(rows, h, m), n)
    decreases m
  {
    if m > 0 && h.Some? { BackAdds(rows, Prev(rows, h.value), m - 1, n); }
  }

  lemma {:induction false} NoLoop(rows: Rows, h: Digest, p: nat, n: nat)
    requires p > 0 && Back(rows, Some(h), n) == None
    ensures Back(rows, Some(h), p) != Some(h)
    decreases n
  {
    var next := Prev(rows, h);
    if next.Some? {
      NoLoop(rows, next.value, p, n - 1);
      BackAdds(rows, Some(h), 1, p);
      BackAdds(rows, Some(h), p, 1);
    }
  }

  lemma BackNone(rows: Rows, n: nat)
    ensures Back(rows, None, n) == None
  {
  }

  // A walk that ends in n steps ends in n steps from any later point.
  lemma EndsFromLater(rows: Rows, h: Digest, i: nat, n: nat)
    requires Back(rows, Some(h), n) == None
    ensures Back(rows, Back(rows, Some(h), i), n) == None
  {
    BackAdds(rows, Some(h), i, n);
    BackAdds(rows, Some(h), n, i);
    BackNone(rows, i);
  }

  lemma NoRepeat(rows: Rows, current: Digest, i: nat, j: nat, n: nat)
    requires i < j && Back(rows, Some(current), n) == None && Back(rows, Some(current), j).Some?
    ensures Back(rows, Some(current), i) != Back(rows, Some(current), j)
  {
    var at := Back(rows, Some(current), i);
    BackAdds(rows, Some(current), i, j - i);
    EndsFromLater(rows, current, i, n);
    if at.Some? {
      NoLoop(rows, at.value, j - i, n);
    }
  }

  // No walk meets a payload twice.
  lemma WalkNeverRepeats(s: Archive, current: Digest, i: nat, j: nat)
    requires Sound(s) && current in s.rows && i < j
    requires Back(s.rows, Some(current), j).Some?
    ensures Back(s.rows, Some(current), i) != Back(s.rows, Some(current), j)
  {
    assert RowSound(s, current);
    var n: nat :| Back(s.rows, Some(current), n) == None;
    NoRepeat(s.rows, current, i, j, n);
  }

  // ---- without repoints history is linear ----

  // Every archived payload of a form lies on the lineage of the form's current payload.
  ghost predicate Linear(s: Archive) {
    && Sound(s)
    && forall h :: h in s.rows ==> OnLine(s, h)
  }

  ghost predicate OnLine(s: Archive, h: Digest) {
    Form(h) in s.refs && Ancestor(s.rows, h, s.refs[Form(h)].hash)
  }

  lemma AncestorKept(before: Rows, after: Rows, target: Digest, current: Digest)
    requires Retained(before, after) && current in before
    requires forall k :: k in before && before[k].prev.Some? ==> before[k].prev.value in before
    ensures Ancestor(after, target, current) <==> Ancestor(before, target, current)
  {
    if Ancestor(before, target, current) {
      var n: nat :| Back(before, Some(current), n) == Some(target);
      BackUnchanged(before, after, Some(current), n);
    }
    if Ancestor(after, target, current) {
      var n: nat :| Back(after, Some(current), n) == Some(target);
      BackUnchanged(before, after, Some(current), n);
    }
  }

  lemma AncestorIsArchived(rows: Rows, target: Digest, current: Digest)
    requires current in rows && Ancestor(rows, target, current)
    requires forall k :: k in rows && rows[k].prev.Some? ==> rows[k].prev.value in rows
    ensures target in rows
  {
    var n: nat :| Back(rows, Some(current), n) == Some(target);
    BackUnchanged(rows, rows, Some(current), n);
  }

  lemma EdgesInside(s: Archive)
    requires Sound(s)
    ensures forall k :: k in s.rows && s.rows[k].prev.Some? ==> s.rows[k].prev.value in s.rows
  {
    assert forall k :: k in s.rows ==> RowSound(s, k);
  }

  // On linear histories the ancestry guard is the plain membership test.
  lemma GuardIsMembership(s: Archive, p: Put)
    requires Linear(s) && Named(p) && p.ref.form in s.refs
    ensures PutUnit(s, p, false).keptNewer <==>
            HashUnit(p.unit) in s.rows && HashUnit(p.unit) != s.refs[p.ref.form].hash
  {
    var h, current := HashUnit(p.unit), s.refs[p.ref.form].hash;
    assert RefSound(s, p.ref.form);
    EdgesInside(s);
    AncestorKept(s.rows, Inserted(s, p), h, current);
    if h in s.rows {
      assert OnLine(s, h);
    } else if Ancestor(s.rows, h, current) {
      AncestorIsArchived(s.rows, h, current);
    }
  }

  lemma PutKeepsLinear(s: Archive, p: Put)
    requires Linear(s) && Named(p)
    ensures Linear(PutUnit(s, p, false).archive)
  {
    GuardedAdvances(s, p);
    PutShape(s, p, false);
    LinearAfterAdvance(s, p, PutUnit(s, p, false).archive);
  }

  // The reference moves exactly to payloads that are new.
  ghost predicate Advance(s: Archive, p: Put, t: Archive) {
    if HashUnit(p.unit) in s.rows then t.refs == s.refs else Moved(s, p, t)
  }

  ghost predicate StaysOrMoves(s: Archive, p: Put, o: Outcome) {
    if o.keptNewer || (p.ref.form in s.refs && HashUnit(p.unit) == s.refs[p.ref.form].hash) then o.archive.refs == s.refs
    else Moved(s, p, o.archive)
  }

  lemma PutStaysOrMoves(s: Archive, p: Put)
    ensures StaysOrMoves(s, p, PutUnit(s, p, false))
    ensures p.ref.form !in s.refs ==> !PutUnit(s, p, false).keptNewer
  {
  }

  lemma GuardedAdvances(s: Archive, p: Put)
    requires Linear(s) && Named(p)
    ensures Advance(s, p, PutUnit(s, p, false).archive)
  {
    var o := PutUnit(s, p, false);
    PutStaysOrMoves(s, p);
    if p.ref.form in s.refs { GuardIsMembership(s, p); }
    AdvanceByCases(s, p, o);
  }

  lemma AdvanceByCases(s: Archive, p: Put, o: Outcome)
    requires Sound(s) && Named(p) && StaysOrMoves(s, p, o)
    requires p.ref.form !in s.refs ==> !o.keptNewer
    requires p.ref.form in s.refs ==>
               (o.keptNewer <==> HashUnit(p.unit) in s.rows && HashUnit(p.unit) != s.refs[p.ref.form].hash)
    ensures Advance(s, p, o.archive)
  {
    if HashUnit(p.unit) in s.rows { assert RowSound(s, HashUnit(p.unit)); }
    if p.ref.form in s.refs { assert RefSound(s, p.ref.form); }
  }

  lemma RepointAdvances(s: Archive, p: Put)
    requires Linear(s) && Named(p) && !Left(s, HashUnit(p.unit))
    ensures Advance(s, p, PutUnit(s, p, true).archive)
  {
    if HashUnit(p.unit) in s.rows { assert RowSound(s, HashUnit(p.unit)); }
    if p.ref.form in s.refs { assert RefSound(s, p.ref.form); }
  }

  lemma LinearAfterAdvance(s: Archive, p: Put, t: Archive)
    requires Linear(s) && Named(p) && PutResult(s, p, t) && Advance(s, p, t)
    ensures Linear(t)
  {
    ResultIsSound(s, p, t);
    forall k | k in t.rows
      ensures OnLine(t, k)
    {
      if k in s.rows {
        OldStaysOnLine(s, p, t, k);
      } else {
        AncestorSelf(t.rows, k);
      }
    }
  }

  lemma OldStaysOnLine(s: Archive, p: Put, t: Archive, k: Digest)
    requires Linear(s) && Named(p) && PutResult(s, p, t) && Advance(s, p, t) && k in s.rows
    ensures OnLine(t, k)
  {
    var h := HashUnit(p.unit);
    EdgesInside(s);
    assert OnLine(s, k) && RefSound(s, Form(k));
    AncestorKept(s.rows, t.rows, k, s.refs[Form(k)].hash);
    if h !in s.rows && Form(k) == p.ref.form {
      AncestorStep(t.rows, k, h);
    }
  }

  lemma {:induction false} PutAllKeepsLinear(s: Archive, puts: seq<Put>)
    requires Linear(s) && forall p :: p in puts ==> Named(p)
    ensures Linear(PutAll(s, puts))
  {
    if puts != [] {
      PutAllKeepsLinear(s, puts[..|puts| - 1]);
      PutKeepsLinear(PutAll(s, puts[..|puts| - 1]), puts[|puts| - 1]);
    }
  }

  // Over every run of PutUnit and PutUnits.
  lemma {:induction false} RunIsLinear(steps: seq<Step>)
    requires forall step :: step in steps ==> NamedStep(step) && step.PutStep?
    ensures Linear(Replay(EMPTY, steps))
  {
    if steps != [] {
      RunIsLinear(steps[..|steps| - 1]);
      PutAllKeepsLinear(Replay(EMPTY, steps[..|steps| - 1]), steps[|steps| - 1].puts);
    }
  }

  // A payload that is archived and not current.
  ghost predicate Left(s: Archive, h: Digest) {
    h in s.rows && Form(h) in s.refs && s.refs[Form(h)].hash != h
  }

  lemma KeptIsUnmoved(s: Archive, p: Put, repoint: bool)
    ensures PutUnit(s, p, repoint).keptNewer ==> PutUnit(s, p, repoint).archive.refs == s.refs
  {
  }

  // A reference moves away from h, or stays: h is left behind either way.
  lemma LeftBehind(s: Archive, p: Put, t: Archive, h: Digest)
    requires PutResult(s, p, t) && Left(s, h) && (t.refs == s.refs || HashUnit(p.unit) != h)
    ensures Left(t, h)
  {
  }

  lemma PutKeepsLeft(s: Archive, p: Put, h: Digest)
    requires Linear(s) && Named(p) && Left(s, h)
    ensures Left(PutUnit(s, p, false).archive, h)
  {
    PutShape(s, p, false);
    KeptIsUnmoved(s, p, false);
    if HashUnit(p.unit) == h { GuardIsMembership(s, p); }
    LeftBehind(s, p, PutUnit(s, p, false).archive, h);
  }

  lemma {:induction false} PutAllKeepsLeft(s: Archive, puts: seq<Put>, h: Digest)
    requires Linear(s) && Left(s, h) && forall p :: p in puts ==> Named(p)
    ensures Left(PutAll(s, puts), h)
  {
    if puts != [] {
      PutAllKeepsLinear(s, puts[..|puts| - 1]);
      PutAllKeepsLeft(s, puts[..|puts| - 1], h);
      PutKeepsLeft(PutAll(s, puts[..|puts| - 1]), puts[|puts| - 1], h);
    }
  }

  // A payload that was left never becomes current again.
  lemma {:induction false} LeftForever(s: Archive, steps: seq<Step>, h: Digest)
    requires Linear(s) && Left(s, h)
    requires forall step :: step in steps ==> NamedStep(step) && step.PutStep?
    ensures Linear(Replay(s, steps)) && Left(Replay(s, steps), h)
  {
    if steps != [] {
      LeftForever(s, steps[..|steps| - 1], h);
      var before := Replay(s, steps[..|steps| - 1]);
      PutAllKeepsLinear(before, steps[|steps| - 1].puts);
      PutAllKeepsLeft(before, steps[|steps| - 1].puts, h);
    }
  }

  // ---- a repoint to a left payload forks the history ----

  // From a linear history a repoint keeps the history linear exactly when its payload was not left.
  lemma RepointKeepsLinearIff(s: Archive, p: Put)
    requires Linear(s) && Named(p)
    ensures Linear(PutUnit(s, p, true).archive) <==> !Left(s, HashUnit(p.unit))
  {
    var t := PutUnit(s, p, true).archive;
    PutShape(s, p, true);
    if Left(s, HashUnit(p.unit)) {
      RepointForks(s, p);
      assert s.refs[p.ref.form].hash in t.rows;
    } else {
      RepointAdvances(s, p);
      LinearAfterAdvance(s, p, t);
    }
  }

  lemma RepointForks(s: Archive, p: Put)
    requires Linear(s) && Named(p) && Left(s, HashUnit(p.unit))
    ensures p.ref.form in s.refs && s.refs[p.ref.form].hash in s.rows
    ensures !OnLine(PutUnit(s, p, true).archive, s.refs[p.ref.form].hash)
  {
    var h, current := HashUnit(p.unit), s.refs[p.ref.form].hash;
    assert RefSound(s, p.ref.form) && OnLine(s, h);
    var m: nat :| Back(s.rows, Some(current), m) == Some(h);
    forall n: nat
      ensures Back(s.rows, Some(h), n) != Some(current)
    {
      BackAdds(s.rows, Some(current), m, n);
      assert m > 0;
      WalkNeverRepeats'(s, current, m + n);
    }
  }

  lemma WalkNeverRepeats'(s: Archive, current: Digest, j: nat)
    requires Sound(s) && current in s.rows && 0 < j
    ensures Back(s.rows, Some(current), j) != Some(current)
  {
    if Back(s.rows, Some(current), j).Some? {
      WalkNeverRepeats(s, current, 0, j);
    }
  }

  // ---- a history that is not linear ----

  lemma FirstPut(p: Put)
    ensures var s := PutUnit(EMPTY, p, false).archive;
            && s.rows == map[HashUnit(p.unit) := Row(p.unit, None)]
            && s.refs.Keys == {p.ref.form} && s.refs[p.ref.form].hash == HashUnit(p.unit)
  {
  }

  lemma SecondPut(s: Archive, p: Put, q: Put)
    requires Linear(s) && Named(q) && p.ref.form == q.ref.form && HashUnit(q.unit) !in s.rows
    requires p.ref.form in s.refs && s.refs[p.ref.form].hash == HashUnit(p.unit)
    ensures var t := PutUnit(s, q, false).archive;
            && q.ref.form in t.refs && t.refs[q.ref.form].hash == HashUnit(q.unit) && t.rows == Inserted(s, q)
  {
    GuardIsMembership(s, q);
  }

  // Published, revised, and repointed to the first version: the second one is off the form's history.
  lemma RepointBreaksLinear(p: Put, q: Put)
    requires Named(p) && Named(q) && p.ref.form == q.ref.form && p.unit != q.unit
    ensures !Linear(PutUnit(PutUnit(PutUnit(EMPTY, p, false).archive, q, false).archive, p, true).archive)
  {
    var one := PutUnit(EMPTY, p, false).archive;
    FirstPut(p);
    PutKeepsLinear(EMPTY, p);
    SecondPut(one, p, q);
    PutKeepsLinear(one, q);
    RepointKeepsLinearIff(PutUnit(one, q, false).archive, p);
  }
}
