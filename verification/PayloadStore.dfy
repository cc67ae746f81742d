/** The immutable payload archive and its mutable references (store/payloads.go). */
module PayloadStore {
  import opened Taxonomy
  import opened References
  import opened Units

  // The content address of a unit. Distinct units have distinct addresses.
  datatype Digest = Sha256(unit: Unit)

  function HashUnit(u: Unit): Digest {
    Sha256(u)
  }

  // A payload row; prev is the lineage edge fixed at insertion.
  datatype Row = Row(unit: Unit, prev: Option<Digest>)

  type Rows = map<Digest, Row>

  datatype Ref = Ref(hash: Digest, version: int, project: string, sourceRepo: string, number: int, group: NumberGroup)

  type Refs = map<Identity, Ref>

  datatype Archive = Archive(rows: Rows, refs: Refs)

  // What a caller hands over: the payload, and the reference with its index columns.
  datatype PutRef = PutRef(form: Identity, typ: TypeToken, version: int, project: string, sourceRepo: string)

  datatype Put = Put(unit: Unit, ref: PutRef)

  // ---- lineage ----

  function Prev(rows: Rows, h: Digest): Option<Digest> {
    if h in rows then rows[h].prev else None
  }

  // n steps back along the lineage.
  ghost function Back(rows: Rows, h: Option<Digest>, n: nat): Option<Digest>
    decreases n
  {
    if n == 0 || h.None? then h else Back(rows, Prev(rows, h.value), n - 1)
  }

  ghost predicate Ancestor(rows: Rows, target: Digest, current: Digest) {
    exists n: nat :: Back(rows, Some(current), n) == Some(target)
  }

  // ---- issue numbers ----

  ghost function Numbered(refs: Refs, project: string, group: NumberGroup): set<Identity> {
    set f | f in refs && refs[f].project == project && refs[f].group == group
  }

  // One more than the highest number of the group, or one.
  ghost predicate IsNext(refs: Refs, project: string, group: NumberGroup, n: int) {
    var k := Numbered(refs, project, group);
    && (forall f :: f in k ==> refs[f].number < n)
    && (if k == {} then n == 1 else exists f :: f in k && refs[f].number == n - 1)
  }

  ghost function NextNumber(refs: Refs, project: string, group: NumberGroup): int {
    if exists n :: IsNext(refs, project, group, n) then
      var n :| IsNext(refs, project, group, n);
      n
    else 0
  }

  lemma NextIsUnique(refs: Refs, project: string, group: NumberGroup, n: int)
    requires IsNext(refs, project, group, n)
    ensures NextNumber(refs, project, group) == n
  {
  }

  // ---- one put ----

  datatype Outcome = Outcome(archive: Archive, keptNewer: bool)

  // The row is inserted once, linked to the form's current payload.
  function Inserted(s: Archive, p: Put): Rows {
    var h := HashUnit(p.unit);
    if h in s.rows then s.rows
    else s.rows[h := Row(p.unit, if p.ref.form in s.refs then Some(s.refs[p.ref.form].hash) else None)]
  }

  // A put by PutUnit, or by RepointUnit when repoint is set.
  ghost function PutUnit(s: Archive, p: Put, repoint: bool): Outcome {
    var h := HashUnit(p.unit);
    var rows := Inserted(s, p);
    var r := p.ref;
    if r.form in s.refs then
      var current := s.refs[r.form];
      if h == current.hash then Outcome(Archive(rows, s.refs), false)
      else if !repoint && Ancestor(rows, h, current.hash) then Outcome(Archive(rows, s.refs), true)
      else if repoint && r.version < current.version then Outcome(Archive(rows, s.refs), true)
      else
        Outcome(Archive(rows, s.refs[r.form := Ref(h, r.version, r.project, r.sourceRepo, current.number, current.group)]), false)
    else
      var group := GroupOf(r.typ);
      var number := if group == Unnumbered then 0 else NextNumber(s.refs, r.project, group);
      Outcome(Archive(rows, s.refs[r.form := Ref(h, r.version, r.project, r.sourceRepo, number, group)]), false)
  }

  // Several puts in one transaction.
  ghost function PutAll(s: Archive, puts: seq<Put>): Archive {
    if puts == [] then s else PutUnit(PutAll(s, puts[..|puts| - 1]), puts[|puts| - 1], false).archive
  }

  // ---- the ancestry walk ----

  // Every visited payload leads on to a visited one, or to where the walk stands.
  ghost predicate Trail(rows: Rows, visited: set<Digest>, target: Digest, next: Option<Digest>) {
    forall v :: v in visited ==>
      v in rows && v != target && (rows[v].prev == next || (rows[v].prev.Some? && rows[v].prev.value in visited))
  }

  lemma {:induction false} TrailHolds(rows: Rows, visited: set<Digest>, h: Option<Digest>, n: nat)
    requires forall v :: v in visited && Prev(rows, v).Some? ==> Prev(rows, v).value in visited
    requires h.Some? ==> h.value in visited
    ensures Back(rows, h, n).Some? ==> Back(rows, h, n).value in visited
    decreases n
  {
    if n > 0 && h.Some? {
      TrailHolds(rows, visited, Prev(rows, h.value), n - 1);
    }
  }

  lemma {:induction false} BackOne(rows: Rows, h: Option<Digest>, n: nat)
    requires Back(rows, h, n).Some?
    ensures Back(rows, h, n + 1) == Prev(rows, Back(rows, h, n).value)
    decreases n
  {
    if n > 0 { BackOne(rows, Prev(rows, h.value), n - 1); }
  }

  // No payload of a closed trail is the target.
  lemma NotOnTrail(rows: Rows, visited: set<Digest>, target: Digest, current: Digest)
    requires current in visited && target !in visited
    requires forall v :: v in visited && Prev(rows, v).Some? ==> Prev(rows, v).value in visited
    ensures !Ancestor(rows, target, current)
  {
    forall n: nat
      ensures Back(rows, Some(current), n) != Some(target)
    {
      TrailHolds(rows, visited, Some(current), n);
    }
  }

  class Store {
    var rows: Rows
    var refs: Refs

    function State(): Archive
      reads this
    {
      Archive(rows, refs)
    }

    constructor ()
      ensures State() == Archive(map[], map[])
    {
      rows, refs := map[], map[];
    }

    // Decides ancestry on any table, also one with dangling edges or cycles.
    method IsAncestor(target: Digest, current: Digest) returns (found: bool)
      ensures found <==> Ancestor(rows, target, current)
    {
      var visited: set<Digest> := {};
      var next := Some(current);
      ghost var n := 0;
      while next.Some? && next.value !in visited
        invariant next == Back(rows, Some(current), n)
        invariant visited <= rows.Keys && (current in visited || next == Some(current))
        invariant Trail(rows, visited, target, next)
        decreases rows.Keys - visited
      {
        if next.value == target {
          return true;
        }
        if next.value !in rows {
          NotOnTrail(rows, visited + {next.value}, target, current);
          return false;
        }
        BackOne(rows, Some(current), n);
        visited := visited + {next.value};
        next := rows[next.value].prev;
        n := n + 1;
      }
      NotOnTrail(rows, visited, target, current);
      return false;
    }

    method AllocateNumber(project: string, group: NumberGroup) returns (number: int)
      ensures number == NextNumber(refs, project, group)
    {
      var max := 0;
      var empty := true;
      var todo := refs.Keys;
      while todo != {}
        invariant todo <= refs.Keys
        invariant empty <==> forall f :: f in Numbered(refs, project, group) ==> f in todo
        invariant forall f :: f in Numbered(refs, project, group) && f !in todo ==> refs[f].number <= max
        invariant if empty then max == 0 else exists f :: f in Numbered(refs, project, group) && refs[f].number == max
      {
        var f :| f in todo;
        if refs[f].project == project && refs[f].group == group && (empty || refs[f].number > max) {
          max, empty := refs[f].number, false;
        }
        todo := todo - {f};
      }
      number := max + 1;
      NextIsUnique(refs, project, group, number);
    }

    // The shared body of all puts.
    method PutTx(p: Put, repoint: bool) returns (hash: Digest, keptNewer: bool)
      modifies this
      ensures hash == HashUnit(p.unit)
      ensures Outcome(State(), keptNewer) == PutUnit(old(State()), p, repoint)
    {
      hash, keptNewer := HashUnit(p.unit), false;
      var r := p.ref;
      var prev := if r.form in refs then Some(refs[r.form].hash) else None;
      if hash !in rows {
        rows := rows[hash := Row(p.unit, prev)];
      }
      if prev.Some? {
        if hash == prev.value {
          return;
        }
        if !repoint {
          var older := IsAncestor(hash, prev.value);
          if older {
            keptNewer := true;
            return;
          }
        }
        if repoint && r.version < refs[r.form].version {
          keptNewer := true;
          return;
        }
        var current := refs[r.form];
        refs := refs[r.form := Ref(hash, r.version, r.project, r.sourceRepo, current.number, current.group)];
      } else {
        var number := 0;
        var group := GroupOf(r.typ);
        if group != Unnumbered {
          number := AllocateNumber(r.project, group);
        }
        refs := refs[r.form := Ref(hash, r.version, r.project, r.sourceRepo, number, group)];
      }
    }

    // Several puts as one atomic step.
    method PutUnits(puts: seq<Put>) returns (hashes: seq<Digest>)
      modifies this
      ensures State() == PutAll(old(State()), puts)
      ensures |hashes| == |puts| && forall i :: 0 <= i < |puts| ==> hashes[i] == HashUnit(puts[i].unit)
    {
      hashes := [];
      for i := 0 to |puts|
        invariant |hashes| == i && forall j :: 0 <= j < i ==> hashes[j] == HashUnit(puts[j].unit)
        invariant State() == PutAll(old(State()), puts[..i])
      {
        var hash, kept := PutTx(puts[i], false);
        assert puts[..i + 1][..i] == puts[..i];
        hashes := hashes + [hash];
      }
      assert puts[..|puts|] == puts;
    }
  }
}
