/** Staged writing of an import and its rollback (exchange/integrate.go), over an abstract file tree. */
module RepoWriter {
  import opened Ordering

  // A path is its segments below the repository root.
  type Path = seq<string>

  datatype Node = Dir | File(data: string)

  type Tree = map<Path, Node>

  datatype WriteOp = WriteOp(path: Path, data: string)

  function Parent(p: Path): Path
    requires p != []
  {
    p[..|p| - 1]
  }

  ghost predicate IsDir(t: Tree, p: Path) {
    p in t && t[p] == Dir
  }

  // The root exists and every entry lives in a directory.
  ghost predicate IsTree(t: Tree) {
    IsDir(t, []) && forall p :: p in t && p != [] ==> IsDir(t, Parent(p))
  }

  // os.Remove: a file, or a directory without entries.
  ghost predicate Removable(t: Tree, p: Path) {
    && p in t && p != []
    && (t[p] == Dir ==> forall q :: q in t && q != [] ==> Parent(q) != p)
  }

  // The absolute path string below the root: a separator before every segment.
  function Render(p: Path): string {
    if p == [] then "" else Render(Parent(p)) + "/" + p[|p| - 1]
  }

  // Deeper paths first: by descending string length, then lexicographically.
  predicate RemovedBefore(p: Path, q: Path) {
    |Render(p)| > |Render(q)| || (|Render(p)| == |Render(q)| && AtMost(Render(p), Render(q)))
  }

  ghost predicate LongestFirst(s: seq<Path>) {
    forall i, j :: 0 <= i < j < |s| ==> |Render(s[i])| >= |Render(s[j])|
  }

  ghost predicate InRemovalOrder(s: seq<Path>) {
    forall i, j :: 0 <= i < j < |s| ==> RemovedBefore(s[i], s[j])
  }

  lemma RemovedBeforeTotal(p: Path, q: Path)
    ensures RemovedBefore(p, q) || RemovedBefore(q, p)
  {
    LessTotal(Render(p), Render(q));
  }

  lemma RemovedBeforeTransitive(p: Path, q: Path, r: Path)
    requires RemovedBefore(p, q) && RemovedBefore(q, r)
    ensures RemovedBefore(p, r)
  {
    if |Render(p)| == |Render(q)| == |Render(r)| {
      AtMostTransitive(Render(p), Render(q), Render(r));
    }
  }

  function InsertPath(x: Path, s: seq<Path>): seq<Path> {
    if s == [] then [x]
    else if RemovedBefore(x, s[0]) then [x] + s
    else [s[0]] + InsertPath(x, s[1..])
  }

  function SortPaths(s: seq<Path>): seq<Path> {
    if s == [] then [] else InsertPath(s[0], SortPaths(s[1..]))
  }

  lemma InFront(x: Path, s: seq<Path>)
    requires InRemovalOrder(s) && (s != [] ==> RemovedBefore(x, s[0]))
    ensures InRemovalOrder([x] + s)
  {
    forall j | 0 <= j < |s|
      ensures RemovedBefore(x, s[j])
    {
      if j > 0 { RemovedBeforeTransitive(x, s[0], s[j]); }
    }
  }

  lemma Behind(x: Path, s: seq<Path>, t: seq<Path>)
    requires s != [] && InRemovalOrder(s) && RemovedBefore(s[0], x)
    requires InRemovalOrder(t) && multiset(t) == multiset(s[1..]) + multiset{x}
    ensures InRemovalOrder([s[0]] + t)
  {
    forall j | 0 <= j < |t|
      ensures RemovedBefore(s[0], t[j])
    {
      assert t[j] in multiset(t);
      assert t[j] == x || t[j] in s[1..];
    }
  }

  lemma {:induction false} InsertPathSorts(x: Path, s: seq<Path>)
    requires InRemovalOrder(s)
    ensures InRemovalOrder(InsertPath(x, s))
    ensures multiset(InsertPath(x, s)) == multiset(s) + multiset{x}
  {
    if s != [] {
      assert s == [s[0]] + s[1..];
      RemovedBeforeTotal(x, s[0]);
      if RemovedBefore(x, s[0]) {
        InFront(x, s);
      } else {
        InsertPathSorts(x, s[1..]);
        Behind(x, s, InsertPath(x, s[1..]));
      }
    }
  }

  lemma {:induction false} SortPathsSorts(s: seq<Path>)
    ensures InRemovalOrder(SortPaths(s)) && multiset(SortPaths(s)) == multiset(s)
  {
    if s != [] {
      SortPathsSorts(s[1..]);
      InsertPathSorts(s[0], SortPaths(s[1..]));
      assert s == [s[0]] + s[1..];
    }
  }

  lemma SortedPaths(s: seq<Path>)
    requires Distinct(s)
    ensures Distinct(SortPaths(s)) && LongestFirst(SortPaths(s))
    ensures forall p :: p in SortPaths(s) <==> p in s
  {
    SortPathsSorts(s);
    var r := SortPaths(s);
    DistinctIsMultiset(s);
    MultisetIsDistinct(r);
    forall p
      ensures p in r <==> p in s
    {
      assert (p in r <==> p in multiset(r)) && (p in s <==> p in multiset(s));
    }
    assert LongestFirst(r) by {
      forall i, j | 0 <= i < j < |r|
        ensures |Render(r[i])| >= |Render(r[j])|
      {
        assert RemovedBefore(r[i], r[j]);
      }
    }
  }

  lemma ChildIsLonger(p: Path)
    requires p != []
    ensures |Render(p)| > |Render(Parent(p))|
  {
  }

  // What the run has created so far, on top of the tree it started from.
  ghost predicate Journaled(initial: Tree, tree: Tree, files: seq<Path>, dirs: seq<Path>) {
    && IsTree(initial) && IsTree(tree)
    && Distinct(files) && Distinct(dirs)
    && (forall p :: p in tree <==> p in initial || p in files || p in dirs)
    && (forall p :: p in initial ==> p !in files && p !in dirs && tree[p] == initial[p])
    && (forall p :: p in files ==> tree[p].File?)
    && (forall p :: p in dirs ==> tree[p] == Dir)
  }

  // Nothing was changed or removed, and only directories on the way to dir were added.
  ghost predicate Grown(before: Tree, after: Tree, dir: Path) {
    && (forall p :: p in before ==> p in after && after[p] == before[p])
    && (forall p :: p in after && p !in before ==> after[p] == Dir && p <= dir)
  }

  // As Grown, with the file itself in place when the write succeeded.
  ghost predicate Written(before: Tree, after: Tree, op: WriteOp, ok: bool) {
    && (forall p :: p in before ==> p in after && after[p] == before[p])
    && (ok ==> op.path in after && after[op.path] == File(op.data))
    && (forall p :: p in after && p !in before ==> (ok && p == op.path) || (after[p] == Dir && p < op.path))
  }

  // Whether the n-th call into the operating system fails.
  type Faults = nat -> bool

  ghost predicate IsCalm(faults: Faults) {
    forall n :: !faults(n)
  }

  // Nothing stands in the way of a directory: what exists of its chain are directories.
  ghost predicate ChainFree(t: Tree, dir: Path) {
    forall q :: q <= dir && q in t ==> t[q] == Dir
  }

  // Nothing stands in the way of a file and of its temporary name.
  ghost predicate WayFree(t: Tree, op: WriteOp, temp: string)
    requires op.path != []
  {
    ChainFree(t, Parent(op.path)) && op.path !in t && Parent(op.path) + [temp] !in t
  }

  // The file is in place, in a directory and not on top of one.
  ghost predicate Renamed(before: Tree, after: Tree, op: WriteOp)
    requires op.path != []
  {
    && IsDir(before, Parent(op.path)) && (op.path in before ==> before[op.path].File?)
    && after == before[op.path := File(op.data)]
  }

  class Writer {
    // The repository tree; only this run changes it.
    var tree: Tree
    var createdFiles: seq<Path>
    var createdDirs: seq<Path>

    const faults: Faults
    // The calls into the operating system so far.
    var calls: nat

    constructor (repository: Tree, faults: Faults)
      requires IsTree(repository)
      ensures tree == repository && createdFiles == [] && createdDirs == [] && this.faults == faults
      ensures Journaled(repository, tree, createdFiles, createdDirs)
    {
      tree, createdFiles, createdDirs := repository, [], [];
      this.faults, calls := faults, 0;
    }

    // One call into the operating system.
    method Call() returns (fails: bool)
      modifies this`calls
      ensures IsCalm(faults) ==> !fails
    {
      fails := faults(calls);
      calls := calls + 1;
    }

    // Creates the missing directories of the chain from the root down; any step may fail.
    method EnsureDir(dir: Path, ghost initial: Tree) returns (ok: bool)
      requires Journaled(initial, tree, createdFiles, createdDirs)
      modifies this
      ensures Journaled(initial, tree, createdFiles, createdDirs)
      ensures createdFiles == old(createdFiles)
      ensures ok ==> dir in tree
      ensures IsCalm(faults) && ChainFree(old(tree), dir) ==> ok && tree[dir] == Dir
      ensures Grown(old(tree), tree, dir)
    {
      var i := 0;
      while i < |dir|
        invariant 0 <= i <= |dir|
        invariant Journaled(initial, tree, createdFiles, createdDirs)
        invariant createdFiles == old(createdFiles)
        invariant dir[..i] in tree
        invariant Grown(old(tree), tree, dir)
      {
        i := i + 1;
        var cur := dir[..i];
        if cur in tree {
          continue;
        }
        var fails := Call();
        assert Parent(cur) == dir[..i - 1] && dir[..i - 1] <= dir;
        if fails || tree[dir[..i - 1]] != Dir {
          return false;
        }
        MadeDir(initial, tree, createdFiles, createdDirs, cur);
        GrownFurther(old(tree), tree, dir, cur);
        tree := tree[cur := Dir];
        createdDirs := createdDirs + [cur];
      }
      assert dir[..i] == dir;
      assert dir <= dir;
      return true;
    }

    // Creates the parent chain, then stages and renames the file; any step may fail.
    method Write(op: WriteOp, temp: string, ghost initial: Tree) returns (ok: bool)
      requires Journaled(initial, tree, createdFiles, createdDirs)
      requires Fresh(op, temp, initial, createdFiles)
      modifies this
      ensures Journaled(initial, tree, createdFiles, createdDirs)
      ensures createdFiles == old(createdFiles) + (if ok then [op.path] else [])
      ensures Written(old(tree), tree, op, ok)
      ensures IsCalm(faults) && WayFree(old(tree), op, temp) ==> ok
    {
      ok := EnsureDir(Parent(op.path), initial);
      if !ok {
        return;
      }
      ghost var before := tree;
      ok := Stage(op, temp);
      if ok {
        MadeFile(initial, before, createdFiles, createdDirs, op);
        createdFiles := createdFiles + [op.path];
      }
    }

    // Writes data to a temporary file next to the target and renames it into place.
    method Stage(op: WriteOp, temp: string) returns (ok: bool)
      requires op.path != [] && temp != op.path[|op.path| - 1] && Parent(op.path) in tree
      modifies this`tree, this`calls
      ensures ok ==> Renamed(old(tree), tree, op)
      ensures !ok ==> tree == old(tree)
      ensures IsCalm(faults) && WayFree(old(tree), op, temp) && old(tree)[Parent(op.path)] == Dir ==> ok
    {
      var dir := Parent(op.path);
      var tmp := dir + [temp];
      var createFails := Call();
      if createFails || tree[dir] != Dir || tmp in tree {
        return false;
      }
      ghost var before := tree;
      tree := tree[tmp := File("")];
      var writeFails := Call();
      if writeFails {
        Discard(tmp, before, File(""));
        return false;
      }
      TemporaryFilled(before, tmp, File(""), File(op.data));
      tree := tree[tmp := File(op.data)];
      assert tmp[|tmp| - 1] != op.path[|op.path| - 1];
      ok := Rename(op, tmp, before);
    }

    // The temporary file goes, and the tree is as it was before it.
    method Discard(tmp: Path, ghost before: Tree, ghost node: Node)
      requires tmp !in before && tree == before[tmp := node]
      modifies this`tree
      ensures tree == before
    {
      TemporaryGoes(before, tmp, node);
      tree := tree - {tmp};
    }

    // Puts the temporary file in the target's place, unless that is a directory.
    method Rename(op: WriteOp, tmp: Path, ghost before: Tree) returns (ok: bool)
      requires op.path != [] && IsDir(before, Parent(op.path))
      requires tmp !in before && tmp != op.path && tree == before[tmp := File(op.data)]
      modifies this`tree, this`calls
      ensures ok ==> Renamed(before, tree, op)
      ensures !ok ==> tree == before
      ensures IsCalm(faults) && op.path !in before ==> ok
    {
      var renameFails := Call();
      var blocked := renameFails || (op.path in tree && tree[op.path] == Dir);
      Discard(tmp, before, File(op.data));
      if blocked {
        return false;
      }
      tree := tree[op.path := File(op.data)];
      return true;
    }

    // os.Remove.
    method Remove(p: Path) returns (ok: bool)
      modifies this`tree
      ensures ok <==> Removable(old(tree), p)
      ensures tree == if ok then old(tree) - {p} else old(tree)
    {
      if p !in tree || p == [] {
        return false;
      }
      if tree[p] == Dir {
        var todo := tree.Keys;
        while todo != {}
          invariant todo <= tree.Keys
          invariant tree == old(tree)
          invariant forall q :: q in tree && q !in todo && q != [] ==> Parent(q) != p
        {
          var q :| q in todo;
          if q != [] && Parent(q) == p {
            return false;
          }
          todo := todo - {q};
        }
      }
      tree := tree - {p};
      return true;
    }

    // Removes the created files, then the created directories with the longest path first.
    method Rollback(ghost initial: Tree) returns (failures: seq<Path>)
      requires Journaled(initial, tree, createdFiles, createdDirs)
      modifies this
      ensures failures == []
      ensures tree == initial
    {
      failures := RemoveFiles(initial);
      SortedPaths(createdDirs);
      SameJournal(initial, tree, createdDirs, SortPaths(createdDirs));
      createdDirs := SortPaths(createdDirs);
      failures := RemoveDirs(initial, failures);
    }

    method RemoveFiles(ghost initial: Tree) returns (failures: seq<Path>)
      requires Journaled(initial, tree, createdFiles, createdDirs)
      modifies this`tree
      ensures failures == [] && Journaled(initial, tree, [], createdDirs)
    {
      failures := [];
      var files := createdFiles;
      for i := 0 to |files|
        invariant failures == []
        invariant Journaled(initial, tree, files[i..], createdDirs)
      {
        FileRemovable(initial, tree, files[i..], createdDirs);
        assert files[i..][1..] == files[i + 1..];
        var p := files[i];
        var ok := Remove(p);
        if !ok {
          failures := failures + [p];
        }
      }
      assert files[|files|..] == [];
    }

    method RemoveDirs(ghost initial: Tree, earlier: seq<Path>) returns (failures: seq<Path>)
      requires LongestFirst(createdDirs) && Journaled(initial, tree, [], createdDirs)
      modifies this`tree
      ensures failures == earlier && tree == initial
    {
      failures := earlier;
      var dirs := createdDirs;
      for i := 0 to |dirs|
        invariant failures == earlier && LongestFirst(dirs[i..])
        invariant Journaled(initial, tree, [], dirs[i..])
      {
        var p := dirs[i];
        var ok := RemoveFirst(dirs[i..], initial);
        RestOf(dirs, i);
        if !ok {
          failures := failures + [p];
        }
      }
      NothingLeft(initial, tree, dirs[|dirs|..]);
    }

    // The longest directory left is removed.
    method RemoveFirst(dirs: seq<Path>, ghost initial: Tree) returns (ok: bool)
      requires dirs != [] && LongestFirst(dirs) && Journaled(initial, tree, [], dirs)
      modifies this`tree
      ensures ok && LongestFirst(dirs[1..]) && Journaled(initial, tree, [], dirs[1..])
    {
      DirRemovable(initial, tree, dirs);
      ok := Remove(dirs[0]);
    }

    // The commit phase: every write in plan order, then revalidation; any failure rolls the run back.
    method Commit(plan: seq<WriteOp>, temp: seq<string>, validate: Tree -> bool) returns (ok: bool, failures: seq<Path>)
      requires IsTree(tree) && createdFiles == [] && createdDirs == []
      requires |temp| == |plan| && Plannable(plan, temp, tree)
      modifies this
      ensures !ok ==> tree == old(tree) && failures == []
      ensures ok ==> validate(tree) && tree == Outcome(plan, old(tree))
      ensures IsCalm(faults) && Unobstructed(plan, temp, old(tree)) ==> ok == validate(Outcome(plan, old(tree)))
    {
      ghost var initial := tree;
      failures := [];
      for i := 0 to |plan|
        invariant Journaled(initial, tree, createdFiles, createdDirs)
        invariant createdFiles == Targets(plan[..i]) && Applied(plan[..i], initial, tree)
      {
        ok := WriteNext(plan, temp, i, initial);
        if !ok {
          failures := Rollback(initial);
          return false, failures;
        }
      }
      assert plan[..|plan|] == plan;
      AppliedIsOutcome(plan, initial, tree);
      if !validate(tree) {
        failures := Rollback(initial);
        return false, failures;
      }
      return true, [];
    }

    method WriteNext(plan: seq<WriteOp>, temp: seq<string>, i: nat, ghost initial: Tree) returns (ok: bool)
      requires |temp| == |plan| && i < |plan| && Plannable(plan, temp, initial)
      requires Journaled(initial, tree, createdFiles, createdDirs)
      requires createdFiles == Targets(plan[..i]) && Applied(plan[..i], initial, tree)
      modifies this
      ensures Journaled(initial, tree, createdFiles, createdDirs)
      ensures ok ==> createdFiles == Targets(plan[..i + 1]) && Applied(plan[..i + 1], initial, tree)
      ensures IsCalm(faults) && Unobstructed(plan, temp, initial) ==> ok
    {
      TargetIsNew(Targets(plan), i);
      TargetsPrefix(plan, i);
      ghost var before := tree;
      if Unobstructed(plan, temp, initial) {
        WayStaysFree(plan, temp, i, initial, tree);
      }
      ok := Write(plan[i], temp[i], initial);
      if ok {
        WriteApplied(plan, i, initial, before, tree);
      }
    }
  }

  // The target is new, and the temporary name is not the target's own.
  ghost predicate Fresh(op: WriteOp, temp: string, initial: Tree, files: seq<Path>) {
    op.path != [] && op.path !in initial && op.path !in files && temp != op.path[|op.path| - 1]
  }

  ghost function Targets(plan: seq<WriteOp>): seq<Path> {
    seq(|plan|, i requires 0 <= i < |plan| => plan[i].path)
  }

  // Distinct target paths, none of which exists yet.
  ghost predicate Plannable(plan: seq<WriteOp>, temp: seq<string>, tree: Tree)
    requires |temp| == |plan|
  {
    && Distinct(Targets(plan))
    && forall i :: 0 <= i < |plan| ==> Fresh(plan[i], temp[i], tree, [])
  }

  // The planned files and the directories leading to them were added, and nothing else changed.
  ghost predicate Applied(plan: seq<WriteOp>, initial: Tree, tree: Tree) {
    && (forall p :: p in initial ==> p in tree && tree[p] == initial[p])
    && (forall op :: op in plan ==> op.path in tree && tree[op.path] == File(op.data))
    && (forall p :: p in tree && p !in initial && p !in Targets(plan) ==>
          tree[p] == Dir && LeadsTo(plan, p))
  }

  // The tree with the planned files and the directories leading to them.
  ghost function Outcome(plan: seq<WriteOp>, initial: Tree): Tree {
    var dirs := set op, k | op in plan && 0 <= k < |op.path| :: op.path[..k];
    map p | p in initial.Keys + dirs + Elems(Targets(plan)) ::
      if p in initial then initial[p] else if p in Targets(plan) then File(DataOf(plan, p)) else Dir
  }

  // What the last operation on the path writes.
  ghost function DataOf(plan: seq<WriteOp>, p: Path): string {
    if plan == [] then "" else if plan[|plan| - 1].path == p then plan[|plan| - 1].data else DataOf(plan[..|plan| - 1], p)
  }

  // Every way is free, no target lies below another, and no temporary name leads to a target.
  ghost predicate Unobstructed(plan: seq<WriteOp>, temp: seq<string>, tree: Tree)
    requires |temp| == |plan| && Plannable(plan, temp, tree)
  {
    && (forall i :: 0 <= i < |plan| ==> WayFree(tree, plan[i], temp[i]))
    && forall i, j :: 0 <= i < |plan| && 0 <= j < |plan| ==>
         !(plan[i].path < plan[j].path) && !(Parent(plan[i].path) + [temp[i]] <= plan[j].path)
  }

  ghost predicate LeadsTo(plan: seq<WriteOp>, p: Path) {
    exists op :: op in plan && p < op.path
  }

  // Removing the temporary file leaves the tree as it was before it.
  lemma TemporaryGoes(before: Tree, tmp: Path, node: Node)
    requires tmp !in before
    ensures before[tmp := node] - {tmp} == before
  {
  }

  lemma TemporaryFilled(before: Tree, tmp: Path, empty: Node, full: Node)
    ensures before[tmp := empty][tmp := full] == before[tmp := full]
  {
  }

  lemma TargetsPrefix(plan: seq<WriteOp>, i: nat)
    requires i <= |plan|
    ensures Targets(plan[..i]) == Targets(plan)[..i]
  {
  }

  lemma TargetIsNew(paths: seq<Path>, i: nat)
    requires Distinct(paths) && i < |paths|
    ensures paths[i] !in paths[..i]
  {
  }

  lemma WriteApplied(plan: seq<WriteOp>, i: nat, initial: Tree, before: Tree, after: Tree)
    requires i < |plan| && Applied(plan[..i], initial, before)
    requires Written(before, after, plan[i], true)
    ensures Applied(plan[..i + 1], initial, after)
    ensures Targets(plan[..i + 1]) == Targets(plan[..i]) + [plan[i].path]
  {
    var more := plan[..i + 1];
    assert more == plan[..i] + [plan[i]];
    assert Targets(more) == Targets(plan[..i]) + [plan[i].path];
    forall p | p in after && p !in initial && p !in Targets(more)
      ensures after[p] == Dir && LeadsTo(more, p)
    {
      if p in before {
        assert p !in Targets(plan[..i]);
        LeadsFurther(plan, i, p);
      } else {
        assert p != plan[i].path by { assert Targets(more)[i] == plan[i].path; }
        assert plan[i] in more;
      }
    }
    forall op | op in more
      ensures op.path in after && after[op.path] == File(op.data)
    {
      assert op == plan[i] || op in plan[..i];
    }
  }

  lemma {:induction false} ChainExists(t: Tree, p: Path, k: nat)
    requires IsTree(t) && p in t && k < |p|
    ensures IsDir(t, p[..k])
  {
    if k < |p| - 1 {
      ChainExists(t, Parent(p), k);
      assert Parent(p)[..k] == p[..k];
    }
  }

  lemma {:induction false} DataIsPlanned(plan: seq<WriteOp>, p: Path)
    requires p in Targets(plan)
    ensures exists op :: op in plan && op.path == p && op.data == DataOf(plan, p)
  {
    var n := |plan| - 1;
    if plan[n].path != p {
      TargetsPrefix(plan, n);
      assert p in Targets(plan)[..n];
      DataIsPlanned(plan[..n], p);
      var op :| op in plan[..n] && op.path == p && op.data == DataOf(plan[..n], p);
      assert op in plan;
    }
  }

  lemma TargetHolds(plan: seq<WriteOp>, initial: Tree, tree: Tree, p: Path)
    requires Applied(plan, initial, tree) && p in Targets(plan)
    ensures p in tree && tree[p] == File(DataOf(plan, p))
  {
    DataIsPlanned(plan, p);
  }

  lemma ChainHolds(plan: seq<WriteOp>, initial: Tree, tree: Tree, op: WriteOp, k: nat)
    requires Applied(plan, initial, tree) && IsTree(tree) && op in plan && k < |op.path|
    ensures op.path[..k] in tree && tree[op.path[..k]] == Dir
  {
    ChainExists(tree, op.path, k);
  }

  lemma OnlyPlanned(plan: seq<WriteOp>, initial: Tree, tree: Tree, p: Path)
    requires Applied(plan, initial, tree) && p in tree
    ensures p in Outcome(plan, initial)
  {
    if p !in initial && p !in Targets(plan) {
      var op :| op in plan && p < op.path;
      assert p == op.path[..|p|];
    }
  }

  lemma AllPlanned(plan: seq<WriteOp>, initial: Tree, tree: Tree, p: Path)
    requires Applied(plan, initial, tree) && IsTree(tree) && p in Outcome(plan, initial)
    ensures p in tree
  {
    if p in Targets(plan) {
      TargetHolds(plan, initial, tree, p);
    } else if p !in initial {
      var op, k :| op in plan && 0 <= k < |op.path| && p == op.path[..k];
      ChainHolds(plan, initial, tree, op, k);
    }
  }

  // An applied plan determines the tree.
  lemma AppliedIsOutcome(plan: seq<WriteOp>, initial: Tree, tree: Tree)
    requires Applied(plan, initial, tree) && IsTree(tree)
    ensures tree == Outcome(plan, initial)
  {
    var o := Outcome(plan, initial);
    forall p
      ensures p in tree <==> p in o
    {
      if p in tree { OnlyPlanned(plan, initial, tree, p); }
      if p in o { AllPlanned(plan, initial, tree, p); }
    }
    forall p | p in tree
      ensures tree[p] == o[p]
    {
      if p !in initial && p in Targets(plan) { TargetHolds(plan, initial, tree, p); }
    }
  }

  // ---- the way of the next file ----

  lemma NoEarlierTarget(plan: seq<WriteOp>, temp: seq<string>, i: nat, initial: Tree, q: Path)
    requires |temp| == |plan| && i < |plan| && Plannable(plan, temp, initial) && Unobstructed(plan, temp, initial)
    requires q < plan[i].path
    ensures q !in Targets(plan[..i])
  {
  }

  lemma NotAmongEarlier(plan: seq<WriteOp>, temp: seq<string>, i: nat, initial: Tree)
    requires |temp| == |plan| && i < |plan| && Plannable(plan, temp, initial) && Unobstructed(plan, temp, initial)
    ensures !LeadsTo(plan[..i], plan[i].path) && plan[i].path !in Targets(plan[..i])
    ensures !LeadsTo(plan[..i], Parent(plan[i].path) + [temp[i]])
    ensures Parent(plan[i].path) + [temp[i]] !in Targets(plan[..i])
  {
    TargetsPrefix(plan, i);
    TargetIsNew(Targets(plan), i);
  }

  // With the first i files written, the way of the next is still free.
  lemma WayStaysFree(plan: seq<WriteOp>, temp: seq<string>, i: nat, initial: Tree, tree: Tree)
    requires |temp| == |plan| && i < |plan| && Plannable(plan, temp, initial) && Unobstructed(plan, temp, initial)
    requires Applied(plan[..i], initial, tree)
    ensures WayFree(tree, plan[i], temp[i])
  {
    NotAmongEarlier(plan, temp, i, initial);
    forall q | q <= Parent(plan[i].path) && q in tree
      ensures tree[q] == Dir
    {
      NoEarlierTarget(plan, temp, i, initial, q);
    }
  }

  lemma LeadsFurther(plan: seq<WriteOp>, i: nat, p: Path)
    requires i < |plan| && LeadsTo(plan[..i], p)
    ensures LeadsTo(plan[..i + 1], p)
  {
    var op :| op in plan[..i] && p < op.path;
    assert plan[..i + 1] == plan[..i] + [plan[i]];
    assert op in plan[..i + 1];
  }

  lemma SameJournal(initial: Tree, tree: Tree, dirs: seq<Path>, sorted: seq<Path>)
    requires Journaled(initial, tree, [], dirs)
    requires Distinct(sorted) && forall p :: p in sorted <==> p in dirs
    ensures Journaled(initial, tree, [], sorted)
  {
  }

  lemma GrownFurther(before: Tree, mid: Tree, dir: Path, cur: Path)
    requires Grown(before, mid, dir) && cur !in mid && cur <= dir
    ensures Grown(before, mid[cur := Dir], dir)
  {
  }

  lemma TreeWithDir(tree: Tree, d: Path)
    requires IsTree(tree) && d != [] && d !in tree && IsDir(tree, Parent(d))
    ensures IsTree(tree[d := Dir])
  {
  }

  lemma MadeDir(initial: Tree, tree: Tree, files: seq<Path>, dirs: seq<Path>, d: Path)
    requires Journaled(initial, tree, files, dirs)
    requires d != [] && d !in tree && IsDir(tree, Parent(d))
    ensures Journaled(initial, tree[d := Dir], files, dirs + [d])
  {
    TreeWithDir(tree, d);
    assert d !in dirs && d !in files && d !in initial;
    assert forall p :: p in dirs + [d] <==> p in dirs || p == d;
  }

  lemma MadeFile(initial: Tree, tree: Tree, files: seq<Path>, dirs: seq<Path>, op: WriteOp)
    requires Journaled(initial, tree, files, dirs)
    requires op.path != [] && op.path !in initial && op.path !in files && op.path !in dirs
    requires IsDir(tree, Parent(op.path))
    ensures Journaled(initial, tree[op.path := File(op.data)], files + [op.path], dirs)
  {
  }

  lemma RestOf(s: seq<Path>, i: nat)
    requires i < |s|
    ensures s[i..][0] == s[i] && s[i..][1..] == s[i + 1..]
  {
  }

  lemma NothingLeft(initial: Tree, tree: Tree, dirs: seq<Path>)
    requires dirs == [] && Journaled(initial, tree, [], dirs)
    ensures tree == initial
  {
  }

  lemma FileRemovable(initial: Tree, tree: Tree, files: seq<Path>, dirs: seq<Path>)
    requires files != [] && Journaled(initial, tree, files, dirs)
    ensures Removable(tree, files[0])
    ensures Journaled(initial, tree - {files[0]}, files[1..], dirs)
  {
  }

  // The longest created directory has no entry left.
  lemma DirRemovable(initial: Tree, tree: Tree, dirs: seq<Path>)
    requires dirs != [] && LongestFirst(dirs) && Journaled(initial, tree, [], dirs)
    ensures Removable(tree, dirs[0])
    ensures Journaled(initial, tree - {dirs[0]}, [], dirs[1..])
  {
    var d := dirs[0];
    forall q | q in tree && q != []
      ensures Parent(q) != d
    {
      ChildIsLonger(q);
    }
  }
}
