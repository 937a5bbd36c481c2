/** Writing several files, with a rollback when one of them fails (cmd/forge/resource.go). */
module Changes {
  import opened Options
  import opened Projects

  /** One prepared write; `previous` and `mode` describe the file it replaces. */
  datatype Change = Change(path: Path, data: string, previous: string, mode: nat, present: bool)

  /** How the file operations of one run turn out: which of them fail, and what a write that
      fails leaves in the file (None: the bytes it had). Every pattern of faults is a World. */
  datatype World = World(fails: nat -> bool, torn: nat -> Option<string>)

  /** The files, and how many operations have been tried. */
  datatype Disk = Disk(tree: Tree, ops: nat)

  datatype Result = Result(disk: Disk, ok: bool)

  function Try(w: World, d: Disk, good: Tree, bad: Tree): Result {
    if w.fails(d.ops) then Result(Disk(bad, d.ops + 1), false) else Result(Disk(good, d.ops + 1), true)
  }

  /** A temporary file with its mode, renamed over the path: the path has all of it or none. */
  function Replace(w: World, d: Disk, p: Path, file: File): Result {
    Try(w, d, d.tree[p := file], d.tree)
  }

  /** O_CREATE|O_EXCL: refuses a path that is there. */
  function OpenNew(w: World, d: Disk, p: Path, mode: nat): Result {
    if p in d.tree then Result(Disk(d.tree, d.ops + 1), false)
    else Try(w, d, d.tree[p := File("", mode)], d.tree)
  }

  /** Writing to the open file; also os.WriteFile on a file that is there, which keeps its mode. */
  function Overwrite(w: World, d: Disk, p: Path, data: string, mode: nat): Result {
    var kept := if p in d.tree then d.tree[p].mode else mode;
    Try(w, d, d.tree[p := File(data, kept)],
        match w.torn(d.ops)
        case None => d.tree
        case Some(bytes) => d.tree[p := File(bytes, kept)])
  }

  function Remove(w: World, d: Disk, p: Path): Result {
    Try(w, d, d.tree - {p}, d.tree)
  }

  /** writeChange. The error of the clean-up after a failed write is dropped. */
  function WriteChange(w: World, d: Disk, c: Change): Result {
    if c.present then Replace(w, d, c.path, File(c.data, c.mode))
    else
      var created := OpenNew(w, d, c.path, c.mode);
      if !created.ok then created else
      var written := Overwrite(w, created.disk, c.path, c.data, c.mode);
      if written.ok then written else Result(Remove(w, written.disk, c.path).disk, false)
  }

  function Undo(w: World, d: Disk, c: Change): Result {
    if c.present then Overwrite(w, d, c.path, c.previous, c.mode) else Remove(w, d, c.path)
  }

  datatype Undone = Undone(disk: Disk, failures: seq<Path>)

  function Rollback(w: World, d: Disk, applied: seq<Change>): Undone
    decreases applied
  {
    if applied == [] then Undone(d, [])
    else
      var last := applied[|applied| - 1];
      var u := Undo(w, d, last);
      var rest := Rollback(w, u.disk, applied[..|applied| - 1]);
      Undone(rest.disk, (if u.ok then [] else [last.path]) + rest.failures)
  }

  /** `error`: None for success, else the paths whose rollback failed. */
  datatype Outcome = Outcome(disk: Disk, error: Option<seq<Path>>)

  function Apply(w: World, d: Disk, applied: seq<Change>, left: seq<Change>): Outcome
    decreases left
  {
    if left == [] then Outcome(d, None)
    else
      var r := WriteChange(w, d, left[0]);
      if r.ok then Apply(w, r.disk, applied + [left[0]], left[1..])
      else
        var u := Rollback(w, r.disk, applied);
        Outcome(u.disk, Some(u.failures))
  }

  class Checkout {
    var tree: Tree
    var ops: nat
    const world: World

    constructor (tree: Tree, world: World)
      ensures this.tree == tree && this.world == world && ops == 0
    {
      this.tree, this.world, this.ops := tree, world, 0;
    }

    function Now(): Disk
      reads this
    {
      Disk(tree, ops)
    }

    method Run(r: Result) returns (ok: bool)
      modifies this
      ensures Now() == r.disk && ok == r.ok
    {
      tree, ops, ok := r.disk.tree, r.disk.ops, r.ok;
    }

    method WriteOne(c: Change) returns (ok: bool)
      modifies this
      ensures Result(Now(), ok) == WriteChange(world, old(Now()), c)
    {
      if c.present {
        ok := Run(Replace(world, Now(), c.path, File(c.data, c.mode)));
        return;
      }
      ok := Run(OpenNew(world, Now(), c.path, c.mode));
      if !ok { return; }
      ok := Run(Overwrite(world, Now(), c.path, c.data, c.mode));
      if !ok {
        var _ := Run(Remove(world, Now(), c.path));
      }
    }

    method ApplyChanges(changes: seq<Change>) returns (error: Option<seq<Path>>)
      modifies this
      ensures Outcome(Now(), error) == Apply(world, old(Now()), [], changes)
    {
      var applied: seq<Change> := [];
      for n := 0 to |changes|
        invariant applied == changes[..n]
        invariant Apply(world, Now(), applied, changes[n..]) == Apply(world, old(Now()), [], changes)
      {
        var c := changes[n];
        assert changes[n..][1..] == changes[n + 1..];
        var ok := WriteOne(c);
        if !ok {
          var failures := RollBack(applied);
          return Some(failures);
        }
        applied := applied + [c];
      }
      return None;
    }

    /** The rollback loop, newest change first. */
    method RollBack(applied: seq<Change>) returns (failures: seq<Path>)
      modifies this
      ensures Undone(Now(), failures) == Rollback(world, old(Now()), applied)
    {
      failures := [];
      ghost var all := Rollback(world, Now(), applied);
      var i := |applied|;
      assert applied[..i] == applied;
      while i > 0
        invariant 0 <= i <= |applied|
        invariant Prefixed(failures, Rollback(world, Now(), applied[..i])) == all
      {
        UndoneOnce(world, Now(), applied[..i], failures);
        i := i - 1;
        assert applied[..i + 1][..i] == applied[..i];
        var ok := Run(Undo(world, Now(), applied[i]));
        if !ok { failures := failures + [applied[i].path]; }
      }
    }
  }

  lemma UndoneOnce(w: World, d: Disk, applied: seq<Change>, failures: seq<Path>)
    requires applied != []
    ensures
      var last := applied[|applied| - 1];
      var u := Undo(w, d, last);
      Prefixed(failures, Rollback(w, d, applied))
      == Prefixed(if u.ok then failures else failures + [last.path], Rollback(w, u.disk, applied[..|applied| - 1]))
  {
  }

  ghost function Prefixed(failures: seq<Path>, u: Undone): Undone {
    Undone(u.disk, failures + u.failures)
  }

  // ---------------------------------------------------------------- what it promises

  /** The description of every replaced file is right. Nothing is asked of new paths. */
  ghost predicate Accurate(t: Tree, changes: seq<Change>) {
    forall c :: c in changes && c.present ==> c.path in t && t[c.path] == File(c.previous, c.mode)
  }

  function Paths(changes: seq<Change>): set<Path> {
    set c | c in changes :: c.path
  }

  /** All the changes, in order. */
  function Install(t: Tree, changes: seq<Change>): Tree
    decreases changes
  {
    if changes == [] then t
    else Install(t[changes[0].path := File(changes[0].data, changes[0].mode)], changes[1..])
  }

  /** The new file that a failed write leaves behind when removing it fails too. */
  ghost function Leftover(w: World, d: Disk, left: seq<Change>): set<Path>
    decreases left
  {
    if left == [] then {}
    else
      var r := WriteChange(w, d, left[0]);
      if r.ok then Leftover(w, r.disk, left[1..])
      else if CleanupFails(w, d, left[0]) then {left[0].path}
      else {}
  }

  ghost predicate CleanupFails(w: World, d: Disk, c: Change) {
    && !c.present && c.path !in d.tree
    && !w.fails(d.ops) && w.fails(d.ops + 1) && w.fails(d.ops + 2)
  }

  /** What the rollback relies on, midway: outside `dirty` and the paths still to undo the
      tree is as it was, new files are new, and replaced files still have their mode. */
  ghost predicate Undoable(t: Tree, origin: Tree, applied: seq<Change>, dirty: set<Path>) {
    && Accurate(origin, applied)
    && (forall c :: c in applied && !c.present ==> c.path !in origin)
    && (forall c :: c in applied && c.present ==> c.path in t && t[c.path].mode == c.mode)
    && SameOutside(t, origin, Paths(applied) + dirty)
  }

  /** Undoing a replacement writes bytes only: the file keeps the mode it has by then. */
  lemma UndoKeepsMode(w: World, d: Disk, c: Change)
    requires c.present && c.path in d.tree
    ensures
      var u := Undo(w, d, c);
      && c.path in u.disk.tree && u.disk.tree[c.path].mode == d.tree[c.path].mode
      && SameOutside(u.disk.tree, d.tree, {c.path})
      && (u.ok ==> u.disk.tree[c.path].data == c.previous)
  {
    forall p | p != c.path ensures Same(Undo(w, d, c).disk.tree, d.tree, p) { }
  }

  lemma UndoStep(w: World, d: Disk, origin: Tree, rest: seq<Change>, last: Change, dirty: set<Path>)
    requires Undoable(d.tree, origin, rest + [last], dirty)
    ensures
      var u := Undo(w, d, last);
      Undoable(u.disk.tree, origin, rest, if u.ok then dirty - {last.path} else dirty + {last.path})
  {
    var all := rest + [last];
    assert last in all && forall c :: c in rest ==> c in all;
    var u := Undo(w, d, last);
    forall p | p !in Paths(rest) + (if u.ok then dirty - {last.path} else dirty + {last.path})
      ensures Same(u.disk.tree, origin, p)
    {
      if p != last.path {
        assert p !in Paths(all);
        assert Same(d.tree, origin, p);
      }
    }
  }

  /** Rolling back restores every path except those whose rollback it reports as failed. */
  lemma {:induction false} RollbackRestores(w: World, d: Disk, origin: Tree, applied: seq<Change>, dirty: set<Path>)
    requires Undoable(d.tree, origin, applied, dirty)
    ensures
      var u := Rollback(w, d, applied);
      SameOutside(u.disk.tree, origin, dirty + set p | p in u.failures)
    decreases applied
  {
    if applied == [] {
      assert Paths(applied) + dirty == dirty;
    } else {
      var n := |applied| - 1;
      assert applied == applied[..n] + [applied[n]];
      UndoStep(w, d, origin, applied[..n], applied[n], dirty);
      var u := Undo(w, d, applied[n]);
      RollbackRestores(w, u.disk, origin, applied[..n], if u.ok then dirty - {applied[n].path} else dirty + {applied[n].path});
    }
  }

  // ---------------------------------------------------------------- the whole call

  lemma {:induction false} InstallOneMore(t: Tree, changes: seq<Change>, c: Change)
    ensures Install(t, changes + [c]) == Install(t, changes)[c.path := File(c.data, c.mode)]
    decreases changes
  {
    if changes == [] {
      assert [c][1..] == [];
    } else {
      assert (changes + [c])[1..] == changes[1..] + [c];
      InstallOneMore(t[changes[0].path := File(changes[0].data, changes[0].mode)], changes[1..], c);
    }
  }

  /** The state of the forward loop. */
  ghost predicate Forward(t: Tree, origin: Tree, applied: seq<Change>) {
    && t == Install(origin, applied)
    && origin.Keys <= t.Keys
    && Paths(applied) <= t.Keys
    && Undoable(t, origin, applied, {})
  }

  /** One change is in place, or the disk is as before, or its new file is half-written. */
  lemma WrittenOrNot(w: World, d: Disk, c: Change)
    ensures
      var r := WriteChange(w, d, c);
      && (r.ok <==> !w.fails(d.ops) && (c.present || (c.path !in d.tree && !w.fails(d.ops + 1))))
      && (r.ok ==> r.disk.tree == d.tree[c.path := File(c.data, c.mode)])
      && (!r.ok && !CleanupFails(w, d, c) ==> r.disk.tree == d.tree)
      && (CleanupFails(w, d, c) ==> !r.ok && c.path in r.disk.tree && r.disk.tree - {c.path} == d.tree)
  {
    if !c.present && c.path !in d.tree && !w.fails(d.ops) && w.fails(d.ops + 1) {
      var created := OpenNew(w, d, c.path, c.mode);
      var written := Overwrite(w, created.disk, c.path, c.data, c.mode);
      assert written.disk.tree - {c.path} == d.tree;
    }
  }

  lemma ForwardStep(t: Tree, origin: Tree, applied: seq<Change>, c: Change)
    requires Forward(t, origin, applied) && Accurate(origin, [c]) && (c.present || c.path !in t)
    ensures Forward(t[c.path := File(c.data, c.mode)], origin, applied + [c])
  {
    InstallOneMore(origin, applied, c);
    assert c in [c];
    var next := t[c.path := File(c.data, c.mode)];
    forall p | p !in Paths(applied + [c]) ensures Same(next, origin, p) {
      assert c in applied + [c] && forall x :: x in applied ==> x in applied + [c];
      assert p !in Paths(applied) + {} && p != c.path;
      assert Same(t, origin, p);
    }
    forall x | x in applied + [c] && x.present ensures x.path in next && next[x.path].mode == x.mode {
      assert x in applied || x == c;
    }
  }

  /** From any point of the forward loop: either every change is installed, or everything is
      as it was except what the error names and at most one new file left half-written. */
  lemma {:induction false} ApplyFrom(w: World, d: Disk, origin: Tree, applied: seq<Change>, left: seq<Change>)
    requires Forward(d.tree, origin, applied) && Accurate(origin, left)
    ensures
      var o := Apply(w, d, applied, left);
      match o.error
      case None => o.disk.tree == Install(origin, applied + left) && Leftover(w, d, left) == {}
      case Some(failures) =>
        SameOutside(o.disk.tree, origin, (set p | p in failures) + Leftover(w, d, left))
        && Leftover(w, d, left) !! origin.Keys && Leftover(w, d, left) <= o.disk.tree.Keys
    decreases left
  {
    if left == [] {
      assert applied + left == applied;
    } else {
      var c := left[0];
      var r := WriteChange(w, d, c);
      WrittenOrNot(w, d, c);
      assert forall x :: x in left[1..] || x in [c] ==> x in left;
      if r.ok {
        ForwardStep(d.tree, origin, applied, c);
        assert applied + left == applied + [c] + left[1..];
        ApplyFrom(w, r.disk, origin, applied + [c], left[1..]);
      } else {
        StopHere(w, d, origin, applied, c);
      }
    }
  }

  lemma StopHere(w: World, d: Disk, origin: Tree, applied: seq<Change>, c: Change)
    requires Forward(d.tree, origin, applied) && !WriteChange(w, d, c).ok
    ensures
      var u := Rollback(w, WriteChange(w, d, c).disk, applied);
      var over := if CleanupFails(w, d, c) then {c.path} else {};
      && SameOutside(u.disk.tree, origin, (set p | p in u.failures) + over)
      && over !! origin.Keys && over <= u.disk.tree.Keys
  {
    var r := WriteChange(w, d, c);
    WrittenOrNot(w, d, c);
    var over := if CleanupFails(w, d, c) then {c.path} else {};
    forall p | p !in Paths(applied) + over ensures Same(r.disk.tree, origin, p) {
      assert Same(d.tree, origin, p);
    }
    RollbackRestores(w, r.disk, origin, applied, over);
    if over != {} { RollbackKeepsOthers(w, r.disk, applied, c.path); }
  }

  lemma {:induction false} RollbackKeepsOthers(w: World, d: Disk, applied: seq<Change>, p: Path)
    requires p !in Paths(applied)
    ensures Same(Rollback(w, d, applied).disk.tree, d.tree, p)
    decreases applied
  {
    if applied != [] {
      var n := |applied| - 1;
      assert applied[n] in applied && forall x :: x in applied[..n] ==> x in applied;
      RollbackKeepsOthers(w, Undo(w, d, applied[n]).disk, applied[..n], p);
    }
  }

  /** applyChanges installs every change, or restores every path that no rollback failure in its
      error names. The one exception: a new file whose write and whose clean-up both failed. */
  lemma AllOrRolledBack(w: World, t: Tree, changes: seq<Change>)
    requires Accurate(t, changes)
    ensures
      var o := Apply(w, Disk(t, 0), [], changes);
      match o.error
      case None => o.disk.tree == Install(t, changes)
      case Some(failures) =>
        && SameOutside(o.disk.tree, t, (set p | p in failures) + Leftover(w, Disk(t, 0), changes))
        && (failures == [] ==> (o.disk.tree == t <==> Leftover(w, Disk(t, 0), changes) == {}))
  {
    assert [] + changes == changes;
    assert Forward(t, t, []);
    ApplyFrom(w, Disk(t, 0), t, [], changes);
    var o := Apply(w, Disk(t, 0), [], changes);
    if o.error == Some([]) && Leftover(w, Disk(t, 0), changes) == {} {
      SameEverywhere(o.disk.tree, t);
    }
  }

  lemma SameEverywhere(t: Tree, u: Tree)
    requires SameOutside(t, u, {})
    ensures t == u
  {
    forall p ensures p in t <==> p in u ensures p in t ==> t[p] == u[p] {
      assert Same(t, u, p);
    }
    assert t.Keys == u.Keys;
  }

  /** Distinct paths: every change is in place, and nothing else moved. */
  lemma {:induction false} InstalledInPlace(t: Tree, changes: seq<Change>)
    requires forall i, j :: 0 <= i < j < |changes| ==> changes[i].path != changes[j].path
    ensures forall c :: c in changes ==>
      c.path in Install(t, changes) && Install(t, changes)[c.path] == File(c.data, c.mode)
    ensures SameOutside(Install(t, changes), t, Paths(changes))
    decreases changes
  {
    if changes != [] {
      var c := changes[0];
      var next := t[c.path := File(c.data, c.mode)];
      InstalledInPlace(next, changes[1..]);
      assert c.path !in Paths(changes[1..]);
      assert Same(Install(t, changes), next, c.path);
      forall p | p !in Paths(changes) ensures Same(Install(t, changes), t, p) {
        assert c in changes && forall x :: x in changes[1..] ==> x in changes;
        assert Same(Install(t, changes), next, p);
      }
    }
  }

  /** A file that no change claims to replace is never touched, even when a change asks for a
      new file at its path, whatever fails. */
  lemma {:induction false} NewFilesNeverOverwrite(w: World, d: Disk, applied: seq<Change>, left: seq<Change>, p: Path)
    requires p in d.tree && p !in Paths(applied)
    requires forall c :: c in left && c.path == p ==> !c.present
    ensures Same(d.tree, Apply(w, d, applied, left).disk.tree, p)
    decreases left
  {
    if left != [] {
      var c := left[0];
      var r := WriteChange(w, d, c);
      WrittenOrNot(w, d, c);
      assert c in left && forall x :: x in left[1..] ==> x in left;
      if r.ok {
        assert forall x :: x in applied + [c] <==> x in applied || x == c;
        NewFilesNeverOverwrite(w, r.disk, applied + [c], left[1..], p);
      } else {
        assert Same(d.tree, r.disk.tree, p);
        RollbackKeepsOthers(w, r.disk, applied, p);
      }
    }
  }

  /** Step `k` of a rollback fails; it undoes the change `k` before the last. */
  ghost predicate FailsToUndo(w: World, d: Disk, applied: seq<Change>, k: nat, p: Path) {
    k < |applied| && w.fails(d.ops + k) && applied[|applied| - 1 - k].path == p
  }

  /** The rollback tries every change, newest first, and its report names exactly the paths of
      the changes whose step fails. */
  lemma {:induction false} RollbackReportsFailures(w: World, d: Disk, applied: seq<Change>)
    ensures Rollback(w, d, applied).disk.ops == d.ops + |applied|
    ensures forall p :: p in Rollback(w, d, applied).failures <==> exists k: nat :: FailsToUndo(w, d, applied, k, p)
    decreases applied
  {
    if applied != [] {
      var n := |applied| - 1;
      var u := Undo(w, d, applied[n]);
      var rest := Rollback(w, u.disk, applied[..n]);
      RollbackReportsFailures(w, u.disk, applied[..n]);
      forall p ensures p in Rollback(w, d, applied).failures <==> exists k: nat :: FailsToUndo(w, d, applied, k, p) {
        FailsNowOrLater(w, d, applied, p);
        assert FailsToUndo(w, d, applied, 0, p) <==> !u.ok && applied[n].path == p;
      }
    }
  }

  lemma FailsNowOrLater(w: World, d: Disk, applied: seq<Change>, p: Path)
    requires applied != []
    ensures
      var n := |applied| - 1;
      (exists k: nat :: FailsToUndo(w, d, applied, k, p)) <==>
        FailsToUndo(w, d, applied, 0, p)
        || exists k: nat :: FailsToUndo(w, Undo(w, d, applied[n]).disk, applied[..n], k, p)
  {
    var n := |applied| - 1;
    var later := Undo(w, d, applied[n]).disk;
    if k: nat :| FailsToUndo(w, d, applied, k, p) && k > 0 {
      assert FailsToUndo(w, later, applied[..n], k - 1, p);
    }
    if k: nat :| FailsToUndo(w, later, applied[..n], k, p) {
      assert FailsToUndo(w, d, applied, k + 1, p);
    }
  }

  /** The unreported exception is real: the second of three operations writes the new file. */
  lemma LeftoverIsReachable(p: Path)
    ensures
      var w := World(i => i == 1 || i == 2, i => None);
      var o := Apply(w, Disk(map[], 0), [], [Change(p, "data", "", 420, false)]);
      o.error == Some([]) && o.disk.tree == map[p := File("", 420)]
  {
    var w := World(i => i == 1 || i == 2, i => None);
    var c := Change(p, "data", "", 420, false);
    var r := WriteChange(w, Disk(map[], 0), c);
    assert !r.ok && r.disk.tree == map[p := File("", 420)];
    assert [c][0] == c;
  }
}
