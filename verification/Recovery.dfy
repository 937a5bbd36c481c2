/** The publisher and the recovery as they run: loops of file operations that may fail, each
    of which may leave a torn file (cmd/forge/init_project.go, cmd/forge/init_recovery.go). */
module Recovery {
  import opened Options
  import opened Projects
  import opened Publishers

  datatype Manifest = Manifest(publishing: bool, before: set<Path>, names: set<Path>)

  /** A validation of the tree, made after `at` states had been produced. */
  datatype Validation = Validation(tree: Tree, at: nat, accepted: bool)

  /** What another process finds when this one stops. */
  datatype Disk = Disk(tree: Tree, journal: Journal)

  datatype Recovered =
    | NoBackup
    | Unreadable
    | Discarded
    | Failed(paths: set<Path>)
    | NotRetired
    | Restored

  /** `Incomplete` reports what the recovery of a failed publication came to. */
  datatype Outcome =
    | Initialized
    | Rejected
    | NotActivated
    | CleanupFailed
    | Undone
    | Incomplete(why: Recovered)

  class Project {
    var tree: Tree
    var journal: Journal
    /** Whether file operations can fail in this run. */
    const faulty: bool
    /** Every state of the disk that this process has produced, oldest first. */
    ghost var trace: seq<Disk>
    /** The tree when the journal was last activated, and the length of `trace` then. */
    ghost var origin: Tree
    ghost var activation: nat
    /** The tree as others last left it. */
    ghost var edited: Tree
    /** The last validation: what it saw, when, and whether it accepted. */
    ghost var validation: Validation

    constructor (tree: Tree, faulty: bool)
      ensures this.tree == tree && journal == Absent && this.faulty == faulty && trace == []
    {
      this.tree := tree;
      this.journal := Absent;
      this.faulty := faulty;
      this.trace := [];
      this.origin := tree;
      this.activation := 0;
      this.edited := tree;
      this.validation := Validation(tree, 0, false);
    }

    /** Every state produced since `from` has this journal, and this tree outside `paths`. */
    ghost predicate Confined(from: nat, journal: Journal, tree: Tree, paths: set<Path>)
      reads this
      requires from <= |trace|
    {
      forall i :: from <= i < |trace| ==> trace[i].journal == journal && SameOutside(trace[i].tree, tree, paths)
    }

    /** Every state produced since `from` has the correct paths that `tree` has. */
    ghost predicate Improves(from: nat, tree: Tree, before: Tree)
      reads this
      requires from <= |trace|
    {
      forall i, p :: from <= i < |trace| && Agrees(tree, before, p) ==> Agrees(trace[i].tree, before, p)
    }

    /** The state is the last one recorded, or nothing has happened since. */
    ghost predicate Recorded(past: seq<Disk>, tree: Tree, journal: Journal)
      reads this
    {
      && past <= trace
      && if trace == past then this.tree == tree && this.journal == journal
         else trace[|trace| - 1] == Disk(this.tree, this.journal)
    }

    method Succeeds() returns (ok: bool)
      ensures !faulty ==> ok
    {
      ok := true;
      if faulty {
        ok := *;
      }
    }

    /** WriteFile and Chmod: a failure may come before, between or after the two. */
    method WriteFile(p: Path, file: File) returns (ok: bool)
      modifies this`tree, this`trace
      ensures SameOutside(tree, old(tree), {p})
      ensures ok ==> tree == old(tree)[p := file]
      ensures !faulty ==> ok
      ensures old(trace) <= trace && Confined(|old(trace)|, journal, old(tree), {p})
      ensures Recorded(old(trace), old(tree), old(journal))
      ensures ok ==> |trace| == |old(trace)| + 2
    {
      ok := Succeeds();
      if !ok { return; }
      var torn: File := *;
      tree := tree[p := torn];
      trace := trace + [Disk(tree, journal)];
      ok := Succeeds();
      if !ok { return; }
      tree := tree[p := file];
      trace := trace + [Disk(tree, journal)];
    }

    method RemoveFile(p: Path) returns (ok: bool)
      modifies this`tree, this`trace
      ensures tree == if ok then old(tree) - {p} else old(tree)
      ensures !faulty ==> ok
      ensures old(trace) <= trace && Confined(|old(trace)|, journal, old(tree), {p})
      ensures forall i :: |old(trace)| <= i < |trace| ==> trace[i].tree == old(tree) - {p}
      ensures Recorded(old(trace), old(tree), old(journal))
    {
      ok := Succeeds();
      if ok {
        tree := tree - {p};
        trace := trace + [Disk(tree, journal)];
      }
    }

    method WriteProjectFiles(files: Tree) returns (ok: bool)
      modifies this`tree, this`trace
      ensures SameOutside(tree, old(tree), files.Keys)
      ensures ok ==> tree == old(tree) + files
      ensures !faulty ==> ok
      ensures old(trace) <= trace && Confined(|old(trace)|, journal, old(tree), files.Keys)
      ensures Recorded(old(trace), old(tree), old(journal))
    {
      var left := files.Keys;
      ok := true;
      while left != {}
        invariant left <= files.Keys && Recorded(old(trace), old(tree), old(journal))
        invariant SameOutside(tree, old(tree), files.Keys)
        invariant forall p :: p in files && p !in left ==> p in tree && tree[p] == files[p]
        invariant old(trace) <= trace && Confined(|old(trace)|, journal, old(tree), files.Keys)
        decreases left
      {
        ghost var t0, n := tree, |trace|;
        var p :| p in left;
        ok := WriteFile(p, files[p]);
        Widen(t0, old(tree), p, files.Keys, n);
        if !ok { return; }
        left := left - {p};
      }
      WrittenPathByPath(old(tree), tree, files);
    }

    /** States confined to `p` around `t0` are confined to a set that holds `p` around `base`. */
    ghost method Widen(t0: Tree, base: Tree, p: Path, paths: set<Path>, n: nat)
      requires n <= |trace| && p in paths
      requires SameOutside(t0, base, paths) && SameOutside(tree, t0, {p})
      requires Confined(n, journal, t0, {p})
      ensures SameOutside(tree, base, paths) && Confined(n, journal, base, paths)
    {
      SameOutsideChain(tree, t0, base, p, paths);
      forall i | n <= i < |trace| ensures SameOutside(trace[i].tree, base, paths) {
        SameOutsideChain(trace[i].tree, t0, base, p, paths);
      }
    }

    method ReplaceProjectFiles(before: Tree, after: Tree) returns (ok: bool)
      modifies this`tree, this`trace
      ensures SameOutside(tree, old(tree), before.Keys + after.Keys)
      ensures ok ==> tree == Publish(old(tree), before, after)
      ensures !faulty ==> ok
      ensures old(trace) <= trace && Confined(|old(trace)|, journal, old(tree), before.Keys + after.Keys)
      ensures Recorded(old(trace), old(tree), old(journal))
    {
      ok := WriteProjectFiles(after);
      Loosen(old(tree), after.Keys, before.Keys + after.Keys, |old(trace)|);
      if !ok { return; }
      var left := before.Keys - after.Keys;
      while left != {}
        invariant left <= before.Keys - after.Keys && Recorded(old(trace), old(tree), old(journal))
        invariant SameOutside(tree, old(tree), before.Keys + after.Keys)
        invariant forall p :: p in after ==> p in tree && tree[p] == after[p]
        invariant forall p :: p in before && p !in after && p !in left ==> p !in tree
        invariant old(trace) <= trace && Confined(|old(trace)|, journal, old(tree), before.Keys + after.Keys)
        decreases left
      {
        ghost var t0, n := tree, |trace|;
        var p :| p in left;
        ok := RemoveFile(p);
        Widen(t0, old(tree), p, before.Keys + after.Keys, n);
        if !ok { return; }
        left := left - {p};
      }
      PublishedPathByPath(old(tree), tree, before, after);
    }

    ghost method Loosen(base: Tree, few: set<Path>, paths: set<Path>, n: nat)
      requires n <= |trace| && few <= paths
      requires SameOutside(tree, base, few) && Confined(n, journal, base, few)
      ensures SameOutside(tree, base, paths) && Confined(n, journal, base, paths)
    {
    }

    /** validateProjectPublication: every snapshot path unchanged, every new path free. */
    method ValidatePublication(before: Tree, after: Tree) returns (ok: bool)
      modifies this`validation
      ensures validation == Validation(tree, |trace|, ok)
      ensures ok ==> Matches(tree, before, after.Keys)
      ensures !faulty && Matches(tree, before, after.Keys) ==> ok
    {
      ok := Succeeds();
      var left := before.Keys + after.Keys;
      while ok && left != {}
        invariant left <= before.Keys + after.Keys
        invariant ok ==> forall p :: p in before.Keys + after.Keys && p !in left ==> Agrees(tree, before, p)
        invariant !faulty && Matches(tree, before, after.Keys) ==> ok
        decreases left
      {
        var p :| p in left;
        ok := Agrees(tree, before, p);
        left := left - {p};
      }
      validation := Validation(tree, |trace|, ok);
    }

    /** persistRecoveryFile: a copy in the private directory, torn if it fails. */
    method CopyOriginal(staged: Tree, p: Path, file: File) returns (ok: bool, copied: Tree)
      ensures ok ==> copied == staged[p := file]
      ensures !faulty ==> ok
    {
      ok := Succeeds();
      var torn: File := *;
      copied := staged[p := if ok then file else torn];
    }

    /** Copies every original into a private directory, then renames that to the fixed name. */
    method SaveProjectRecovery(before: Tree, after: Tree) returns (ok: bool)
      modifies this`journal, this`trace
      ensures ok ==> old(journal).Absent? && journal == Prepared(before, after.Keys)
      ensures !ok ==> journal == old(journal) && trace == old(trace)
      ensures !faulty && old(journal).Absent? ==> ok
      ensures ok ==> trace == old(trace) + [Disk(tree, journal)]
    {
      if !journal.Absent? { return false; }
      var staged: Tree := map[];
      var left := before.Keys;
      while left != {}
        invariant left <= before.Keys
        invariant staged.Keys == before.Keys - left
        invariant forall p :: p in staged ==> staged[p] == before[p]
        invariant journal == old(journal) && trace == old(trace)
        decreases left
      {
        var p :| p in left;
        ok, staged := CopyOriginal(staged, p, before[p]);
        if !ok { return; }
        left := left - {p};
      }
      assert staged == before;
      ok := Succeeds();
      if ok {
        journal := Prepared(staged, after.Keys);
        trace := trace + [Disk(tree, journal)];
      }
    }

    /** Sets the manifest's flag by renaming a complete new manifest over the old one. */
    method ActivateProjectRecovery() returns (ok: bool)
      requires journal.Prepared?
      modifies this`journal, this`trace, this`origin, this`activation
      ensures ok ==> journal == Publishing(old(journal).before, old(journal).names) && origin == tree
      ensures ok ==> activation == |old(trace)|
      ensures !ok ==> journal == old(journal) && trace == old(trace)
      ensures !faulty ==> ok
      ensures old(trace) <= trace
      ensures forall i :: |old(trace)| <= i < |trace| ==> trace[i] == Disk(tree, journal)
      ensures Recorded(old(trace), old(tree), old(journal))
    {
      ok := Succeeds();
      if ok {
        journal := Publishing(journal.before, journal.names);
        origin := tree;
        activation := |trace|;
        trace := trace + [Disk(tree, journal)];
      }
    }

    /** One rename takes the journal away from its fixed name. Removing what it leaves under
        the retired name can still fail, and that is reported as a failure too. */
    method DiscardProjectRecovery() returns (ok: bool)
      modifies this`journal, this`trace
      ensures journal.Absent? || journal == old(journal)
      ensures ok ==> journal.Absent?
      ensures !faulty ==> ok
      ensures old(trace) <= trace
      ensures forall i :: |old(trace)| <= i < |trace| ==> trace[i] == Disk(tree, Absent)
      ensures !journal.Absent? ==> trace == old(trace)
      ensures Recorded(old(trace), old(tree), old(journal))
    {
      ok := Succeeds();
      if ok {
        journal := Absent;
        trace := trace + [Disk(tree, journal)];
        ok := Succeeds();
      }
    }

    method RestoreProjectFile(p: Path, before: Tree) returns (ok: bool)
      requires p in before
      modifies this`tree, this`trace
      ensures SameOutside(tree, old(tree), {p})
      ensures ok ==> Agrees(tree, before, p)
      ensures !faulty ==> ok
      ensures Agrees(old(tree), before, p) ==> tree == old(tree) && trace == old(trace)
      ensures old(trace) <= trace && Confined(|old(trace)|, journal, old(tree), {p})
      ensures Recorded(old(trace), old(tree), old(journal))
    {
      if p in tree && tree[p] == before[p] { return true; }
      ok := WriteFile(p, before[p]);
    }

    /** Restores one named path, whichever loop of the recovery it belongs to. */
    method RestorePath(p: Path, before: Tree) returns (ok: bool)
      modifies this`tree, this`trace
      ensures SameOutside(tree, old(tree), {p})
      ensures ok ==> Agrees(tree, before, p)
      ensures !faulty ==> ok
      ensures old(trace) <= trace && Confined(|old(trace)|, journal, old(tree), {p})
      ensures forall q :: Agrees(old(tree), before, q) ==> Agrees(tree, before, q)
      ensures Improves(|old(trace)|, old(tree), before)
      ensures Recorded(old(trace), old(tree), old(journal))
    {
      if p in before {
        ok := RestoreProjectFile(p, before);
      } else {
        ok := RemoveFile(p);
      }
      forall q | Agrees(old(tree), before, q) ensures Agrees(tree, before, q) {
        assert q != p ==> Same(tree, old(tree), q);
      }
      forall i, q | |old(trace)| <= i < |trace| && Agrees(old(tree), before, q)
        ensures Agrees(trace[i].tree, before, q)
      {
        assert q != p ==> Same(trace[i].tree, old(tree), q);
      }
    }

    /** readProjectRecovery: the manifest names the paths and tells whether it was activated. */
    method ReadManifest() returns (manifest: Option<Manifest>)
      requires !journal.Absent?
      ensures manifest.Some? ==> manifest.value == Manifest(journal.Publishing?, journal.before.Keys, journal.names)
      ensures !faulty ==> manifest.Some?
    {
      var ok := Succeeds();
      return if ok then Some(Manifest(journal.Publishing?, journal.before.Keys, journal.names)) else None;
    }

    /** readProjectFiles on the backup's copies. */
    method ReadOriginals(paths: set<Path>) returns (files: Option<Tree>)
      requires !journal.Absent? && paths == journal.before.Keys
      ensures files.Some? ==> files.value == journal.before
      ensures !faulty ==> files.Some?
    {
      var read: Tree := map[];
      var left := paths;
      while left != {}
        invariant left <= paths && read.Keys == paths - left
        invariant forall p :: p in read ==> read[p] == journal.before[p]
        decreases left
      {
        var p :| p in left;
        var ok := Succeeds();
        if !ok { return None; }
        read := read[p := journal.before[p]];
        left := left - {p};
      }
      assert read == journal.before;
      return Some(read);
    }

    /** recoverProject: restores what it can, and retires the backup only when all went well. */
    method RecoverProject() returns (r: Recovered)
      modifies this`tree, this`journal, this`trace
      ensures r.NoBackup? <==> old(journal).Absent?
      ensures r.Discarded? ==> old(journal).Prepared? && journal.Absent?
      ensures !old(journal).Publishing? ==> tree == old(tree)
      ensures old(journal).Prepared? ==>
                && (r.Discarded? || r.NotRetired? || r.Unreadable?)
                && (journal == old(journal) || (!r.Unreadable? && journal.Absent?))
                && (!faulty ==> r.Discarded? && journal.Absent?)
      ensures old(journal).Publishing? ==>
                var j := old(journal);
                && (r.Unreadable? || r.Failed? || r.NotRetired? || r.Restored?)
                && SameOutside(tree, old(tree), Touched(j))
                && (forall p :: Agrees(old(tree), j.before, p) && p in Touched(j) ==> Agrees(tree, j.before, p))
                && (r.Unreadable? ==> tree == old(tree) && journal == j)
                && (r.Failed? ==> journal == j && r.paths != {})
                && (r.Failed? ==> forall p :: p in Touched(j) && p !in r.paths ==> Agrees(tree, j.before, p))
                && (r.NotRetired? ==> (journal == j || journal.Absent?) && tree == Restore(old(tree), j.before, j.names))
                && (r.Restored? ==> journal.Absent? && tree == Restore(old(tree), j.before, j.names))
                && (!faulty ==> r.Restored?)
      ensures old(trace) <= trace
      ensures old(journal).Publishing? ==>
                var j := old(journal);
                && (forall i :: |old(trace)| <= i < |trace| ==>
                     trace[i].journal == j || trace[i] == Disk(Restore(old(tree), j.before, j.names), Absent))
                && (forall i :: |old(trace)| <= i < |trace| ==> SameOutside(trace[i].tree, old(tree), Touched(j)))
                && Improves(|old(trace)|, old(tree), j.before)
      ensures Recorded(old(trace), old(tree), old(journal))
    {
      if journal.Absent? { return NoBackup; }
      var manifest := ReadManifest();
      if manifest.None? { return Unreadable; }
      var ok;
      if !manifest.value.publishing {
        ok := DiscardProjectRecovery();
        return if ok then Discarded else NotRetired;
      }
      var originals := ReadOriginals(manifest.value.before);
      if originals.None? { return Unreadable; }
      var before, names := originals.value, manifest.value.names;
      var failures: set<Path> := {};
      var left := before.Keys + names;
      while left != {}
        invariant left + failures <= before.Keys + names && journal == old(journal)
        invariant Recorded(old(trace), old(tree), old(journal))
        invariant SameOutside(tree, old(tree), before.Keys + names)
        invariant forall p :: p in before.Keys + names && p !in left && p !in failures ==> Agrees(tree, before, p)
        invariant forall p :: Agrees(old(tree), before, p) ==> Agrees(tree, before, p)
        invariant !faulty ==> failures == {}
        invariant old(trace) <= trace && Confined(|old(trace)|, journal, old(tree), before.Keys + names)
        invariant Improves(|old(trace)|, old(tree), before)
        decreases left
      {
        ghost var t0, n := tree, |trace|;
        // The originals come first, then the files that only the publication added.
        var p :| p in left && (p in before || left !! before.Keys);
        ok := RestorePath(p, before);
        Widen(t0, old(tree), p, before.Keys + names, n);
        left := left - {p};
        if !ok {
          failures := failures + {p};
        }
      }
      if failures != {} { return Failed(failures); }
      RestoredPathByPath(old(tree), tree, before, names);
      ok := DiscardProjectRecovery();
      return if ok then Restored else NotRetired;
    }

    /** An editor, or another process, changes project files. */
    method Interference()
      modifies this`tree, this`edited
      ensures tree == edited
    {
      tree := *;
      edited := tree;
    }

    /** The end of prepareProject, once the journal is active. */
    method PublishOrUndo(before: Tree, after: Tree) returns (r: Outcome)
      requires journal == Publishing(before, after.Keys)
      modifies this`tree, this`journal, this`trace
      ensures old(trace) <= trace
      ensures Finished(r, old(tree), before, after)
      ensures forall i :: |old(trace)| <= i < |trace| ==> Recoverable(old(tree), before, after, trace[i])
      ensures !faulty ==> r.Initialized?
      ensures Recorded(old(trace), old(tree), old(journal))
    {
      var ok := ReplaceProjectFiles(before, after);
      if !ok {
        ghost var t, n := tree, |trace|;
        var recovered := RecoverProject();
        RestoreForgets(old(tree), t, before, after.Keys);
        forall i | n <= i < |trace| ensures Recoverable(old(tree), before, after, trace[i]) {
          SameOutsideTrans(trace[i].tree, t, old(tree), before.Keys + after.Keys);
        }
        SameOutsideTrans(tree, t, old(tree), before.Keys + after.Keys);
        return if recovered.Restored? then Undone else Incomplete(recovered);
      }
      ok := DiscardProjectRecovery();
      return if ok then Initialized else CleanupFailed;
    }

    ghost predicate Finished(r: Outcome, start: Tree, before: Tree, after: Tree)
      reads this
    {
      match r
      case Initialized => journal.Absent? && tree == Publish(start, before, after)
      case CleanupFailed =>
        (journal == Publishing(before, after.Keys) || journal.Absent?) && tree == Publish(start, before, after)
      case Undone => journal.Absent? && tree == Restore(start, before, after.Keys)
      case Incomplete(why) =>
        && (why.Unreadable? || why.Failed? || why.NotRetired?)
        && (journal == Publishing(before, after.Keys) || (journal.Absent? && why.NotRetired?))
        && SameOutside(tree, start, before.Keys + after.Keys)
        && (why.Failed? ==> forall p :: p in before.Keys + after.Keys && p !in why.paths ==> Agrees(tree, before, p))
        && (why.NotRetired? ==> tree == Restore(start, before, after.Keys))
      case _ => false
    }

    /** prepareProject, from the verified result to the end of the publication. A run goes on
        to the activation only if the last validation, made when the journal was already
        under its fixed name, found every snapshot path unchanged and every new path free. */
    method PrepareProject(before: Tree, after: Tree) returns (r: Outcome, ghost first: Validation)
      modifies this
      ensures first.tree == old(tree) && first.at == |old(trace)|
      ensures first.accepted ==> Matches(old(tree), before, after.Keys)
      ensures !faulty && Matches(old(tree), before, after.Keys) ==> first.accepted
      ensures !first.accepted ==> r.Rejected? && journal == old(journal) && trace == old(trace)
      ensures old(trace) <= trace
      ensures r.Rejected? || r.NotActivated? ==>
                && tree == edited
                && (journal.Publishing? ==> journal == old(journal))
                && forall i :: |old(trace)| <= i < |trace| ==> !trace[i].journal.Publishing?
      ensures !r.Rejected? && !r.NotActivated? ==>
                && old(journal).Absent? && origin == edited
                && |old(trace)| <= activation < |trace| && trace[|trace| - 1] == Disk(tree, journal)
                && (forall i :: |old(trace)| <= i < activation ==> !trace[i].journal.Publishing?)
                && (forall i :: activation <= i < |trace| ==> Recoverable(origin, before, after, trace[i]))
                && Finished(r, origin, before, after)
      ensures !validation.accepted ==> r.Rejected?
      ensures !faulty && old(journal).Absent? && r.Rejected? ==> journal.Absent?
      ensures !r.Rejected? ==>
                && |old(trace)| < validation.at <= |trace|
                && trace[|old(trace)|].journal == Prepared(before, after.Keys)
                && Matches(validation.tree, before, after.Keys)
      ensures !r.Rejected? && !r.NotActivated? ==> validation.at == activation
      ensures !faulty && Matches(validation.tree, before, after.Keys) ==> validation.accepted
      ensures !faulty && old(journal).Absent? && first.accepted && validation.accepted ==> r.Initialized?
    {
      edited := tree;
      var ok := ValidatePublication(before, after);
      first := validation;
      r := Rejected;
      if !ok { return; }
      Interference();
      ok := SaveProjectRecovery(before, after);
      if !ok { return; }
      r := PublishJournaled(before, after);
    }

    /** The rest of it, once the journal is under its fixed name. */
    method PublishJournaled(before: Tree, after: Tree) returns (r: Outcome)
      requires journal == Prepared(before, after.Keys)
      modifies this
      ensures old(trace) <= trace
      ensures r.Rejected? || r.NotActivated? ==>
                && tree == edited && !journal.Publishing?
                && forall i :: |old(trace)| <= i < |trace| ==> !trace[i].journal.Publishing?
      ensures !r.Rejected? && !r.NotActivated? ==>
                && origin == edited
                && |old(trace)| <= activation < |trace| && trace[|trace| - 1] == Disk(tree, journal)
                && (forall i :: |old(trace)| <= i < activation ==> !trace[i].journal.Publishing?)
                && (forall i :: activation <= i < |trace| ==> Recoverable(origin, before, after, trace[i]))
                && Finished(r, origin, before, after)
      ensures r.Rejected? <==> !validation.accepted
      ensures validation.accepted ==> Matches(validation.tree, before, after.Keys)
      ensures !faulty && Matches(validation.tree, before, after.Keys) ==> validation.accepted
      ensures |old(trace)| == validation.at
      ensures !r.Rejected? && !r.NotActivated? ==> validation.at == activation
      ensures !faulty && r.Rejected? ==> journal.Absent?
      ensures !faulty && validation.accepted ==> r.Initialized?
    {
      r := Rejected;
      Interference();
      var ok := ValidatePublication(before, after);
      if !ok {
        ok := DiscardProjectRecovery();
        return;
      }
      Interference();
      ok := ActivateProjectRecovery();
      r := NotActivated;
      if !ok { return; }
      r := PublishOrUndo(before, after);
    }
  }

  /** A state that is the whole new tree or the recovered old one, or that a recovery can
      still bring to the latter. */
  ghost predicate Recoverable(origin: Tree, before: Tree, after: Tree, d: Disk) {
    match d.journal
    case Prepared(_, _) => false
    case Publishing(b, names) =>
      b == before && names == after.Keys && SameOutside(d.tree, origin, before.Keys + after.Keys)
    case Absent =>
      d.tree == Publish(origin, before, after) || d.tree == Restore(origin, before, after.Keys)
  }

  lemma WrittenPathByPath(base: Tree, t: Tree, files: Tree)
    requires SameOutside(t, base, files.Keys)
    requires forall p :: p in files ==> p in t && t[p] == files[p]
    ensures t == base + files
  {
    PublishedPathByPath(base, t, map[], files);
    assert base - {} == base;
  }

  lemma SameOutsideChain(t: Tree, t0: Tree, base: Tree, p: Path, paths: set<Path>)
    requires SameOutside(t0, base, paths) && SameOutside(t, t0, {p}) && p in paths
    ensures SameOutside(t, base, paths)
  {
    forall q | q !in paths ensures Same(t, base, q) {
      assert Same(t, t0, q) && Same(t0, base, q);
    }
  }

  lemma SameOutsideTrans(t: Tree, t0: Tree, base: Tree, paths: set<Path>)
    requires SameOutside(t0, base, paths) && SameOutside(t, t0, paths)
    ensures SameOutside(t, base, paths)
  {
    forall q | q !in paths ensures Same(t, base, q) {
      assert Same(t, t0, q) && Same(t0, base, q);
    }
  }

  lemma RestoreForgets(origin: Tree, torn: Tree, before: Tree, names: set<Path>)
    requires SameOutside(torn, origin, before.Keys + names)
    ensures Restore(torn, before, names) == Restore(origin, before, names)
  {
    var r := Restore(torn, before, names);
    forall q | q !in before.Keys + names ensures Same(r, origin, q) {
      assert Same(torn, origin, q);
    }
    RestoredPathByPath(origin, r, before, names);
  }
}
