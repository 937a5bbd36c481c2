/** Any number of publishers, recoveries and editors on one project, one file operation at a
    time (cmd/forge/init_project.go, cmd/forge/init_recovery.go). A process may stop after any
    step, and a write may be left torn. */
module Publishers {
  import opened Options
  import opened Projects

  type Pid = nat

  /** The directory under the fixed journal name. */
  datatype Journal =
    | Absent
    | Prepared(before: Tree, names: set<Path>)
    | Publishing(before: Tree, names: set<Path>)

  datatype Phase =
    | Ready
    | Checking(unread: set<Path>)
    | Refused
    | Replacing(toWrite: set<Path>, toDelete: set<Path>)
    | Restoring(left: set<Path>, failed: set<Path>)
    | Stopped

  /** `before` is the snapshot a publisher took at some time in the past, `after` its result. */
  datatype Proc = Proc(before: Tree, after: Tree, phase: Phase)

  /** What happened to the project, oldest first. `dirty` are the named paths that were edited
      before the activation of the journal, but after its owner had checked them. */
  datatype Change =
    | Edited(path: Path, file: Option<File>)
    | Published(before: Tree, after: Tree, dirty: set<Path>)
    | RolledBack(before: Tree, names: set<Path>, dirty: set<Path>)

  datatype State = State(
    tree: Tree,
    journal: Journal,
    procs: map<Pid, Proc>,
    owner: Option<Pid>,
    dirty: set<Path>,
    origin: Tree,
    history: seq<Change>)

  datatype Event =
    | Start(pid: Pid, before: Tree, after: Tree)
    | Claim(pid: Pid)
    | Check(pid: Pid, path: Path)
    | Discard(pid: Pid)
    | Activate(pid: Pid)
    | WriteTorn(pid: Pid, path: Path, file: File)
    | WriteDone(pid: Pid, path: Path)
    | DeleteDone(pid: Pid, path: Path)
    | Retire(pid: Pid)
    | PublishFails(pid: Pid)
    | Recover(pid: Pid)
    | RestoreTorn(pid: Pid, path: Path, file: File)
    | RestoreDone(pid: Pid, path: Path)
    | RestoreFails(pid: Pid, path: Path)
    | RetireRestored(pid: Pid)
    | Stop(pid: Pid)
    | Edit(path: Path, content: Option<File>)

  function Touched(j: Journal): set<Path>
    requires !j.Absent?
  {
    j.before.Keys + j.names
  }

  function PhaseOf(s: State, pid: Pid): Phase {
    if pid in s.procs then s.procs[pid].phase else Stopped
  }

  /** When the operation that an event stands for can take place. The journal directory is
      renamed to its fixed name, which fails while that name is taken; recovery is started
      by hand once the process that left the journal is gone; editors keep their hands off
      the project's own files while a publication is in progress. */
  predicate Enabled(s: State, e: Event) {
    match e
    case Start(pid, _, _) => pid !in s.procs
    case Claim(pid) => PhaseOf(s, pid).Ready? && s.journal.Absent?
    case Check(pid, p) => PhaseOf(s, pid).Checking? && p in PhaseOf(s, pid).unread
    case Discard(pid) => PhaseOf(s, pid).Refused?
    case Activate(pid) => PhaseOf(s, pid).Checking? && PhaseOf(s, pid).unread == {} && !s.journal.Absent?
    case WriteTorn(pid, p, _) => PhaseOf(s, pid).Replacing? && p in PhaseOf(s, pid).toWrite
    case WriteDone(pid, p) => PhaseOf(s, pid).Replacing? && p in PhaseOf(s, pid).toWrite && p in s.procs[pid].after
    case DeleteDone(pid, p) =>
      PhaseOf(s, pid).Replacing? && PhaseOf(s, pid).toWrite == {} && p in PhaseOf(s, pid).toDelete
    case Retire(pid) => PhaseOf(s, pid) == Replacing({}, {})
    case PublishFails(pid) => PhaseOf(s, pid).Replacing? && !s.journal.Absent?
    case Recover(pid) => pid !in s.procs && s.owner.None? && !s.journal.Absent?
    case RestoreTorn(pid, p, _) =>
      && PhaseOf(s, pid).Restoring? && p in PhaseOf(s, pid).left
      && !s.journal.Absent? && p in s.journal.before && !Agrees(s.tree, s.journal.before, p)
    case RestoreDone(pid, p) => PhaseOf(s, pid).Restoring? && p in PhaseOf(s, pid).left && !s.journal.Absent?
    case RestoreFails(pid, p) => PhaseOf(s, pid).Restoring? && p in PhaseOf(s, pid).left
    case RetireRestored(pid) => PhaseOf(s, pid) == Restoring({}, {}) && !s.journal.Absent?
    case Stop(pid) => pid in s.procs
    case Edit(p, _) => s.journal.Publishing? ==> p !in Touched(s.journal)
  }

  function Enter(s: State, pid: Pid, phase: Phase): State
    requires pid in s.procs
  {
    s.(procs := s.procs[pid := s.procs[pid].(phase := phase)])
  }

  /** The process gives up the journal, whether it retired it or just ended. */
  function Leave(s: State, pid: Pid): State
    requires pid in s.procs
  {
    Enter(s, pid, Stopped).(owner := if s.owner == Some(pid) then None else s.owner)
  }

  /** The owner of a prepared journal names this path and has checked it. */
  predicate Checked(s: State, p: Path) {
    s.owner.Some? && !s.journal.Absent? && p in Touched(s.journal) &&
    PhaseOf(s, s.owner.value).Checking? && p !in PhaseOf(s, s.owner.value).unread
  }

  function RestoreFile(t: Tree, before: Tree, p: Path): Tree {
    if p in before then t[p := before[p]] else t - {p}
  }

  function Apply(s: State, e: Event): State
    requires Enabled(s, e)
  {
    match e
    case Start(pid, before, after) => s.(procs := s.procs[pid := Proc(before, after, Ready)])
    case Claim(pid) =>
      var p := s.procs[pid];
      Enter(s, pid, Checking(p.before.Keys + p.after.Keys))
        .(journal := Prepared(p.before, p.after.Keys), owner := Some(pid), dirty := {})
    case Check(pid, p) =>
      if Agrees(s.tree, s.procs[pid].before, p) then
        Enter(s, pid, Checking(s.procs[pid].phase.unread - {p}))
      else
        Enter(s, pid, Refused)
    case Discard(pid) => Leave(s, pid).(journal := Absent)
    case Activate(pid) =>
      var p := s.procs[pid];
      Enter(s, pid, Replacing(p.after.Keys, p.before.Keys - p.after.Keys))
        .(journal := Publishing(s.journal.before, s.journal.names), origin := s.tree)
    case WriteTorn(pid, p, f) => s.(tree := s.tree[p := f])
    case WriteDone(pid, p) =>
      var q := s.procs[pid];
      Enter(s, pid, q.phase.(toWrite := q.phase.toWrite - {p})).(tree := s.tree[p := q.after[p]])
    case DeleteDone(pid, p) =>
      var q := s.procs[pid];
      Enter(s, pid, q.phase.(toDelete := q.phase.toDelete - {p})).(tree := s.tree - {p})
    case Retire(pid) =>
      var p := s.procs[pid];
      Leave(s, pid).(journal := Absent, history := s.history + [Published(p.before, p.after, s.dirty)])
    case PublishFails(pid) => Enter(s, pid, Restoring(Touched(s.journal), {}))
    case Recover(pid) =>
      var j := s.journal;
      s.(owner := Some(pid),
         procs := s.procs[pid := Proc(j.before, map[], if j.Publishing? then Restoring(Touched(j), {}) else Refused)])
    case RestoreTorn(pid, p, f) => s.(tree := s.tree[p := f])
    case RestoreDone(pid, p) =>
      var q := s.procs[pid];
      Enter(s, pid, q.phase.(left := q.phase.left - {p})).(tree := RestoreFile(s.tree, s.journal.before, p))
    case RestoreFails(pid, p) =>
      var q := s.procs[pid];
      Enter(s, pid, Restoring(q.phase.left - {p}, q.phase.failed + {p}))
    case RetireRestored(pid) =>
      Leave(s, pid)
        .(journal := Absent, history := s.history + [RolledBack(s.journal.before, s.journal.names, s.dirty)])
    case Stop(pid) => Leave(s, pid)
    case Edit(p, file) =>
      s.(tree := Projects.Edit(s.tree, p, file),
         origin := Projects.Edit(s.origin, p, file),
         dirty := if Checked(s, p) then s.dirty + {p} else s.dirty,
         history := s.history + [Edited(p, file)])
  }

  ghost predicate IsRun(s: State, events: seq<Event>)
    decreases |events|
  {
    events == [] || (Enabled(s, events[0]) && IsRun(Apply(s, events[0]), events[1..]))
  }

  ghost function Run(s: State, events: seq<Event>): State
    requires IsRun(s, events)
    decreases |events|
  {
    if events == [] then s else Run(Apply(s, events[0]), events[1..])
  }

  function Initial(tree: Tree): State {
    State(tree, Absent, map[], None, {}, tree, [])
  }

  /** The tree after the recorded changes, each taken as a whole. */
  function Replay(start: Tree, history: seq<Change>): Tree {
    if history == [] then start else
      var t := Replay(start, history[..|history| - 1]);
      match history[|history| - 1]
      case Edited(p, file) => Projects.Edit(t, p, file)
      case Published(before, after, _) => Publish(t, before, after)
      case RolledBack(before, names, _) => Restore(t, before, names)
  }

  // ---------------------------------------------------------------- invariant

  predicate Owning(ph: Phase) {
    !ph.Ready? && !ph.Stopped?
  }

  /** The fixed name is held by at most one live process. */
  ghost predicate Exclusive(s: State) {
    && (forall pid :: pid in s.procs && Owning(s.procs[pid].phase) ==> s.owner == Some(pid))
    && (s.owner.Some? ==> s.owner.value in s.procs && Owning(s.procs[s.owner.value].phase) && !s.journal.Absent?)
  }

  /** All paths in `paths` outside `dirty` are as the snapshot recorded them. */
  ghost predicate Fresh(t: Tree, before: Tree, paths: set<Path>, dirty: set<Path>) {
    forall p :: p in paths && p !in dirty ==> Agrees(t, before, p)
  }

  /** What the owner of the journal knows in each of its phases. */
  ghost predicate Progress(s: State, p: Proc) {
    match p.phase
    case Ready => true
    case Stopped => true
    case Checking(unread) =>
      && s.journal == Prepared(p.before, p.after.Keys)
      && Fresh(s.tree, p.before, Touched(s.journal) - unread, s.dirty)
    case Refused => s.journal.Prepared?
    case Replacing(toWrite, toDelete) =>
      && s.journal == Publishing(p.before, p.after.Keys)
      && toWrite <= p.after.Keys
      && toDelete <= p.before.Keys - p.after.Keys
      && (forall q :: q in p.after && q !in toWrite ==> q in s.tree && s.tree[q] == p.after[q])
      && (toWrite != {} ==> toDelete == p.before.Keys - p.after.Keys)
      && (forall q :: q in p.before && q !in p.after && q !in toDelete ==> q !in s.tree)
    case Restoring(left, failed) =>
      && s.journal.Publishing?
      && left + failed <= Touched(s.journal)
      && Fresh(s.tree, s.journal.before, Touched(s.journal) - left - failed, {})
  }

  /** The tree outside a publication is what the history says; inside one it differs from
      the tree at activation in the journal's own paths only. */
  ghost predicate Explained(start: Tree, s: State) {
    if s.journal.Publishing? then
      && s.origin == Replay(start, s.history)
      && SameOutside(s.tree, s.origin, Touched(s.journal))
      && Fresh(s.origin, s.journal.before, Touched(s.journal), s.dirty)
    else
      s.tree == Replay(start, s.history)
  }

  /** Change `i` was based on a snapshot of the tree it was applied to. */
  ghost predicate Based(start: Tree, history: seq<Change>, i: nat)
    requires i < |history|
  {
    match history[i]
    case Edited(_, _) => true
    case Published(before, after, dirty) => Fresh(Replay(start, history[..i]), before, before.Keys + after.Keys, dirty)
    case RolledBack(before, names, dirty) => Fresh(Replay(start, history[..i]), before, before.Keys + names, dirty)
  }

  ghost predicate Chain(start: Tree, history: seq<Change>) {
    forall i :: 0 <= i < |history| ==> Based(start, history, i)
  }

  ghost predicate Inv(start: Tree, s: State) {
    && Exclusive(s)
    && (s.owner.Some? && s.owner.value in s.procs ==> Progress(s, s.procs[s.owner.value]))
    && Explained(start, s)
    && Chain(start, s.history)
  }

  lemma ChainGrows(start: Tree, history: seq<Change>, c: Change)
    requires Chain(start, history)
    requires Based(start, history + [c], |history|)
    ensures Chain(start, history + [c])
    ensures (history + [c])[..|history|] == history
  {
    var longer := history + [c];
    assert longer[..|history|] == history;
    forall i | 0 <= i < |longer| ensures Based(start, longer, i) {
      if i < |history| {
        assert longer[..i] == history[..i];
        assert Based(start, history, i);
      }
    }
  }

  lemma InvEdit(start: Tree, s: State, p: Path, file: Option<File>)
    requires Inv(start, s) && Enabled(s, Edit(p, file))
    ensures Inv(start, Apply(s, Edit(p, file)))
  {
    var t := Apply(s, Edit(p, file));
    ChainGrows(start, s.history, Edited(p, file));
    forall q | q != p ensures Same(t.tree, s.tree, q) && Same(t.origin, s.origin, q) { }
    if s.journal.Publishing? {
      forall q | q !in Touched(s.journal) ensures Same(t.tree, t.origin, q) {
        assert Same(s.tree, s.origin, q);
      }
    }
  }

  lemma InvRetire(start: Tree, s: State, pid: Pid)
    requires Inv(start, s) && Enabled(s, Retire(pid))
    ensures Inv(start, Apply(s, Retire(pid)))
  {
    var p := s.procs[pid];
    PublishedPathByPath(s.origin, s.tree, p.before, p.after);
    assert (s.history + [Published(p.before, p.after, s.dirty)])[..|s.history|] == s.history;
    ChainGrows(start, s.history, Published(p.before, p.after, s.dirty));
  }

  lemma InvRetireRestored(start: Tree, s: State, pid: Pid)
    requires Inv(start, s) && Enabled(s, RetireRestored(pid))
    ensures Inv(start, Apply(s, RetireRestored(pid)))
  {
    var j := s.journal;
    RestoredPathByPath(s.origin, s.tree, j.before, j.names);
    assert (s.history + [RolledBack(j.before, j.names, s.dirty)])[..|s.history|] == s.history;
    ChainGrows(start, s.history, RolledBack(j.before, j.names, s.dirty));
  }

  lemma InvWrites(start: Tree, s: State, e: Event)
    requires Inv(start, s) && Enabled(s, e)
    requires e.WriteTorn? || e.WriteDone? || e.DeleteDone?
    ensures Inv(start, Apply(s, e))
  {
    var t := Apply(s, e);
    assert s.owner == Some(e.pid);
    forall q | q !in Touched(s.journal) ensures Same(t.tree, t.origin, q) {
      assert Same(s.tree, s.origin, q);
    }
  }

  lemma InvRestores(start: Tree, s: State, e: Event)
    requires Inv(start, s) && Enabled(s, e)
    requires e.RestoreTorn? || e.RestoreDone? || e.RestoreFails?
    ensures Inv(start, Apply(s, e))
  {
    var t := Apply(s, e);
    assert s.owner == Some(e.pid);
    forall q | q !in Touched(s.journal) ensures Same(t.tree, t.origin, q) {
      assert Same(s.tree, s.origin, q);
    }
  }

  lemma InvActivate(start: Tree, s: State, pid: Pid)
    requires Inv(start, s) && Enabled(s, Activate(pid))
    ensures Inv(start, Apply(s, Activate(pid)))
  {
    assert s.owner == Some(pid);
    var t := Apply(s, Activate(pid));
    assert Touched(t.journal) - {} == Touched(t.journal);
  }

  lemma InvArrivals(start: Tree, s: State, e: Event)
    requires Inv(start, s) && Enabled(s, e)
    requires e.Start? || e.Claim? || e.Recover?
    ensures Inv(start, Apply(s, e))
  {
  }

  lemma InvCheck(start: Tree, s: State, pid: Pid, p: Path)
    requires Inv(start, s) && Enabled(s, Check(pid, p))
    ensures Inv(start, Apply(s, Check(pid, p)))
  {
    assert s.owner == Some(pid);
  }

  lemma InvLeaves(start: Tree, s: State, e: Event)
    requires Inv(start, s) && Enabled(s, e)
    requires e.Discard? || e.PublishFails? || e.Stop?
    ensures Inv(start, Apply(s, e))
  {
    assert e.Stop? || s.owner == Some(e.pid);
  }

  lemma InvStep(start: Tree, s: State, e: Event)
    requires Inv(start, s) && Enabled(s, e)
    ensures Inv(start, Apply(s, e))
  {
    match e
    case Edit(p, file) => InvEdit(start, s, p, file);
    case Retire(pid) => InvRetire(start, s, pid);
    case RetireRestored(pid) => InvRetireRestored(start, s, pid);
    case WriteTorn(_, _, _) => InvWrites(start, s, e);
    case WriteDone(_, _) => InvWrites(start, s, e);
    case DeleteDone(_, _) => InvWrites(start, s, e);
    case RestoreTorn(_, _, _) => InvRestores(start, s, e);
    case RestoreDone(_, _) => InvRestores(start, s, e);
    case RestoreFails(_, _) => InvRestores(start, s, e);
    case Activate(pid) => InvActivate(start, s, pid);
    case Start(_, _, _) => InvArrivals(start, s, e);
    case Claim(_) => InvArrivals(start, s, e);
    case Recover(_) => InvArrivals(start, s, e);
    case Check(pid, p) => InvCheck(start, s, pid, p);
    case Discard(_) => InvLeaves(start, s, e);
    case PublishFails(_) => InvLeaves(start, s, e);
    case Stop(_) => InvLeaves(start, s, e);
  }

  // ---------------------------------------------------------------- whole runs

  lemma {:induction false} InvRun(start: Tree, s: State, events: seq<Event>)
    requires Inv(start, s) && IsRun(s, events)
    ensures Inv(start, Run(s, events))
    decreases |events|
  {
    if events != [] {
      InvStep(start, s, events[0]);
      InvRun(start, Apply(s, events[0]), events[1..]);
    }
  }

  lemma InvReachable(start: Tree, events: seq<Event>)
    requires IsRun(Initial(start), events)
    ensures Inv(start, Run(Initial(start), events))
  {
    InvRun(start, Initial(start), events);
  }

  /** Mutual exclusion: in every reachable state at most one process, publisher or recovery,
      acts under the fixed journal name, and the name is taken while it does. */
  lemma OneOwner(start: Tree, events: seq<Event>, p: Pid, q: Pid)
    requires IsRun(Initial(start), events)
    requires Owning(PhaseOf(Run(Initial(start), events), p))
    requires Owning(PhaseOf(Run(Initial(start), events), q))
    ensures p == q && !Run(Initial(start), events).journal.Absent?
  {
    InvReachable(start, events);
  }

  predicate EditFree(events: seq<Event>) {
    forall e :: e in events ==> !e.Edit?
  }

  /** No path was edited behind the journal's back, in the past or since the last claim. */
  ghost predicate Undisturbed(s: State) {
    && s.dirty == {}
    && forall c :: c in s.history ==> !c.Edited? && c.dirty == {}
  }

  lemma {:induction false} UndisturbedRun(s: State, events: seq<Event>)
    requires Undisturbed(s) && IsRun(s, events) && EditFree(events)
    ensures Undisturbed(Run(s, events))
    decreases |events|
  {
    if events != [] {
      assert events[0] in events;
      UndisturbedRun(Apply(s, events[0]), events[1..]);
    }
  }

  /** The successful publications, in order, each taken as a whole. */
  function PublishedOnly(start: Tree, history: seq<Change>): Tree {
    if history == [] then start else
      var t := PublishedOnly(start, history[..|history| - 1]);
      match history[|history| - 1]
      case Published(before, after, _) => Publish(t, before, after)
      case _ => t
  }

  lemma {:induction false} RollbacksChangeNothing(start: Tree, history: seq<Change>)
    requires Chain(start, history)
    requires forall c :: c in history ==> !c.Edited? && c.dirty == {}
    ensures Replay(start, history) == PublishedOnly(start, history)
    decreases |history|
  {
    if history != [] {
      var prefix := history[..|history| - 1];
      forall i | 0 <= i < |prefix| ensures Based(start, prefix, i) {
        assert Based(start, history, i);
        assert prefix[..i] == history[..i];
      }
      RollbacksChangeNothing(start, prefix);
      var c := history[|history| - 1];
      assert c in history && Based(start, history, |history| - 1);
      if c.RolledBack? {
        var t := Replay(start, prefix);
        RestoreUndoesAnything(t, t, c.before, c.names);
      }
    }
  }

  /** With publishers and recoveries as the only ones to change files, publications are
      serial: whenever none is in progress the tree is what the successful ones left one after
      another, and each of them started from a tree equal to the snapshot it was computed from. */
  lemma SerialPublications(start: Tree, events: seq<Event>, i: nat)
    requires IsRun(Initial(start), events) && EditFree(events)
    ensures
      var s := Run(Initial(start), events);
      && (!s.journal.Publishing? ==> s.tree == PublishedOnly(start, s.history))
      && (i < |s.history| && s.history[i].Published? ==>
            Matches(PublishedOnly(start, s.history[..i]), s.history[i].before, s.history[i].after.Keys))
  {
    var s := Run(Initial(start), events);
    InvReachable(start, events);
    UndisturbedRun(Initial(start), events);
    RollbacksChangeNothing(start, s.history);
    if i < |s.history| && s.history[i].Published? {
      var prefix := s.history[..i];
      forall k | 0 <= k < |prefix| ensures Based(start, prefix, k) {
        assert Based(start, s.history, k);
        assert prefix[..k] == s.history[..k];
      }
      RollbacksChangeNothing(start, prefix);
      assert Based(start, s.history, i);
      assert s.history[i].dirty == {};
    }
  }

  /** At activation the owner's snapshot is the current tree, path by path, except where an
      editor wrote after the owner had checked that path. */
  lemma ActivationMatchesSnapshot(start: Tree, events: seq<Event>, pid: Pid, p: Path)
    requires IsRun(Initial(start), events)
    requires Enabled(Run(Initial(start), events), Activate(pid))
    requires
      var s := Run(Initial(start), events);
      p in s.procs[pid].before.Keys + s.procs[pid].after.Keys && p !in s.dirty
    ensures
      var s := Run(Initial(start), events);
      s.owner == Some(pid) && Agrees(s.tree, s.procs[pid].before, p)
  {
    InvReachable(start, events);
    var s := Run(Initial(start), events);
    assert p in Touched(s.journal) - PhaseOf(s, pid).unread;
  }

  /** Before activation nothing but an editor changes a project path: not a claim, a failed
      recheck, a crash, or the recovery of a prepared journal. */
  lemma PreparationLeavesFilesAlone(start: Tree, events: seq<Event>, e: Event)
    requires IsRun(Initial(start), events)
    requires Enabled(Run(Initial(start), events), e)
    requires !Run(Initial(start), events).journal.Publishing? && !e.Edit?
    ensures Apply(Run(Initial(start), events), e).tree == Run(Initial(start), events).tree
  {
    InvReachable(start, events);
  }

  // ---------------------------------------------------------------- crash recovery

  predicate Retires(e: Event) {
    e.Retire? || e.RetireRestored?
  }

  /** `pid` is the only process that may still be writing its publication. */
  ghost predicate OnlyPublisher(s: State, pid: Pid) {
    && pid in s.procs
    && forall q :: q in s.procs && s.procs[q].phase.Replacing? ==> q == pid
  }

  /** The tree after the edits among the events, which editors make outside the journal's paths. */
  function EditedBy(t: Tree, events: seq<Event>): Tree
    decreases |events|
  {
    if events == [] then t
    else EditedBy(if events[0].Edit? then Projects.Edit(t, events[0].path, events[0].content) else t, events[1..])
  }

  /** While a publication is neither finished nor undone, the journal and the publisher's plan
      stay what they were at activation, and the tree it was taken from follows the editors. */
  lemma {:induction false} JournalSurvives(start: Tree, s: State, pid: Pid, events: seq<Event>)
    requires Inv(start, s) && s.journal.Publishing? && OnlyPublisher(s, pid)
    requires IsRun(s, events)
    requires forall e :: e in events ==> !Retires(e)
    ensures
      var t := Run(s, events);
      && t.journal == s.journal && t.origin == EditedBy(s.origin, events) && t.dirty == s.dirty
      && OnlyPublisher(t, pid)
      && t.procs[pid].before == s.procs[pid].before && t.procs[pid].after == s.procs[pid].after
    decreases |events|
  {
    if events != [] {
      var e := events[0];
      assert e in events;
      InvStep(start, s, e);
      JournalKept(s, pid, e);
      JournalSurvives(start, Apply(s, e), pid, events[1..]);
    }
  }

  lemma JournalKept(s: State, pid: Pid, e: Event)
    requires Exclusive(s) && (s.owner.Some? ==> Progress(s, s.procs[s.owner.value]))
    requires s.journal.Publishing? && OnlyPublisher(s, pid)
    requires Enabled(s, e) && !Retires(e)
    ensures
      var t := Apply(s, e);
      && t.journal == s.journal && t.dirty == s.dirty
      && t.origin == (if e.Edit? then Projects.Edit(s.origin, e.path, e.content) else s.origin)
      && OnlyPublisher(t, pid)
      && t.procs[pid].before == s.procs[pid].before && t.procs[pid].after == s.procs[pid].after
  {
    NobodyPrepares(s, e);
    PlanKept(s, pid, e);
  }

  /** While a publication is active there is no claim, check, refusal or activation. */
  lemma NobodyPrepares(s: State, e: Event)
    requires Exclusive(s) && (s.owner.Some? ==> Progress(s, s.procs[s.owner.value]))
    requires s.journal.Publishing? && Enabled(s, e)
    ensures !e.Claim? && !e.Check? && !e.Discard? && !e.Activate?
    ensures forall q :: q in s.procs && Owning(s.procs[q].phase) ==> s.procs[q].phase.Replacing? || s.procs[q].phase.Restoring?
  {
    forall q | q in s.procs && Owning(s.procs[q].phase) ensures s.procs[q].phase.Replacing? || s.procs[q].phase.Restoring? {
      assert s.owner == Some(q);
    }
  }

  lemma {:induction false} PlanKept(s: State, pid: Pid, e: Event)
    requires OnlyPublisher(s, pid) && Enabled(s, e) && !e.Activate?
    ensures
      var t := Apply(s, e);
      && OnlyPublisher(t, pid)
      && t.procs[pid].before == s.procs[pid].before && t.procs[pid].after == s.procs[pid].after
  {
    PlanStep(s, pid, e);
    forall q | q in Apply(s, e).procs && Apply(s, e).procs[q].phase.Replacing? ensures q == pid {
      OnlyActivationPublishes(s, q, e);
    }
  }

  lemma PlanStep(s: State, pid: Pid, e: Event)
    requires pid in s.procs && Enabled(s, e)
    ensures
      var t := Apply(s, e);
      pid in t.procs && t.procs[pid].before == s.procs[pid].before && t.procs[pid].after == s.procs[pid].after
  {
  }

  lemma OnlyActivationPublishes(s: State, q: Pid, e: Event)
    requires Enabled(s, e) && !e.Activate? && PhaseOf(Apply(s, e), q).Replacing?
    ensures PhaseOf(s, q).Replacing?
  {
  }

  /** All or nothing: after activation, whatever steps, torn writes, crashes, recoveries and
      edits of other files follow, the step that retires the journal leaves either the whole
      published tree or the recovered one; and the recovered one is the very tree at
      activation, with those edits, unless a named path was edited after its own check. */
  lemma {:induction false} PublicationIsAllOrNothing(start: Tree, s: State, pid: Pid, events: seq<Event>, last: Event)
    requires Inv(start, s) && Enabled(s, Activate(pid))
    requires IsRun(Apply(s, Activate(pid)), events)
    requires forall e :: e in events ==> !Retires(e)
    requires Retires(last) && Enabled(Run(Apply(s, Activate(pid)), events), last)
    ensures
      var p := s.procs[pid];
      var t := Apply(Run(Apply(s, Activate(pid)), events), last);
      var base := EditedBy(s.tree, events);
      && t.journal.Absent?
      && (last.Retire? ==> t.tree == Publish(base, p.before, p.after))
      && (last.RetireRestored? ==>
            && t.tree == Restore(base, p.before, p.after.Keys)
            && Matches(t.tree, p.before, p.after.Keys)
            && (Matches(s.tree, p.before, p.after.Keys) ==> t.tree == base)
            && (s.dirty == {} ==> Matches(s.tree, p.before, p.after.Keys)))
  {
    var p := s.procs[pid];
    var a := Apply(s, Activate(pid));
    InvStep(start, s, Activate(pid));
    InvRun(start, a, events);
    JournalSurvives(start, a, pid, events);
    var b := Run(a, events);
    if last.Retire? {
      assert last.pid == pid;
      PublishedPathByPath(b.origin, b.tree, p.before, p.after);
    } else {
      RecoveredTree(start, b, last.pid);
      if Matches(s.tree, p.before, p.after.Keys) { EditsKeepMatches(start, a, events); }
      if s.dirty == {} { MatchesWhenClean(s, p); }
    }
  }

  lemma MatchesWhenClean(s: State, p: Proc)
    requires Progress(s, p) && p.phase == Checking({}) && s.dirty == {}
    ensures Matches(s.tree, p.before, p.after.Keys)
  {
    assert Touched(s.journal) - {} == Touched(s.journal);
  }

  /** Edits of other files leave the named ones as they were. */
  lemma {:induction false} EditsKeepMatches(start: Tree, s: State, events: seq<Event>)
    requires Inv(start, s) && s.journal.Publishing? && Matches(s.origin, s.journal.before, s.journal.names)
    requires IsRun(s, events) && forall e :: e in events ==> !Retires(e)
    ensures Matches(EditedBy(s.origin, events), s.journal.before, s.journal.names)
    decreases |events|
  {
    if events != [] {
      var e := events[0];
      assert e in events;
      InvStep(start, s, e);
      NobodyPrepares(s, e);
      EditsKeepMatches(start, Apply(s, e), events[1..]);
    }
  }

  lemma RecoveredTree(start: Tree, s: State, pid: Pid)
    requires Inv(start, s) && Enabled(s, RetireRestored(pid))
    ensures
      var j := s.journal;
      j.Publishing? && s.tree == Restore(s.origin, j.before, j.names) && Matches(s.tree, j.before, j.names)
    ensures Matches(s.origin, s.journal.before, s.journal.names) ==> s.tree == s.origin
  {
    var j := s.journal;
    assert Touched(j) - {} - {} == Touched(j);
    RestoredPathByPath(s.origin, s.tree, j.before, j.names);
    if Matches(s.origin, j.before, j.names) {
      RestoreUndoesAnything(s.origin, s.origin, j.before, j.names);
    }
  }

  // ---------------------------------------------------------------- edits before activation

  ghost predicate LeavesAlone(events: seq<Event>, p: Path) {
    forall e :: e in events ==> !(e.Edit? && e.path == p)
  }

  /** Some continuation in which nobody edits `p` again brings the publisher to activation. */
  ghost predicate CanActivate(s: State, pid: Pid, p: Path) {
    exists events :: IsRun(s, events) && LeavesAlone(events, p) && Enabled(Run(s, events), Activate(pid))
  }

  /** The recheck goes path by path, and is not atomic with the activation: an edit that takes
      a named path away from the snapshot stops the publication if and only if it comes before
      the check of that very path. */
  lemma EditIsNoticedBeforeItsCheck(start: Tree, s: State, pid: Pid, p: Path, file: Option<File>)
    requires Inv(start, s) && PhaseOf(s, pid).Checking? && p in s.procs[pid].before.Keys + s.procs[pid].after.Keys
    requires Enabled(s, Edit(p, file)) && !Agrees(Apply(s, Edit(p, file)).tree, s.procs[pid].before, p)
    ensures CanActivate(Apply(s, Edit(p, file)), pid, p) <==> p !in PhaseOf(s, pid).unread
  {
    var t := Apply(s, Edit(p, file));
    InvStep(start, s, Edit(p, file));
    if p in PhaseOf(s, pid).unread {
      assert Doomed(t, pid, p);
      forall events | IsRun(t, events) && LeavesAlone(events, p) ensures !Enabled(Run(t, events), Activate(pid)) {
        DoomedRun(start, t, pid, p, events);
      }
    } else {
      var events := FinishChecks(start, t, pid, p);
    }
  }

  /** The publisher has still to read a path that is not as its snapshot says, or has given up. */
  ghost predicate Doomed(s: State, pid: Pid, p: Path) {
    && pid in s.procs
    && match s.procs[pid].phase
       case Checking(unread) => p in unread && !Agrees(s.tree, s.procs[pid].before, p)
       case Refused => true
       case Stopped => true
       case _ => false
  }

  lemma {:induction false} DoomedRun(start: Tree, s: State, pid: Pid, p: Path, events: seq<Event>)
    requires Inv(start, s) && Doomed(s, pid, p) && IsRun(s, events) && LeavesAlone(events, p)
    ensures Doomed(Run(s, events), pid, p)
    decreases |events|
  {
    if events != [] {
      var e := events[0];
      assert e in events;
      InvStep(start, s, e);
      DoomedStep(s, pid, p, e);
      DoomedRun(start, Apply(s, e), pid, p, events[1..]);
    }
  }

  lemma DoomedStep(s: State, pid: Pid, p: Path, e: Event)
    requires Exclusive(s) && Doomed(s, pid, p) && Enabled(s, e) && !(e.Edit? && e.path == p)
    ensures Doomed(Apply(s, e), pid, p)
  {
    if s.procs[pid].phase.Checking? {
      OwnerIsAlone(s, pid, p, e);
    }
  }

  /** While the owner checks, nobody but an editor of the path changes it. */
  lemma OwnerIsAlone(s: State, pid: Pid, p: Path, e: Event)
    requires Exclusive(s) && PhaseOf(s, pid).Checking? && Enabled(s, e) && !(e.Edit? && e.path == p)
    ensures Same(Apply(s, e).tree, s.tree, p)
  {
  }

  /** Editors put the other paths back, and the publisher checks them. */
  lemma FinishChecks(start: Tree, s: State, pid: Pid, p: Path) returns (events: seq<Event>)
    requires Inv(start, s) && PhaseOf(s, pid).Checking? && p !in PhaseOf(s, pid).unread
    ensures IsRun(s, events) && LeavesAlone(events, p) && Enabled(Run(s, events), Activate(pid))
    decreases PhaseOf(s, pid).unread
  {
    var unread := PhaseOf(s, pid).unread;
    if unread == {} {
      events := [];
    } else {
      var q :| q in unread;
      var before := s.procs[pid].before;
      var edit := Edit(q, if q in before then Some(before[q]) else None);
      var t := Apply(s, edit);
      InvStep(start, s, edit);
      InvStep(start, t, Check(pid, q));
      var rest := FinishChecks(start, Apply(t, Check(pid, q)), pid, p);
      events := [edit] + ([Check(pid, q)] + rest);
      assert events[1..] == [Check(pid, q)] + rest && events[1..][1..] == rest;
    }
  }

  /** And an edit that does not stop it is lost, however the publication ends: the path is then
      as published or as in the older snapshot. */
  lemma UnnoticedEditIsLost(start: Tree, s: State, pid: Pid, p: Path, file: Option<File>,
                            toActivation: seq<Event>, events: seq<Event>, last: Event)
    requires Inv(start, s) && PhaseOf(s, pid).Checking? && p in s.procs[pid].before.Keys + s.procs[pid].after.Keys
    requires Enabled(s, Edit(p, file)) && IsRun(Apply(s, Edit(p, file)), toActivation)
    requires
      var a := Run(Apply(s, Edit(p, file)), toActivation);
      && Enabled(a, Activate(pid)) && IsRun(Apply(a, Activate(pid)), events)
      && (forall e :: e in events ==> !Retires(e))
      && Retires(last) && Enabled(Run(Apply(a, Activate(pid)), events), last)
    ensures
      var t := Apply(s, Edit(p, file));
      var q := s.procs[pid];
      var end := Apply(Run(Apply(Run(t, toActivation), Activate(pid)), events), last).tree;
      && (Agrees(end, q.before, p) || Agrees(end, q.after, p))
      && (!Agrees(t.tree, q.before, p) && !Agrees(t.tree, q.after, p) ==> !Same(end, t.tree, p))
  {
    var t := Apply(s, Edit(p, file));
    InvStep(start, s, Edit(p, file));
    InvRun(start, t, toActivation);
    PlanStays(t, pid, toActivation);
    PublicationIsAllOrNothing(start, Run(t, toActivation), pid, events, last);
  }

  lemma {:induction false} PlanStays(s: State, pid: Pid, events: seq<Event>)
    requires pid in s.procs && IsRun(s, events)
    ensures
      var t := Run(s, events);
      pid in t.procs && t.procs[pid].before == s.procs[pid].before && t.procs[pid].after == s.procs[pid].after
    decreases |events|
  {
    if events != [] {
      PlanStep(s, pid, events[0]);
      PlanStays(Apply(s, events[0]), pid, events[1..]);
    }
  }

  /** Such a moment exists, and the edit does not stop the activation: a publisher of a
      one-file project reaches it in three steps. */
  lemma RecheckWindowIsReachable(p: Path, original: File, result: File, edit: Option<File>)
    ensures
      var start := map[p := original];
      var events := [Start(0, start, map[p := result]), Claim(0), Check(0, p)];
      && IsRun(Initial(start), events)
      && Enabled(Run(Initial(start), events), Activate(0))
      && Enabled(Run(Initial(start), events), Edit(p, edit))
      && Enabled(Apply(Run(Initial(start), events), Edit(p, edit)), Activate(0))
  {
    var start := map[p := original];
    var e0, e1, e2 := Start(0, start, map[p := result]), Claim(0), Check(0, p);
    var s0 := Apply(Initial(start), e0);
    var s1 := Apply(s0, e1);
    assert start.Keys + map[p := result].Keys == {p};
    assert s1.procs[0] == Proc(start, map[p := result], Checking({p})) && Agrees(s1.tree, start, p);
    var s2 := Apply(s1, e2);
    assert s2.procs[0].phase == Checking({}) && s2.journal == Prepared(start, {p});
    RunOfThree(Initial(start), e0, e1, e2);
  }

  lemma RunOfThree(s: State, e0: Event, e1: Event, e2: Event)
    requires Enabled(s, e0) && Enabled(Apply(s, e0), e1) && Enabled(Apply(Apply(s, e0), e1), e2)
    ensures IsRun(s, [e0, e1, e2])
    ensures Run(s, [e0, e1, e2]) == Apply(Apply(Apply(s, e0), e1), e2)
  {
    var t := Apply(Apply(s, e0), e1);
    assert [e0, e1, e2][1..] == [e1, e2] && [e1, e2][1..] == [e2] && [e2][1..] == [];
    assert IsRun(t, [e2]) && Run(t, [e2]) == Apply(t, e2);
    assert IsRun(Apply(s, e0), [e1, e2]);
  }

  // ---------------------------------------------------------------- recovery and its retries

  predicate Recovers(e: Event) {
    e.Recover? || e.RestoreTorn? || e.RestoreDone? || e.RestoreFails? || e.RetireRestored?
  }

  ghost function Correct(s: State): set<Path>
    requires !s.journal.Absent?
  {
    set p | p in Touched(s.journal) && Agrees(s.tree, s.journal.before, p)
  }

  /** No step of any recovery attempt, nor its crash, makes a correct path incorrect; the
      backup stays until every path is correct; and a path an attempt is done with and did not
      report as failed is correct. */
  lemma RecoveryOnlyImproves(start: Tree, s: State, e: Event)
    requires Inv(start, s) && s.journal.Publishing?
    requires Enabled(s, e) && (Recovers(e) || e.Stop?)
    ensures
      var t := Apply(s, e);
      && (!e.RetireRestored? ==> t.journal == s.journal && Correct(s) <= Correct(t))
      && (e.RetireRestored? ==> t.tree == s.tree && Correct(s) == Touched(s.journal))
    ensures
      s.owner.Some? && PhaseOf(s, s.owner.value).Restoring? ==>
        Touched(s.journal) - PhaseOf(s, s.owner.value).left - PhaseOf(s, s.owner.value).failed <= Correct(s)
  {
    var t := Apply(s, e);
    if e.RetireRestored? {
      forall p | p in Touched(s.journal) ensures p in Correct(s) {
        assert p in Touched(s.journal) - {} - {};
      }
    } else {
      forall p | p in Correct(s) ensures p in Correct(t) { }
    }
  }

  /** The same over whole retries: any number of attempts, each cut anywhere. */
  lemma {:induction false} RetriesOnlyImprove(start: Tree, s: State, events: seq<Event>)
    requires Inv(start, s) && s.journal.Publishing? && IsRun(s, events)
    requires forall e :: e in events ==> (Recovers(e) || e.Stop?) && !e.RetireRestored?
    ensures Run(s, events).journal == s.journal && Correct(s) <= Correct(Run(s, events))
    decreases |events|
  {
    if events != [] {
      assert events[0] in events;
      InvStep(start, s, events[0]);
      RecoveryOnlyImproves(start, s, events[0]);
      RetriesOnlyImprove(start, Apply(s, events[0]), events[1..]);
    }
  }
}
