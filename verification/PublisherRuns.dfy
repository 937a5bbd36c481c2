/** Which runs there are: publications, undoings and recoveries come to their end whatever is
    left torn on the way, and no crash leaves a state without one (cmd/forge/init_project.go,
    cmd/forge/init_recovery.go). */
module PublisherRuns {
  import opened Options
  import opened Projects
  import opened Publishers

  lemma InFront(s: State, e: Event, rest: seq<Event>)
    requires Enabled(s, e) && IsRun(Apply(s, e), rest)
    ensures IsRun(s, [e] + rest) && Run(s, [e] + rest) == Run(Apply(s, e), rest)
  {
    assert ([e] + rest)[1..] == rest;
  }

  // ---------------------------------------------------------------- publishing to the end

  /** From its activation, and from any point after it, a publisher whose operations succeed
      comes to its end: every file was torn for a while, and then the tree is the published one
      and the journal is gone. */
  lemma {:induction false} PublicationCompletes(start: Tree, s: State, pid: Pid, torn: File) returns (events: seq<Event>)
    requires Inv(start, s) && PhaseOf(s, pid).Replacing?
    ensures IsRun(s, events) && events != [] && events[|events| - 1] == Retire(pid)
    ensures forall q :: q in PhaseOf(s, pid).toWrite ==> WriteTorn(pid, q, torn) in events
    ensures
      var t := Run(s, events);
      t.journal.Absent? && t.owner.None? && t.tree == Publish(s.origin, s.procs[pid].before, s.procs[pid].after)
    decreases PhaseOf(s, pid).toWrite, PhaseOf(s, pid).toDelete
  {
    if PhaseOf(s, pid).toWrite != {} {
      var q :| q in PhaseOf(s, pid).toWrite;
      events := WriteFirst(start, s, pid, torn, q);
    } else if PhaseOf(s, pid).toDelete != {} {
      var q :| q in PhaseOf(s, pid).toDelete;
      events := DeleteFirst(start, s, pid, torn, q);
    } else {
      PublishedPathByPath(s.origin, s.tree, s.procs[pid].before, s.procs[pid].after);
      InFront(s, Retire(pid), []);
      assert [Retire(pid)] + [] == [Retire(pid)];
      events := [Retire(pid)];
    }
  }

  lemma {:induction false} WriteFirst(start: Tree, s: State, pid: Pid, torn: File, q: Path) returns (events: seq<Event>)
    requires Inv(start, s) && PhaseOf(s, pid).Replacing? && q in PhaseOf(s, pid).toWrite
    ensures IsRun(s, events) && events != [] && events[|events| - 1] == Retire(pid)
    ensures forall q :: q in PhaseOf(s, pid).toWrite ==> WriteTorn(pid, q, torn) in events
    ensures
      var t := Run(s, events);
      t.journal.Absent? && t.owner.None? && t.tree == Publish(s.origin, s.procs[pid].before, s.procs[pid].after)
    decreases PhaseOf(s, pid).toWrite, PhaseOf(s, pid).toDelete, 0
  {
    var e0, e1 := WriteTorn(pid, q, torn), WriteDone(pid, q);
    var t := Apply(s, e0);
    InvStep(start, s, e0);
    InvStep(start, t, e1);
    var rest := PublicationCompletes(start, Apply(t, e1), pid, torn);
    InFront(t, e1, rest);
    InFront(s, e0, [e1] + rest);
    events := [e0] + ([e1] + rest);
  }

  lemma {:induction false} DeleteFirst(start: Tree, s: State, pid: Pid, torn: File, q: Path) returns (events: seq<Event>)
    requires Inv(start, s) && PhaseOf(s, pid).Replacing? && PhaseOf(s, pid).toWrite == {} && q in PhaseOf(s, pid).toDelete
    ensures IsRun(s, events) && events != [] && events[|events| - 1] == Retire(pid)
    ensures forall q :: q in PhaseOf(s, pid).toWrite ==> WriteTorn(pid, q, torn) in events
    ensures
      var t := Run(s, events);
      t.journal.Absent? && t.owner.None? && t.tree == Publish(s.origin, s.procs[pid].before, s.procs[pid].after)
    decreases PhaseOf(s, pid).toWrite, PhaseOf(s, pid).toDelete, 0
  {
    var e := DeleteDone(pid, q);
    InvStep(start, s, e);
    var rest := PublicationCompletes(start, Apply(s, e), pid, torn);
    InFront(s, e, rest);
    events := [e] + rest;
  }

  /** At any point after its activation a publisher may fail, and undo what it has done. */
  lemma UndoCompletes(start: Tree, s: State, pid: Pid, torn: File) returns (events: seq<Event>)
    requires Inv(start, s) && PhaseOf(s, pid).Replacing?
    ensures IsRun(s, events) && events != [] && events[0] == PublishFails(pid)
    ensures
      var t := Run(s, events);
      && t.journal.Absent? && t.owner.None?
      && t.tree == Restore(s.origin, s.procs[pid].before, s.procs[pid].after.Keys)
  {
    assert s.owner == Some(pid);
    InvStep(start, s, PublishFails(pid));
    var rest := RestoreAll(start, Apply(s, PublishFails(pid)), pid, torn);
    InFront(s, PublishFails(pid), rest);
    events := [PublishFails(pid)] + rest;
    RestoredPathByPath(s.origin, Run(s, events).tree, s.journal.before, s.journal.names);
  }

  // ---------------------------------------------------------------- recovering to the end

  /** From every reachable state that an interrupted publication can leave, a recovery whose
      operations all succeed, though each may tear its file before, runs to its end: the journal
      is gone, every path it names is as recorded, and no other path differs from the tree at
      activation. */
  lemma RecoveryCompletes(start: Tree, s: State, pid: Pid, torn: File) returns (events: seq<Event>)
    requires Inv(start, s) && s.journal.Publishing? && s.owner.None? && pid !in s.procs
    ensures forall e :: e in events ==> Recovers(e) && !e.RestoreFails?
    ensures forall q :: q in s.journal.before && !Agrees(s.tree, s.journal.before, q) ==> RestoreTorn(pid, q, torn) in events
    ensures IsRun(s, events)
    ensures Run(s, events).journal.Absent? && Run(s, events).owner.None?
    ensures Matches(Run(s, events).tree, s.journal.before, s.journal.names)
    ensures SameOutside(Run(s, events).tree, s.origin, Touched(s.journal))
  {
    InvStep(start, s, Recover(pid));
    var rest := RestoreAll(start, Apply(s, Recover(pid)), pid, torn);
    InFront(s, Recover(pid), rest);
    events := [Recover(pid)] + rest;
  }

  lemma {:induction false} RestoreAll(start: Tree, s: State, pid: Pid, torn: File) returns (events: seq<Event>)
    requires Inv(start, s) && s.journal.Publishing?
    requires PhaseOf(s, pid).Restoring? && PhaseOf(s, pid).failed == {}
    ensures forall e :: e in events ==> Recovers(e) && !e.RestoreFails?
    ensures forall q :: q in PhaseOf(s, pid).left && q in s.journal.before && !Agrees(s.tree, s.journal.before, q) ==>
      RestoreTorn(pid, q, torn) in events
    ensures IsRun(s, events)
    ensures Run(s, events).journal.Absent? && Run(s, events).owner.None?
    ensures Matches(Run(s, events).tree, s.journal.before, s.journal.names)
    ensures SameOutside(Run(s, events).tree, s.origin, Touched(s.journal))
    decreases PhaseOf(s, pid).left
  {
    var left := PhaseOf(s, pid).left;
    if left == {} {
      InFront(s, RetireRestored(pid), []);
      assert [RetireRestored(pid)] + [] == [RetireRestored(pid)];
      events := [RetireRestored(pid)];
      assert Touched(s.journal) - left - {} == Touched(s.journal);
    } else {
      var p :| p in left;
      events := RestoreFirst(start, s, pid, torn, p);
    }
  }

  lemma {:induction false} RestoreFirst(start: Tree, s: State, pid: Pid, torn: File, p: Path) returns (events: seq<Event>)
    requires Inv(start, s) && s.journal.Publishing?
    requires PhaseOf(s, pid).Restoring? && PhaseOf(s, pid).failed == {} && p in PhaseOf(s, pid).left
    ensures forall e :: e in events ==> Recovers(e) && !e.RestoreFails?
    ensures forall q :: q in PhaseOf(s, pid).left && q in s.journal.before && !Agrees(s.tree, s.journal.before, q) ==>
      RestoreTorn(pid, q, torn) in events
    ensures IsRun(s, events)
    ensures Run(s, events).journal.Absent? && Run(s, events).owner.None?
    ensures Matches(Run(s, events).tree, s.journal.before, s.journal.names)
    ensures SameOutside(Run(s, events).tree, s.origin, Touched(s.journal))
    decreases PhaseOf(s, pid).left, 0
  {
    var e0, e1 := RestoreTorn(pid, p, torn), RestoreDone(pid, p);
    if Enabled(s, e0) {
      var t := Apply(s, e0);
      InvStep(start, s, e0);
      InvStep(start, t, e1);
      var rest := RestoreAll(start, Apply(t, e1), pid, torn);
      InFront(t, e1, rest);
      InFront(s, e0, [e1] + rest);
      events := [e0] + ([e1] + rest);
    } else {
      InvStep(start, s, e1);
      var rest := RestoreAll(start, Apply(s, e1), pid, torn);
      InFront(s, e1, rest);
      events := [e1] + rest;
    }
  }

  /** From every reachable state that a publisher leaves when it stops before its activation, a
      recovery whose operations succeed frees the fixed name for the next publisher, and
      touches no file. */
  lemma PreparedRecoveryCompletes(start: Tree, s: State, pid: Pid)
    requires Inv(start, s) && s.journal.Prepared? && s.owner.None? && pid !in s.procs
    ensures IsRun(s, [Recover(pid), Discard(pid)])
    ensures
      var t := Run(s, [Recover(pid), Discard(pid)]);
      && t.journal.Absent? && t.owner.None? && t.tree == s.tree && t.history == s.history
      && forall q :: PhaseOf(s, q).Ready? ==> Enabled(t, Claim(q))
  {
    var events := [Recover(pid), Discard(pid)];
    var t := Apply(s, events[0]);
    assert t.procs[pid].phase == Refused;
    assert events[1..] == [Discard(pid)] && events[1..][1..] == [];
    assert Run(t, events[1..]) == Apply(t, Discard(pid));
  }

  /** No reachable state is stuck: whoever holds the journal may stop, and a recovery then brings
      the project back. */
  lemma EveryCrashIsRecovered(start: Tree, s: State, pid: Pid, torn: File) returns (events: seq<Event>)
    requires Inv(start, s) && !s.journal.Absent? && pid !in s.procs
    ensures IsRun(s, events)
    ensures s.owner.Some? ==> events != [] && events[0] == Stop(s.owner.value)
    ensures
      var t := Run(s, events);
      && t.journal.Absent? && t.owner.None?
      && (s.journal.Prepared? ==> t.tree == s.tree)
      && (s.journal.Publishing? ==>
            && Matches(t.tree, s.journal.before, s.journal.names)
            && SameOutside(t.tree, s.origin, Touched(s.journal)))
  {
    if s.owner.None? {
      if s.journal.Prepared? {
        PreparedRecoveryCompletes(start, s, pid);
        events := [Recover(pid), Discard(pid)];
      } else {
        events := RecoveryCompletes(start, s, pid, torn);
      }
    } else {
      var e := Stop(s.owner.value);
      var t := Apply(s, e);
      InvStep(start, s, e);
      var rest := [Recover(pid), Discard(pid)];
      if s.journal.Prepared? {
        PreparedRecoveryCompletes(start, t, pid);
      } else {
        rest := RecoveryCompletes(start, t, pid, torn);
      }
      InFront(s, e, rest);
      events := [e] + rest;
    }
  }

  /** Any path may resist an attempt; that attempt then never retires the backup. */
  lemma {:induction false} FailedAttemptKeepsBackup(s: State, pid: Pid, p: Path, events: seq<Event>)
    requires PhaseOf(s, pid).Restoring? && p in PhaseOf(s, pid).left
    ensures Enabled(s, RestoreFails(pid, p))
    ensures
      var t := Apply(s, RestoreFails(pid, p));
      IsRun(t, events) ==> !Enabled(Run(t, events), RetireRestored(pid))
  {
    var t := Apply(s, RestoreFails(pid, p));
    if IsRun(t, events) { FailureStays(t, pid, p, events); }
  }

  ghost predicate FailedOn(s: State, pid: Pid, p: Path) {
    && pid in s.procs
    && (s.procs[pid].phase.Stopped? || (s.procs[pid].phase.Restoring? && p in s.procs[pid].phase.failed))
  }

  lemma {:induction false} FailureStays(s: State, pid: Pid, p: Path, events: seq<Event>)
    requires FailedOn(s, pid, p) && IsRun(s, events)
    ensures FailedOn(Run(s, events), pid, p)
    decreases |events|
  {
    if events != [] {
      FailureStep(s, pid, p, events[0]);
      FailureStays(Apply(s, events[0]), pid, p, events[1..]);
    }
  }

  lemma FailureStep(s: State, pid: Pid, p: Path, e: Event)
    requires FailedOn(s, pid, p) && Enabled(s, e)
    ensures FailedOn(Apply(s, e), pid, p)
  {
  }

  // ---------------------------------------------------------------- what a check is worth

  /** The publisher has found this path as its snapshot says, or will not activate. */
  ghost predicate Seen(s: State, pid: Pid, p: Path) {
    && pid in s.procs && !s.procs[pid].phase.Ready?
    && (s.procs[pid].phase.Checking? ==> Agrees(s.tree, s.procs[pid].before, p))
  }

  /** At activation a path is as the publisher's snapshot says, if no editor has written it
      since the publisher's last check of it. */
  lemma {:induction false} CheckedPathsMatch(start: Tree, past: seq<Event>, pid: Pid, p: Path, events: seq<Event>)
    requires IsRun(Initial(start), past)
    requires Enabled(Run(Initial(start), past), Check(pid, p))
    requires IsRun(Apply(Run(Initial(start), past), Check(pid, p)), events) && LeavesAlone(events, p)
    requires Enabled(Run(Apply(Run(Initial(start), past), Check(pid, p)), events), Activate(pid))
    ensures
      var s := Run(Apply(Run(Initial(start), past), Check(pid, p)), events);
      Agrees(s.tree, s.procs[pid].before, p)
  {
    var s := Run(Initial(start), past);
    InvReachable(start, past);
    InvStep(start, s, Check(pid, p));
    SeenStays(start, Apply(s, Check(pid, p)), pid, p, events);
  }

  lemma {:induction false} SeenStays(start: Tree, s: State, pid: Pid, p: Path, events: seq<Event>)
    requires Inv(start, s) && Seen(s, pid, p) && IsRun(s, events) && LeavesAlone(events, p)
    ensures Seen(Run(s, events), pid, p)
    decreases |events|
  {
    if events != [] {
      var e := events[0];
      assert e in events;
      InvStep(start, s, e);
      SeenStep(s, pid, p, e);
      SeenStays(start, Apply(s, e), pid, p, events[1..]);
    }
  }

  lemma SeenStep(s: State, pid: Pid, p: Path, e: Event)
    requires Exclusive(s) && Seen(s, pid, p) && Enabled(s, e) && !(e.Edit? && e.path == p)
    ensures Seen(Apply(s, e), pid, p)
  {
    if s.procs[pid].phase.Checking? {
      OwnerIsAlone(s, pid, p, e);
    }
  }
}
