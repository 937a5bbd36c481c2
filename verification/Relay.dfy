/** One relay as it runs (internal/outbox/outbox.go): every statement is a step of the protocol
    in Outbox, and other relays, purges and new events may take any steps in between. */
module Relay {
  import opened Options
  import opened Outbox

  const PURGE_BATCH_SIZE: nat := 5000

  /** What the publisher was offered, and whether it took it. */
  datatype Offer = Offer(id: MsgId, taken: bool)

  function Sum(ns: seq<nat>): nat {
    if ns == [] then 0 else Sum(ns[..|ns| - 1]) + ns[|ns| - 1]
  }

  datatype Outcome = Settled(failures: seq<MsgId>) | Cancelled | Broken

  function Unpublished(rows: map<MsgId, Msg>): set<MsgId> {
    set id | id in rows && rows[id].publishedAt.None?
  }

  /** What DeletePublishedOutboxBefore selects. */
  function Expired(rows: map<MsgId, Msg>, before: nat): set<MsgId> {
    set id | id in rows && rows[id].publishedAt.Some? && rows[id].publishedAt.value < before
  }

  /** Unpublished, and not backed off beyond this time. */
  predicate Due(m: Msg, at: nat) {
    m.publishedAt.None? && m.nextAttempt <= at
  }

  /** Due, and in no open batch. */
  ghost predicate ToFetch(s: State, k: MsgId) {
    k in s.rows && Due(s.rows[k], s.clock) && forall r :: r in s.batches ==> k !in s.batches[r].fetched
  }

  /** The first `limit` rows in id order that are due and in no open batch. */
  ghost predicate FirstDue(s: State, limit: nat, ids: seq<MsgId>) {
    && |ids| <= limit && Ascending(ids)
    && (forall k :: k in ids ==> ToFetch(s, k))
    && (forall k :: ToFetch(s, k) && k !in ids ==> |ids| == limit && forall j :: j in ids ==> j < k)
  }

  /** The protocol lets a relay lock exactly such rows. */
  lemma EligibleIsToFetch(s: State, k: MsgId)
    ensures Eligible(s, k) <==> ToFetch(s, k)
  {
  }

  predicate PublishedBefore(m: Msg, before: nat) {
    m.publishedAt.Some? && m.publishedAt.value < before
  }

  lemma SubsetSize<T>(a: set<T>, b: set<T>)
    requires a <= b
    ensures |a| + |b - a| == |b|
  {
    assert a + (b - a) == b;
  }

  lemma {:induction false} SmallestOf(ids: set<MsgId>) returns (m: MsgId)
    requires ids != {}
    ensures m in ids && forall k :: k in ids ==> m <= k
    decreases ids
  {
    m :| m in ids;
    var rest := ids - {m};
    assert ids == rest + {m};
    if rest != {} {
      var k := SmallestOf(rest);
      if k < m { m := k; }
    }
  }

  /** A rejected row is backed off; any other is marked published or left alone. */
  predicate RowSettled(before: Msg, after: Msg, start: nat, rejected: bool) {
    if rejected then
      after == before.(attempts := before.attempts + 1, nextAttempt := start + Backoff(before.attempts + 1))
    else
      after == before || (before.publishedAt.None? && after == before.(publishedAt := Some(start)))
  }

  lemma SettleRows(rows: map<MsgId, Msg>, b: Batch, s: State)
    requires BatchOk(s, b) && s.rows == rows
    ensures
      var after := map id | id in rows :: Settle(b, id, rows[id]);
      && after.Keys == rows.Keys
      && Unpublished(after) <= Unpublished(rows)
      && |Unpublished(after)| + |b.accepted| == |Unpublished(rows)|
      && forall k :: k in rows ==> RowSettled(rows[k], after[k], b.start, k in b.rejected)
  {
    var after := map id | id in rows :: Settle(b, id, rows[id]);
    assert Unpublished(after) == Unpublished(rows) - b.accepted;
    SubsetSize(b.accepted, Unpublished(rows));
    forall k | k in rows ensures RowSettled(rows[k], after[k], b.start, k in b.rejected) {
      SettleRow(b, k, rows[k]);
    }
  }

  lemma SettleRow(b: Batch, id: MsgId, m: Msg)
    requires b.accepted !! b.rejected && (id in b.accepted ==> m.publishedAt.None?)
    ensures RowSettled(m, Settle(b, id, m), b.start, id in b.rejected)
  {
  }

  /** In the loop: the first `i` rows have been offered, `n` of them accepted, and the ones in
      `failures` rejected; the rows themselves are still as they were fetched. */
  ghost predicate Held(rows: map<MsgId, Msg>, s: State, r: RelayId, start: nat, ids: seq<MsgId>, i: nat, n: nat, failures: seq<MsgId>) {
    && r in s.batches
    && var b := s.batches[r];
      b.fetched == ids && b.at == i && b.start == start
      && n == |b.accepted| && n + |failures| == i
      && (forall k :: k in b.rejected <==> k in failures)
      && forall k :: k in ids ==> k in rows && k in s.rows && s.rows[k] == rows[k]
  }

  lemma OfferAccepted(rows: map<MsgId, Msg>, s: State, r: RelayId, start: nat, ids: seq<MsgId>, i: nat, n: nat, failures: seq<MsgId>)
    requires Held(rows, s, r, start, ids, i, n, failures) && i < |ids| && ids[i] !in s.batches[r].accepted
    ensures Enabled(s, Accept(r)) && Held(rows, Apply(s, Accept(r)), r, start, ids, i + 1, n + 1, failures)
    ensures Apply(s, Accept(r)).rows == s.rows && Apply(s, Accept(r)).batches.Keys == s.batches.Keys
    ensures Apply(s, Accept(r)).enqueued == s.enqueued && Apply(s, Accept(r)).clock == s.clock
  {
  }

  lemma OfferRejected(rows: map<MsgId, Msg>, s: State, r: RelayId, start: nat, ids: seq<MsgId>, i: nat, n: nat, failures: seq<MsgId>)
    requires Held(rows, s, r, start, ids, i, n, failures) && i < |ids|
    ensures Enabled(s, Reject(r)) && Held(rows, Apply(s, Reject(r)), r, start, ids, i + 1, n, failures + [ids[i]])
    ensures Apply(s, Reject(r)).rows == s.rows && Apply(s, Reject(r)).batches.Keys == s.batches.Keys
    ensures Apply(s, Reject(r)).enqueued == s.enqueued && Apply(s, Reject(r)).clock == s.clock
  {
  }

  /** Nothing but this relay's batch differs. */
  ghost predicate Undisturbed(s: State, t: State, r: RelayId) {
    t.rows == s.rows && t.enqueued == s.enqueued && t.clock == s.clock && t.batches.Keys == {r}
  }

  /** What a batch that was fetched from `rows` and committed did to its own rows, whatever
      others did to the rest: each is published, or backed off if it is in `failures`. */
  ghost predicate BatchDone(rows: map<MsgId, Msg>, after: map<MsgId, Msg>, start: nat, ids: seq<MsgId>, n: nat, failures: seq<MsgId>) {
    && n + |failures| == |ids|
    && (forall k :: k in failures ==> k in ids)
    && (forall k :: k in ids ==> k in rows && k in after && OwnSettled(rows[k], after[k], start, k in failures))
  }

  predicate OwnSettled(before: Msg, after: Msg, start: nat, rejected: bool) {
    if rejected then
      after == before.(attempts := before.attempts + 1, nextAttempt := start + Backoff(before.attempts + 1))
    else
      after == before.(publishedAt := Some(start))
  }

  lemma CommitSettlesOwn(rows: map<MsgId, Msg>, s: State, r: RelayId, start: nat, ids: seq<MsgId>, n: nat, failures: seq<MsgId>)
    requires Inv(s) && Held(rows, s, r, start, ids, |ids|, n, failures)
    ensures Enabled(s, Commit(r)) && r !in Apply(s, Commit(r)).batches
    ensures BatchDone(rows, Apply(s, Commit(r)).rows, start, ids, n, failures)
    ensures |Unpublished(Apply(s, Commit(r)).rows)| + n == |Unpublished(s.rows)|
  {
    var b := s.batches[r];
    assert BatchOk(s, b);
    AllSettled(s, b);
    SettleRows(s.rows, b, s);
    var after := Apply(s, Commit(r)).rows;
    forall k | k in ids ensures k in after && OwnSettled(rows[k], after[k], start, k in failures) {
      assert after[k] == Settle(b, k, s.rows[k]);
      SettleOwnRow(b, k, rows[k]);
    }
  }

  lemma SettleOwnRow(b: Batch, id: MsgId, m: Msg)
    requires id in b.accepted || id in b.rejected
    requires b.accepted !! b.rejected
    ensures OwnSettled(m, Settle(b, id, m), b.start, id in b.rejected)
  {
  }

  /** What a batch that was committed at `start` did to the table: it marked `n` rows published
      and backed off those in `failures`. */
  ghost predicate BatchEffect(before: map<MsgId, Msg>, after: map<MsgId, Msg>, start: nat, n: nat, failures: seq<MsgId>) {
    && after.Keys == before.Keys
    && Unpublished(after) <= Unpublished(before)
    && |Unpublished(after)| + n == |Unpublished(before)|
    && (forall k :: k in failures ==> k in before)
    && (forall k :: k in before ==> RowSettled(before[k], after[k], start, k in failures))
  }

  /** A batch was committed although its relay was told of a failure. */
  ghost predicate CommitWasLost(before: map<MsgId, Msg>, s: State) {
    exists n, failures :: BatchEffect(before, s.rows, s.clock, n, failures)
  }

  /** Every row that is due, but for the rejected ones, has been published. */
  ghost predicate Exhausted(s: State, failures: seq<MsgId>) {
    forall k :: k in s.rows && k !in failures ==> !Due(s.rows[k], s.clock)
  }

  /** A commit of a relay that is alone: each fetched row is marked or backed off, and if the
      batch was not full no due row is left but the ones it backed off. */
  lemma {:induction false} CommitSettles(open: State, s: State, r: RelayId, limit: nat, ids: seq<MsgId>, n: nat, failures: seq<MsgId>)
    requires Inv(s) && Held(open.rows, s, r, open.clock, ids, |ids|, n, failures) && Undisturbed(open, s, r)
    requires FirstDue(open.(batches := map[]), limit, ids)
    ensures Enabled(s, Commit(r))
    ensures
      var t := Apply(s, Commit(r));
      && t.batches == map[] && t.enqueued == s.enqueued && t.clock == s.clock
      && BatchEffect(open.rows, t.rows, s.clock, n, failures)
      && (n + |failures| < limit ==> Exhausted(t, failures))
  {
    var b := s.batches[r];
    assert BatchOk(s, b);
    AllSettled(s, b);
    SettleRows(s.rows, b, s);
    var t := Apply(s, Commit(r));
    assert t.batches.Keys == {};
    var before := open.(batches := map[]);
    forall k | k in t.rows && k !in failures && Due(t.rows[k], t.clock) ensures n + |failures| >= limit {
      DueIsBeyondLimit(before, t, b, limit, k);
    }
  }

  /** A row that is still due after the commit was not fetched, so the batch was full. */
  lemma DueIsBeyondLimit(before: State, t: State, b: Batch, limit: nat, k: MsgId)
    requires FirstDue(before, limit, b.fetched) && before.batches == map[] && t.clock == before.clock
    requires forall id :: id in b.fetched ==> id in b.accepted || id in b.rejected
    requires k in t.rows && k in before.rows && t.rows[k] == (if k in b.fetched then Settle(b, k, before.rows[k]) else before.rows[k])
    requires Due(t.rows[k], t.clock) && k !in b.rejected
    ensures |b.fetched| == limit
  {
    assert t.rows[k].publishedAt.None?;
    if k !in b.fetched { assert ToFetch(before, k); }
  }

  // ---------------------------------------------------------------- other sessions

  predicate ActsFor(e: Event, r: RelayId) {
    match e
    case Fetch(q, _, _) => q == r
    case Accept(q) => q == r
    case Reject(q) => q == r
    case RollBack(q) => q == r
    case Commit(q) => q == r
    case _ => false
  }

  /** Others leave a relay's batch and the rows it has locked alone. */
  ghost predicate OwnKept(s: State, t: State, r: RelayId) {
    && s.clock <= t.clock
    && (r in t.batches <==> r in s.batches)
    && (r in s.batches ==>
          && t.batches[r] == s.batches[r]
          && forall k :: k in s.batches[r].fetched ==> k in s.rows && k in t.rows && t.rows[k] == s.rows[k])
  }

  lemma OwnKeptStep(s: State, e: Event, r: RelayId)
    requires Inv(s) && Enabled(s, e) && !ActsFor(e, r)
    ensures OwnKept(s, Apply(s, e), r)
  {
    if r in s.batches {
      assert BatchOk(s, s.batches[r]);
      forall k | k in s.batches[r].fetched ensures k in s.rows && k in Apply(s, e).rows && Apply(s, e).rows[k] == s.rows[k] {
        assert MsgOk(s, k);
        if e.Commit? { assert BatchOk(s, s.batches[e.relay]); }
      }
    }
  }

  lemma OwnKeptStays(s: State, t: State, u: State, r: RelayId)
    requires OwnKept(s, t, r) && OwnKept(t, u, r)
    ensures OwnKept(s, u, r)
  {
  }

  /** Only a new event makes an unpublished row. */
  lemma NothingNewUnpublished(s: State, e: Event)
    requires Enabled(s, e) && !e.Enqueue?
    ensures Unpublished(Apply(s, e).rows) <= Unpublished(s.rows)
    ensures |Unpublished(Apply(s, e).rows)| <= |Unpublished(s.rows)|
  {
    SubsetSize(Unpublished(Apply(s, e).rows), Unpublished(s.rows));
  }

  class Relay {
    const id: RelayId
    const batchSize: int
    /** Whether statements can fail, and whether the context can be cancelled. */
    const faulty: bool
    /** Whether there are no other sessions, and whether those there are commit new events. */
    const alone: bool
    const enqueuing: bool
    var db: State
    ghost const now: nat
    ghost var steps: seq<Event>
    /** Everything this relay has offered to the publisher. */
    ghost var sent: seq<Offer>

    ghost predicate Valid()
      reads this
    {
      IsRun(Initial(now), steps) && Run(Initial(now), steps) == db
    }

    /** This relay has no open batch, and if it is alone nobody has. */
    ghost predicate Idle()
      reads this
    {
      Valid() && id !in db.batches && (alone ==> db.batches == map[])
    }

    constructor (id: RelayId, batchSize: int, faulty: bool, alone: bool, enqueuing: bool, db: State,
                 ghost now: nat, ghost steps: seq<Event>)
      requires IsRun(Initial(now), steps) && Run(Initial(now), steps) == db
      ensures Valid() && this.db == db && this.id == id && this.batchSize == batchSize
      ensures this.faulty == faulty && this.alone == alone && this.enqueuing == enqueuing
    {
      this.id := id;
      this.batchSize := batchSize;
      this.faulty := faulty;
      this.alone := alone;
      this.enqueuing := enqueuing;
      this.db := db;
      this.now := now;
      this.steps := steps;
      this.sent := [];
    }

    method Step(e: Event)
      requires Valid() && Enabled(db, e)
      modifies this`db, this`steps
      ensures Valid() && steps == old(steps) + [e] && db == Apply(old(db), e)
    {
      RunAppend(Initial(now), steps, e);
      db := Apply(db, e);
      steps := steps + [e];
    }

    method Fails() returns (yes: bool)
      ensures !faulty ==> !yes
    {
      yes := false;
      if faulty {
        yes := *;
      }
    }

    /** Other sessions: any number of steps that are not this relay's. */
    method Others()
      requires Valid()
      modifies this`db, this`steps
      ensures Valid() && old(steps) <= steps
      ensures OwnKept(old(db), db, id)
      ensures alone ==> db == old(db)
      ensures !enqueuing ==> |Unpublished(db.rows)| <= |Unpublished(old(db).rows)|
    {
      NothingHappened(db);
      if alone { return; }
      var n: nat := *;
      while n > 0
        invariant Valid() && old(steps) <= steps
        invariant OwnKept(old(db), db, id)
        invariant !enqueuing ==> |Unpublished(db.rows)| <= |Unpublished(old(db).rows)|
      {
        var e: Event := *;
        if Enabled(db, e) && !ActsFor(e, id) && (enqueuing || !e.Enqueue?) {
          Outbox.InvReachable(now, steps);
          OwnKeptStep(db, e, id);
          OwnKeptStays(old(db), db, Apply(db, e), id);
          if !enqueuing { NothingNewUnpublished(db, e); }
          Step(e);
        }
        n := n - 1;
      }
    }

    /** Enqueue, once its transaction has committed: identifiers grow, and the event is due. */
    method Enqueue() returns (k: MsgId)
      requires Valid()
      modifies this`db, this`steps
      ensures Valid() && old(steps) <= steps
      ensures forall j :: j in old(db).enqueued ==> j < k
      ensures db.rows == old(db).rows[k := Msg(0, db.clock, None)] && db.enqueued == old(db).enqueued + {k}
      ensures ToFetch(db, k)
    {
      k := 0;
      var left := db.enqueued;
      while left != {}
        invariant left <= db.enqueued
        invariant forall j :: j in db.enqueued && j !in left ==> j < k
        decreases left
      {
        var j :| j in left;
        k := if j < k then k else j + 1;
        left := left - {j};
      }
      NeverHeld(db, k);
      Step(Event.Enqueue(k));
    }

    /** No batch holds an event before it is committed. */
    lemma NeverHeld(s: State, k: MsgId)
      requires s == db && Valid() && k !in s.enqueued
      ensures forall r :: r in s.batches ==> k !in s.batches[r].fetched
    {
      Outbox.InvReachable(now, steps);
      assert MsgOk(s, k);
      forall r | r in s.batches ensures k !in s.batches[r].fetched {
        assert BatchOk(s, s.batches[r]);
      }
    }

    lemma NothingHappened(s: State)
      requires s == db && Valid()
      ensures OwnKept(s, s, id)
    {
      Outbox.InvReachable(now, steps);
      if id in s.batches { assert BatchOk(s, s.batches[id]); }
    }

    /** FetchUnpublishedOutbox: the first due rows in id order that nobody else has locked. */
    method Select(limit: nat) returns (ids: seq<MsgId>)
      ensures FirstDue(db, limit, ids)
    {
      ids := [];
      var left := set k | k in db.rows && Eligible(db, k);
      forall k ensures k in left <==> ToFetch(db, k) { EligibleIsToFetch(db, k); }
      while left != {} && |ids| < limit
        invariant |ids| <= limit && Ascending(ids)
        invariant forall k :: ToFetch(db, k) <==> k in ids || k in left
        invariant forall j, k :: j in ids && k in left ==> j < k
        decreases left
      {
        ghost var least := SmallestOf(left);
        var m :| m in left && forall k :: k in left ==> m <= k;
        assert forall j :: 0 <= j < |ids| ==> ids[j] in ids;
        ids := ids + [m];
        left := left - {m};
      }
    }

    /** SKIP LOCKED and the recheck after a concurrent commit: some rows may be left out. */
    method Skip(ids: seq<MsgId>) returns (kept: seq<MsgId>)
      requires Ascending(ids)
      ensures |kept| <= |ids| && Ascending(kept) && forall k :: k in kept ==> k in ids
    {
      kept := [];
      for i := 0 to |ids|
        invariant |kept| <= i && Ascending(kept)
        invariant forall k :: k in kept ==> k in ids[..i]
      {
        var keep: bool := *;
        if keep {
          assert forall j :: 0 <= j < |kept| ==> kept[j] in kept;
          kept := kept + [ids[i]];
        }
      }
    }

    /** Begins a transaction and locks the rows to publish. */
    method FetchBatch(limit: nat) returns (ids: seq<MsgId>)
      requires Idle()
      modifies this`db, this`steps
      ensures Valid() && old(steps) <= steps && |ids| <= limit
      ensures Held(db.rows, db, id, db.clock, ids, 0, 0, [])
      ensures forall k :: k in ids ==> Due(db.rows[k], db.clock)
      ensures !enqueuing ==> |Unpublished(db.rows)| <= |Unpublished(old(db).rows)|
      ensures alone ==>
                && db.rows == old(db).rows && db.enqueued == old(db).enqueued && db.clock >= old(db).clock
                && db.batches.Keys == {id} && FirstDue(db.(batches := map[]), limit, ids)
    {
      var later: int := *;
      if later > 0 { Step(Tick(db.clock + later)); }
      Others();
      ids := Select(limit);
      if !alone { ids := Skip(ids); }
      assert alone ==> db.(batches := map[]) == db;
      forall k | k in ids ensures Eligible(db, k) { EligibleIsToFetch(db, k); }
      Step(Fetch(id, limit, ids));
    }

    /** The batch fetched in `open` has been offered up to row `i`. */
    ghost predicate Offering(open: State, ids: seq<MsgId>, i: nat, n: nat, failures: seq<MsgId>)
      reads this
    {
      && Valid() && Held(open.rows, db, id, open.clock, ids, i, n, failures)
      && (alone ==> Undisturbed(open, db, id))
      && (!enqueuing ==> |Unpublished(db.rows)| <= |Unpublished(open.rows)|)
    }

    /** Since `past` the first `i` rows have been offered in order, each once, and the ones in
        `failures` are those that the publisher rejected. */
    ghost predicate Told(past: seq<Offer>, ids: seq<MsgId>, i: nat, failures: seq<MsgId>)
      reads this
    {
      && i <= |ids| && past <= sent && |sent| == |past| + i
      && forall j :: 0 <= j < i ==> sent[|past| + j] == Offer(ids[j], ids[j] !in failures)
    }

    method Publish(k: MsgId) returns (taken: bool)
      modifies this`sent
      ensures sent == old(sent) + [Offer(k, taken)]
    {
      taken := *;
      sent := sent + [Offer(k, taken)];
    }

    /** It has been rolled back. */
    ghost predicate Abandoned(open: State)
      reads this
    {
      && Idle()
      && (alone ==> db.rows == open.rows && db.enqueued == open.enqueued && db.clock == open.clock)
      && (!enqueuing ==> |Unpublished(db.rows)| <= |Unpublished(open.rows)|)
    }

    method Abandon(ghost open: State, ghost ids: seq<MsgId>, ghost i: nat, ghost n: nat, ghost failures: seq<MsgId>)
      requires Offering(open, ids, i, n, failures)
      modifies this`db, this`steps
      ensures Abandoned(open) && old(steps) <= steps
    {
      Step(RollBack(id));
      assert alone ==> db.batches == map[];
    }

    /** The loop over the fetched rows: offers each to the publisher, and goes on after a
        rejection unless the relay is shutting down. */
    method OfferAll(ghost open: State, ids: seq<MsgId>) returns (n: nat, failures: seq<MsgId>, stop: Option<Outcome>)
      requires Offering(open, ids, 0, 0, [])
      modifies this`db, this`steps, this`sent
      ensures old(steps) <= steps && old(sent) <= sent
      ensures if stop.Some? then Abandoned(open) && !stop.value.Settled? else Offering(open, ids, |ids|, n, failures)
      ensures stop.None? ==> Told(old(sent), ids, |ids|, failures)
      ensures !faulty ==> stop.None?
    {
      n, failures, stop := 0, [], None;
      var i := 0;
      while i < |ids|
        invariant 0 <= i <= |ids| && old(steps) <= steps
        invariant Offering(open, ids, i, n, failures) && stop.None?
        invariant Told(old(sent), ids, i, failures)
      {
        n, failures, stop := OfferOne(open, ids, i, n, failures, old(sent));
        if stop.Some? { return; }
        i := i + 1;
      }
    }

    method OfferOne(ghost open: State, ids: seq<MsgId>, i: nat, accepted: nat, rejected: seq<MsgId>, ghost past: seq<Offer>)
      returns (n: nat, failures: seq<MsgId>, stop: Option<Outcome>)
      requires i < |ids| && Offering(open, ids, i, accepted, rejected) && Told(past, ids, i, rejected)
      modifies this`db, this`steps, this`sent
      ensures old(steps) <= steps && past <= sent
      ensures if stop.Some? then Abandoned(open) && !stop.value.Settled? else Offering(open, ids, i + 1, n, failures)
      ensures stop.None? ==> Told(past, ids, i + 1, failures)
      ensures !faulty ==> stop.None?
    {
      n, failures, stop := accepted, rejected, None;
      WaitOthers(open, ids, i, n, failures);
      NotOfferedBefore(open, ids, i, n, failures);
      var taken := Publish(ids[i]);
      if taken {
        n := AcceptOne(open, ids, i, n, failures);
        return;
      }
      var broken := Fails();
      if broken {
        // The context was cancelled, or recording the rejection failed.
        Abandon(open, ids, i, n, failures);
        var cancelled: bool := *;
        stop := Some(if cancelled then Cancelled else Broken);
        return;
      }
      failures := RejectOne(open, ids, i, n, failures);
    }

    lemma NotOfferedBefore(open: State, ids: seq<MsgId>, i: nat, n: nat, failures: seq<MsgId>)
      requires i < |ids| && Offering(open, ids, i, n, failures)
      ensures ids[i] !in failures && forall j :: 0 <= j < i ==> ids[j] != ids[i]
    {
      Known(db, id);
    }

    method WaitOthers(ghost open: State, ghost ids: seq<MsgId>, ghost i: nat, ghost n: nat, ghost failures: seq<MsgId>)
      requires Offering(open, ids, i, n, failures)
      modifies this`db, this`steps
      ensures Offering(open, ids, i, n, failures) && old(steps) <= steps
    {
      Known(db, id);
      Others();
    }

    method AcceptOne(ghost open: State, ids: seq<MsgId>, i: nat, accepted: nat, ghost failures: seq<MsgId>) returns (n: nat)
      requires i < |ids| && Offering(open, ids, i, accepted, failures)
      modifies this`db, this`steps
      ensures n == accepted + 1 && Offering(open, ids, i + 1, n, failures) && old(steps) <= steps
    {
      Known(db, id);
      OfferAccepted(open.rows, db, id, open.clock, ids, i, accepted, failures);
      Step(Accept(id));
      n := accepted + 1;
    }

    method RejectOne(ghost open: State, ids: seq<MsgId>, i: nat, ghost n: nat, rejected: seq<MsgId>) returns (failures: seq<MsgId>)
      requires i < |ids| && Offering(open, ids, i, n, rejected)
      modifies this`db, this`steps
      ensures failures == rejected + [ids[i]] && Offering(open, ids, i + 1, n, failures) && old(steps) <= steps
    {
      Known(db, id);
      OfferRejected(open.rows, db, id, open.clock, ids, i, n, rejected);
      Step(Reject(id));
      failures := rejected + [ids[i]];
    }

    method CommitBatch(ghost open: State, limit: nat, ids: seq<MsgId>, ghost n: nat, ghost failures: seq<MsgId>)
      requires Offering(open, ids, |ids|, n, failures)
      requires alone ==> FirstDue(open.(batches := map[]), limit, ids)
      modifies this`db, this`steps
      ensures Idle() && old(steps) <= steps
      ensures BatchDone(open.rows, db.rows, open.clock, ids, n, failures)
      ensures !enqueuing ==> |Unpublished(db.rows)| + n <= |Unpublished(open.rows)|
      ensures alone ==>
                && db.enqueued == open.enqueued && db.clock == open.clock
                && BatchEffect(open.rows, db.rows, db.clock, n, failures)
                && (n + |failures| < limit ==> Exhausted(db, failures))
    {
      Others();
      Known(db, id);
      CommitSettlesOwn(open.rows, db, id, open.clock, ids, n, failures);
      if alone { CommitSettles(open, db, id, limit, ids, n, failures); }
      Step(Commit(id));
    }

    /** ProcessBatch: publishes one batch in one transaction. `open` is the state in which it
        was fetched, `ids` its rows. */
    method ProcessBatch() returns (n: nat, r: Outcome, ghost open: State, ghost ids: seq<MsgId>)
      requires Idle()
      modifies this`db, this`steps, this`sent
      ensures Idle() && old(steps) <= steps && old(sent) <= sent
      ensures r.Settled? ==> Told(old(sent), ids, |ids|, r.failures)
      ensures r.Settled? ==>
                && |ids| <= batchSize && (forall k :: k in ids ==> k in open.rows && Due(open.rows[k], open.clock))
                && BatchDone(open.rows, db.rows, open.clock, ids, n, r.failures)
      ensures !r.Settled? ==> n == 0
      ensures !enqueuing ==> |Unpublished(db.rows)| + n <= |Unpublished(old(db).rows)|
      ensures alone ==> db.enqueued == old(db).enqueued && db.clock >= old(db).clock
      ensures alone && !r.Settled? ==> db.rows == old(db).rows || (r.Broken? && CommitWasLost(old(db).rows, db))
      ensures alone && r.Settled? ==>
                && BatchEffect(old(db).rows, db.rows, db.clock, n, r.failures)
                && (n + |r.failures| < batchSize ==> Exhausted(db, r.failures))
      ensures !faulty && 0 <= batchSize ==> r.Settled?
    {
      open, ids := db, [];
      var broken := Fails();
      // PostgreSQL refuses a negative LIMIT.
      if broken || batchSize < 0 { n, r := 0, Broken; return; }
      var fetched := FetchBatch(batchSize);
      open, ids := db, fetched;
      var failures: seq<MsgId>;
      var stop: Option<Outcome>;
      n, failures, stop := OfferAll(open, fetched);
      if stop.Some? { n, r := 0, stop.value; return; }
      broken := Fails();
      if broken {
        Abandon(open, fetched, |fetched|, n, failures);
        n, r := 0, Broken;
        return;
      }
      CommitBatch(open, batchSize, fetched, n, failures);
      broken := Fails();
      if broken {
        // The connection broke after the commit, and nobody learns what it did.
        assert alone ==> CommitWasLost(old(db).rows, db);
        n, r := 0, Broken;
        return;
      }
      r := Settled(failures);
    }

    /** What the invariant says about this relay's open batch. */
    lemma Known(s: State, r: RelayId)
      requires s == db && Valid() && r in s.batches
      ensures Inv(s) && BatchOk(s, s.batches[r])
      ensures s.batches[r].at < |s.batches[r].fetched| ==>
                s.batches[r].fetched[s.batches[r].at] !in s.batches[r].accepted + s.batches[r].rejected
    {
      Outbox.InvReachable(now, steps);
    }

    /** drain: repeats only after a full batch was published without a rejection, so it ends
        for every batch size while nothing new is committed, whatever other relays do. When it
        is alone it counts exactly what was published, and when no statement fails and the
        batch size is positive, a drain that met no rejection leaves no due row behind. `sizes`
        are the numbers that the batches published. */
    method Drain() returns (total: nat, r: Outcome, ghost sizes: seq<nat>)
      requires Idle() && !enqueuing
      modifies this`db, this`steps, this`sent
      ensures Idle() && old(steps) <= steps && old(sent) <= sent
      ensures total == Sum(sizes) && forall i :: 0 <= i < |sizes| - 1 ==> sizes[i] == batchSize
      ensures |Unpublished(db.rows)| + total <= |Unpublished(old(db).rows)|
      ensures alone && !r.Broken? ==> |Unpublished(db.rows)| + total == |Unpublished(old(db).rows)|
      ensures alone && r == Settled([]) && 0 < batchSize ==> Exhausted(db, [])
      ensures batchSize <= 0 ==> total == 0
      ensures !faulty && 0 <= batchSize ==> r.Settled?
    {
      total, sizes := 0, [];
      while true
        invariant Idle() && old(steps) <= steps && old(sent) <= sent
        invariant total == Sum(sizes) && forall i :: 0 <= i < |sizes| ==> sizes[i] == batchSize
        invariant |Unpublished(db.rows)| + total <= |Unpublished(old(db).rows)|
        invariant alone ==> |Unpublished(db.rows)| + total == |Unpublished(old(db).rows)|
        invariant batchSize <= 0 ==> total == 0
        decreases |Unpublished(db.rows)|
      {
        var cancelled := Fails();
        if cancelled { return total, Cancelled, sizes; }
        var n: nat;
        ghost var open, ids;
        n, r, open, ids := ProcessBatch();
        total := total + n;
        assert (sizes + [n])[..|sizes|] == sizes;
        sizes := sizes + [n];
        if !r.Settled? || r.failures != [] { return; }
        if n == 0 || n < batchSize { return; }
      }
    }

    /** DeletePublishedOutboxBefore: at most `limit` rows, in no particular order. */
    method DeletePublishedBefore(before: nat, limit: nat) returns (n: nat)
      requires Valid()
      modifies this`db, this`steps
      ensures Valid() && old(steps) <= steps
      ensures db.rows.Keys <= old(db).rows.Keys
      ensures old(db).rows.Keys - db.rows.Keys <= Expired(old(db).rows, before)
      ensures forall k :: k in db.rows ==> db.rows[k] == old(db).rows[k]
      ensures n + |db.rows| == |old(db).rows|
      ensures n <= limit && (n < limit ==> Expired(db.rows, before) == {})
    {
      n := 0;
      while n < limit && Expired(db.rows, before) != {}
        invariant Valid() && old(steps) <= steps
        invariant db.rows.Keys <= old(db).rows.Keys
        invariant old(db).rows.Keys - db.rows.Keys <= Expired(old(db).rows, before)
        invariant forall k :: k in db.rows ==> db.rows[k] == old(db).rows[k]
        invariant n <= limit && n + |db.rows| == |old(db).rows|
      {
        var k :| k in Expired(db.rows, before);
        ghost var rows := db.rows;
        Step(Purge(k, before));
        assert db.rows.Keys == rows.Keys - {k};
        assert |rows.Keys| == |db.rows.Keys| + 1;
        n := n + 1;
      }
    }

    /** PurgePublished: removes exactly the published rows older than `before`, in bounded
        statements, and tells how many. */
    method PurgePublished(before: nat) returns (total: nat, ok: bool)
      requires Valid()
      modifies this`db, this`steps
      ensures Valid() && old(steps) <= steps
      ensures total + |db.rows| == |old(db).rows|
      ensures forall k :: k in old(db).rows && k !in db.rows ==> PublishedBefore(old(db).rows[k], before)
      ensures forall k :: k in db.rows ==> k in old(db).rows && db.rows[k] == old(db).rows[k]
      ensures ok ==> forall k :: k in db.rows ==> !PublishedBefore(db.rows[k], before)
      ensures ok ==> total == |set k | k in old(db).rows && PublishedBefore(old(db).rows[k], before)|
      ensures !faulty ==> ok
    {
      total := 0;
      while true
        invariant Valid() && old(steps) <= steps
        invariant total + |db.rows| == |old(db).rows|
        invariant db.rows.Keys <= old(db).rows.Keys
        invariant old(db).rows.Keys - db.rows.Keys <= Expired(old(db).rows, before)
        invariant forall k :: k in db.rows ==> db.rows[k] == old(db).rows[k]
        decreases |db.rows|
      {
        var broken := Fails();
        if broken {
          ok := false;
          forall k | k in old(db).rows && k !in db.rows ensures PublishedBefore(old(db).rows[k], before) {
            assert k in Expired(old(db).rows, before);
          }
          return;
        }
        ghost var rows := db.rows;
        var n := DeletePublishedBefore(before, PURGE_BATCH_SIZE);
        total := total + n;
        forall k | k in old(db).rows && k !in db.rows ensures k in Expired(old(db).rows, before) {
          if k in rows { assert k in Expired(rows, before); }
        }
        if n < PURGE_BATCH_SIZE {
          ok := true;
          forall k | k in Expired(old(db).rows, before) ensures k !in db.rows {
            assert k in db.rows ==> k in Expired(db.rows, before);
          }
          assert db.rows.Keys == old(db).rows.Keys - Expired(old(db).rows, before);
          assert Expired(old(db).rows, before) == set k | k in old(db).rows && PublishedBefore(old(db).rows[k], before);
          forall k | k in db.rows ensures !PublishedBefore(db.rows[k], before) {
            assert k !in Expired(db.rows, before);
          }
          SubsetSize(Expired(old(db).rows, before), old(db).rows.Keys);
          assert |db.rows.Keys| == |db.rows| && |old(db).rows.Keys| == |old(db).rows|;
          return;
        }
      }
    }
  }
}
