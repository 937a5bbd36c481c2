/** The outbox table and any number of relays on it (internal/outbox/outbox.go,
    internal/outbox/queries.sql). Times are whole seconds of one clock. */
module Outbox {
  import opened Options

  type MsgId = nat
  type RelayId = nat

  datatype Msg = Msg(attempts: nat, nextAttempt: nat, publishedAt: Option<nat>)

  function Power2(n: nat): nat {
    if n == 0 then 1 else 2 * Power2(n - 1)
  }

  function Min(a: nat, b: nat): nat {
    if a < b then a else b
  }

  /** How long a message waits after its k-th rejection. */
  function Backoff(k: nat): nat {
    Min(Power2(Min(k, 12)), 3600)
  }

  /** The waits double from two seconds to half an hour, never shrink, and stop at one hour. */
  lemma BackoffGrowsToAnHour(j: nat, k: nat)
    requires 1 <= j <= k
    ensures 2 <= Backoff(j) <= Backoff(k) <= 3600
    ensures k < 12 ==> Backoff(k) == Power2(k) && Backoff(k) <= 2048
    ensures k >= 12 ==> Backoff(k) == 3600
  {
    PowerGrows(1, Min(j, 12));
    PowerGrows(Min(j, 12), Min(k, 12));
    PowerGrows(Min(k, 12), 12);
    if k < 12 { PowerGrows(k, 11); }
    assert Power2(4) == 16 && Power2(8) == 256 && Power2(11) == 2048 && Power2(12) == 4096;
  }

  lemma {:induction false} PowerGrows(a: nat, b: nat)
    requires a <= b
    ensures Power2(a) <= Power2(b)
  {
    if a < b { PowerGrows(a, b - 1); }
  }

  /** One transaction of one relay. `fetched[..at]` have been offered to the publisher. */
  datatype Batch = Batch(start: nat, fetched: seq<MsgId>, at: nat, accepted: set<MsgId>, rejected: set<MsgId>)

  /** Beside the table: who holds which rows, how often each message was accepted by the
      publisher, how often a batch holding it was rolled back, and what was ever committed. */
  datatype State = State(
    clock: nat,
    rows: map<MsgId, Msg>,
    batches: map<RelayId, Batch>,
    accepted: map<MsgId, nat>,
    cut: map<MsgId, nat>,
    enqueued: set<MsgId>,
    published: set<MsgId>)

  datatype Event =
    | Tick(now: nat)
    | Enqueue(id: MsgId)
    | Fetch(relay: RelayId, limit: nat, ids: seq<MsgId>)
    | Accept(relay: RelayId)
    | Reject(relay: RelayId)
    | RollBack(relay: RelayId)
    | Commit(relay: RelayId)
    | Purge(id: MsgId, before: nat)

  function Count(m: map<MsgId, nat>, id: MsgId): nat {
    if id in m then m[id] else 0
  }

  function Elements(ids: seq<MsgId>): (r: set<MsgId>)
    ensures forall k :: k in r <==> k in ids
  {
    if ids == [] then {} else
      assert ids == ids[..|ids| - 1] + [ids[|ids| - 1]];
      Elements(ids[..|ids| - 1]) + {ids[|ids| - 1]}
  }

  predicate Locked(s: State, id: MsgId) {
    exists r :: r in s.batches && id in s.batches[r].fetched
  }

  /** published_at IS NULL AND next_attempt_at <= now(), and not skipped as locked. */
  predicate Eligible(s: State, id: MsgId) {
    id in s.rows && s.rows[id].publishedAt.None? && s.rows[id].nextAttempt <= s.clock && !Locked(s, id)
  }

  predicate Ascending(ids: seq<MsgId>) {
    forall i, j :: 0 <= i < j < |ids| ==> ids[i] < ids[j]
  }

  /** Eligible rows in id order. A statement that races with others may skip some. */
  predicate SomeEligible(s: State, limit: nat, ids: seq<MsgId>) {
    |ids| <= limit && Ascending(ids) && forall id :: id in ids ==> Eligible(s, id)
  }

  predicate Enabled(s: State, e: Event) {
    match e
    case Tick(now) => s.clock <= now
    case Enqueue(id) => id !in s.enqueued
    case Fetch(r, limit, ids) => r !in s.batches && SomeEligible(s, limit, ids)
    case Accept(r) => r in s.batches && s.batches[r].at < |s.batches[r].fetched|
    case Reject(r) => r in s.batches && s.batches[r].at < |s.batches[r].fetched|
    case RollBack(r) => r in s.batches
    case Commit(r) => r in s.batches && s.batches[r].at == |s.batches[r].fetched|
    case Purge(id, before) => id in s.rows && s.rows[id].publishedAt.Some? && s.rows[id].publishedAt.value < before
  }

  /** What a committed batch writes to one of its rows. */
  function Settle(b: Batch, id: MsgId, m: Msg): Msg {
    if id in b.accepted then m.(publishedAt := Some(b.start))
    else if id in b.rejected then m.(attempts := m.attempts + 1, nextAttempt := b.start + Backoff(m.attempts + 1))
    else m
  }

  function Apply(s: State, e: Event): State
    requires Enabled(s, e)
  {
    match e
    case Tick(now) => s.(clock := now)
    case Enqueue(id) => s.(rows := s.rows[id := Msg(0, s.clock, None)], enqueued := s.enqueued + {id})
    case Fetch(r, _, ids) => s.(batches := s.batches[r := Batch(s.clock, ids, 0, {}, {})])
    case Accept(r) =>
      var b := s.batches[r];
      var id := b.fetched[b.at];
      s.(batches := s.batches[r := b.(at := b.at + 1, accepted := b.accepted + {id})],
         accepted := s.accepted[id := Count(s.accepted, id) + 1])
    case Reject(r) =>
      var b := s.batches[r];
      s.(batches := s.batches[r := b.(at := b.at + 1, rejected := b.rejected + {b.fetched[b.at]})])
    case RollBack(r) =>
      var b := s.batches[r];
      s.(batches := s.batches - {r},
         cut := map id | id in s.cut.Keys + Elements(b.fetched) ::
           Count(s.cut, id) + (if id in b.fetched then 1 else 0))
    case Commit(r) =>
      var b := s.batches[r];
      s.(batches := s.batches - {r},
         rows := map id | id in s.rows :: Settle(b, id, s.rows[id]),
         published := s.published + b.accepted)
    case Purge(id, _) => s.(rows := s.rows - {id})
  }

  predicate IsRun(s: State, events: seq<Event>)
    decreases |events|
  {
    events == [] || (Enabled(s, events[0]) && IsRun(Apply(s, events[0]), events[1..]))
  }

  function Run(s: State, events: seq<Event>): State
    requires IsRun(s, events)
    decreases |events|
  {
    if events == [] then s else Run(Apply(s, events[0]), events[1..])
  }

  lemma {:induction false} RunAppend(s: State, events: seq<Event>, e: Event)
    requires IsRun(s, events) && Enabled(Run(s, events), e)
    ensures IsRun(s, events + [e]) && Run(s, events + [e]) == Apply(Run(s, events), e)
    decreases |events|
  {
    if events == [] {
      assert ([] + [e])[1..] == [];
      assert Run(Apply(s, e), []) == Apply(s, e);
      assert events + [e] == [e];
    } else {
      assert (events + [e])[1..] == events[1..] + [e];
      RunAppend(Apply(s, events[0]), events[1..], e);
    }
  }

  function Initial(now: nat): State {
    State(now, map[], map[], map[], map[], {}, {})
  }

  // ---------------------------------------------------------------- invariant

  /** An open batch holds unpublished rows, each once, and knows what became of each. */
  ghost predicate BatchOk(s: State, b: Batch) {
    && b.at <= |b.fetched| && Ascending(b.fetched)
    && (forall id :: id in b.fetched ==> id in s.rows && s.rows[id].publishedAt.None?)
    && (forall i :: 0 <= i < |b.fetched| ==> (b.fetched[i] in b.accepted + b.rejected <==> i < b.at))
    && (forall id :: id in b.accepted + b.rejected ==> id in b.fetched)
    && b.accepted !! b.rejected
  }

  /** Some open batch has had this message accepted. */
  ghost predicate InFlight(s: State, id: MsgId) {
    exists r :: r in s.batches && id in s.batches[r].accepted
  }

  /** Acceptances are paid for by the publication, an open batch, or a rolled-back one. */
  ghost predicate Bounded(s: State, id: MsgId) {
    Count(s.accepted, id) <= Count(s.cut, id) + (if id in s.published || InFlight(s, id) then 1 else 0)
  }

  ghost predicate MsgOk(s: State, id: MsgId) {
    && (id in s.rows ==> id in s.enqueued && (s.rows[id].publishedAt.Some? <==> id in s.published))
    && (id in s.published || InFlight(s, id) ==> Count(s.accepted, id) >= 1)
    && (id in s.enqueued && id !in s.rows ==> id in s.published)
    && (id in s.published ==> id in s.enqueued)
  }

  ghost predicate Inv(s: State) {
    && (forall r :: r in s.batches ==> BatchOk(s, s.batches[r]))
    && (forall r, q, id :: r in s.batches && q in s.batches && r != q && id in s.batches[r].fetched ==>
          id !in s.batches[q].fetched)
    && (forall id :: Bounded(s, id))
    && (forall id :: MsgOk(s, id))
  }

  lemma InvTableEvents(s: State, e: Event)
    requires Inv(s) && Enabled(s, e)
    requires e.Tick? || e.Enqueue? || e.Purge?
    ensures Inv(Apply(s, e))
  {
    var t := Apply(s, e);
    forall r | r in t.batches ensures BatchOk(t, t.batches[r]) { assert BatchOk(s, s.batches[r]); }
    forall id ensures Bounded(t, id) && MsgOk(t, id) {
      assert Bounded(s, id) && MsgOk(s, id);
      assert InFlight(t, id) <==> InFlight(s, id);
    }
  }

  lemma InvFetch(s: State, e: Event)
    requires Inv(s) && Enabled(s, e) && e.Fetch?
    ensures Inv(Apply(s, e))
  {
    var t := Apply(s, e);
    forall id | id in e.ids ensures id in s.rows && s.rows[id].publishedAt.None? { assert Eligible(s, id); }
    forall r | r in t.batches ensures BatchOk(t, t.batches[r]) {
      if r != e.relay { assert BatchOk(s, s.batches[r]); }
    }
    forall id ensures Bounded(t, id) && MsgOk(t, id) {
      assert Bounded(s, id) && MsgOk(s, id);
      SameFlights(s, t, e.relay, id);
    }
    forall id, q | id in e.ids && q in s.batches ensures id !in s.batches[q].fetched { assert Eligible(s, id); }
  }

  /** A relay whose batch has accepted nothing new does not change what is in flight. */
  lemma SameFlights(s: State, t: State, r: RelayId, id: MsgId)
    requires forall q :: q != r ==> (q in s.batches <==> q in t.batches)
    requires forall q :: q != r && q in s.batches ==> s.batches[q] == t.batches[q]
    requires (r in s.batches && id in s.batches[r].accepted) <==> (r in t.batches && id in t.batches[r].accepted)
    ensures InFlight(s, id) <==> InFlight(t, id)
  {
    if InFlight(s, id) {
      var q :| q in s.batches && id in s.batches[q].accepted;
      assert q in t.batches && id in t.batches[q].accepted;
    }
    if InFlight(t, id) {
      var q :| q in t.batches && id in t.batches[q].accepted;
      assert q in s.batches && id in s.batches[q].accepted;
    }
  }

  lemma InvOffer(s: State, e: Event)
    requires Inv(s) && Enabled(s, e)
    requires e.Accept? || e.Reject?
    ensures Inv(Apply(s, e))
  {
    var t := Apply(s, e);
    var b := s.batches[e.relay];
    assert BatchOk(s, b);
    assert BatchOk(t, t.batches[e.relay]);
    forall r | r in t.batches && r != e.relay ensures BatchOk(t, t.batches[r]) { assert BatchOk(s, s.batches[r]); }
    forall id ensures Bounded(t, id) && MsgOk(t, id) { OfferedMessage(s, e, id); }
  }

  lemma OfferedMessage(s: State, e: Event, id: MsgId)
    requires Inv(s) && Enabled(s, e)
    requires e.Accept? || e.Reject?
    ensures Bounded(Apply(s, e), id) && MsgOk(Apply(s, e), id)
  {
    var t := Apply(s, e);
    var b := s.batches[e.relay];
    assert Bounded(s, id) && MsgOk(s, id);
    if e.Accept? && id == b.fetched[b.at] {
      NotYetInFlight(s, e.relay);
      assert id in t.batches[e.relay].accepted && InFlight(t, id);
    } else {
      SameFlights(s, t, e.relay, id);
    }
  }

  /** The message a batch offers next is neither published nor accepted in any open batch. */
  lemma NotYetInFlight(s: State, r: RelayId)
    requires Inv(s) && Enabled(s, Accept(r))
    ensures
      var id := s.batches[r].fetched[s.batches[r].at];
      id !in s.published && !InFlight(s, id)
  {
    var id := s.batches[r].fetched[s.batches[r].at];
    assert BatchOk(s, s.batches[r]) && MsgOk(s, id);
    forall q | q in s.batches ensures id !in s.batches[q].accepted {
      assert BatchOk(s, s.batches[q]);
    }
  }

  lemma InvRollBack(s: State, r: RelayId)
    requires Inv(s) && Enabled(s, RollBack(r))
    ensures Inv(Apply(s, RollBack(r)))
  {
    var t := Apply(s, RollBack(r));
    var b := s.batches[r];
    assert BatchOk(s, b);
    forall q | q in t.batches ensures BatchOk(t, t.batches[q]) { assert BatchOk(s, s.batches[q]); }
    forall id ensures Bounded(t, id) && MsgOk(t, id) {
      assert Bounded(s, id) && MsgOk(s, id);
      assert Count(t.cut, id) == Count(s.cut, id) + (if id in b.fetched then 1 else 0);
      if id !in b.accepted {
        SameFlights(s, t, r, id);
      }
      assert InFlight(t, id) ==> InFlight(s, id);
    }
  }

  lemma InvCommit(s: State, r: RelayId)
    requires Inv(s) && Enabled(s, Commit(r))
    ensures Inv(Apply(s, Commit(r)))
  {
    var t := Apply(s, Commit(r));
    var b := s.batches[r];
    assert BatchOk(s, b);
    forall q | q in t.batches ensures BatchOk(t, t.batches[q]) {
      assert BatchOk(s, s.batches[q]);
    }
    forall id ensures Bounded(t, id) && MsgOk(t, id) {
      assert Bounded(s, id) && MsgOk(s, id);
      if id in b.accepted {
        assert r in s.batches && InFlight(s, id);
        assert id in b.fetched && MsgOk(s, id);
      } else {
        SameFlights(s, t, r, id);
      }
    }
  }

  lemma InvStep(s: State, e: Event)
    requires Inv(s) && Enabled(s, e)
    ensures Inv(Apply(s, e))
  {
    match e
    case Fetch(_, _, _) => InvFetch(s, e);
    case Accept(_) => InvOffer(s, e);
    case Reject(_) => InvOffer(s, e);
    case RollBack(r) => InvRollBack(s, r);
    case Commit(r) => InvCommit(s, r);
    case _ => InvTableEvents(s, e);
  }

  lemma {:induction false} InvRun(s: State, events: seq<Event>)
    requires Inv(s) && IsRun(s, events)
    ensures Inv(Run(s, events))
    decreases |events|
  {
    if events != [] {
      InvStep(s, events[0]);
      InvRun(Apply(s, events[0]), events[1..]);
    }
  }

  lemma InvReachable(now: nat, events: seq<Event>)
    requires IsRun(Initial(now), events)
    ensures Inv(Run(Initial(now), events))
  {
    InvRun(Initial(now), events);
  }

  // ---------------------------------------------------------------- what subscribers rely on

  /** At least once: a row marked published was accepted by the publisher, and every event
      ever committed is still there unpublished or has been accepted. */
  lemma NothingIsLost(now: nat, events: seq<Event>, id: MsgId)
    requires IsRun(Initial(now), events)
    ensures
      var s := Run(Initial(now), events);
      && (id in s.rows && s.rows[id].publishedAt.Some? ==> id in s.accepted && s.accepted[id] >= 1)
      && (id in s.enqueued ==> (id in s.rows && s.rows[id].publishedAt.None?) || (id in s.accepted && s.accepted[id] >= 1))
  {
    InvReachable(now, events);
    assert MsgOk(Run(Initial(now), events), id);
  }

  /** Duplicates are paid for: two open batches never hold one message, and a message is
      accepted at most once more than batches holding it were rolled back. */
  lemma DuplicatesNeedRollbacks(now: nat, events: seq<Event>, id: MsgId, r: RelayId, q: RelayId)
    requires IsRun(Initial(now), events)
    ensures
      var s := Run(Initial(now), events);
      && (id in s.accepted ==> s.accepted[id] <= 1 + (if id in s.cut then s.cut[id] else 0))
      && (r in s.batches && q in s.batches && id in s.batches[r].fetched && id in s.batches[q].fetched ==> r == q)
  {
    InvReachable(now, events);
    assert Bounded(Run(Initial(now), events), id);
  }

  /** Purging takes published rows only, and only old ones, so it can never drop an event. */
  lemma PurgeDropsOnlyPublished(now: nat, events: seq<Event>, id: MsgId, before: nat)
    requires IsRun(Initial(now), events)
    requires Enabled(Run(Initial(now), events), Purge(id, before))
    ensures
      var s := Run(Initial(now), events);
      && s.rows[id].publishedAt.Some? && s.rows[id].publishedAt.value < before
      && id in s.published && id in s.accepted && s.accepted[id] >= 1
      && Apply(s, Purge(id, before)).rows == s.rows - {id}
  {
    InvReachable(now, events);
    assert MsgOk(Run(Initial(now), events), id);
  }

  /** A committed batch accounts for every row it fetched: each is either marked or backed
      off with one more attempt, and no other row changes. */
  lemma CommittedBatchAccounts(now: nat, events: seq<Event>, r: RelayId)
    requires IsRun(Initial(now), events)
    requires Enabled(Run(Initial(now), events), Commit(r))
    ensures
      var s := Run(Initial(now), events);
      var t := Apply(s, Commit(r));
      var b := s.batches[r];
      && |b.fetched| == |b.accepted| + |b.rejected|
      && t.rows.Keys == s.rows.Keys
      && forall id :: id in s.rows ==>
           t.rows[id] ==
             if id in b.accepted then s.rows[id].(publishedAt := Some(b.start))
             else if id in b.fetched then
               s.rows[id].(attempts := s.rows[id].attempts + 1, nextAttempt := b.start + Backoff(s.rows[id].attempts + 1))
             else s.rows[id]
  {
    InvReachable(now, events);
    var s := Run(Initial(now), events);
    AllSettled(s, s.batches[r]);
  }

  lemma AllSettled(s: State, b: Batch)
    requires BatchOk(s, b) && b.at == |b.fetched|
    ensures forall id :: id in b.fetched <==> id in b.accepted || id in b.rejected
    ensures |b.fetched| == |b.accepted| + |b.rejected|
  {
    forall id | id in b.fetched ensures id in b.accepted + b.rejected {
      var i :| 0 <= i < |b.fetched| && b.fetched[i] == id;
    }
    assert Elements(b.fetched) == b.accepted + b.rejected;
    DistinctCount(b.fetched);
  }

  lemma {:induction false} DistinctCount(ids: seq<MsgId>)
    requires Ascending(ids)
    ensures |Elements(ids)| == |ids|
  {
    if ids != [] {
      DistinctCount(ids[..|ids| - 1]);
    }
  }
}
