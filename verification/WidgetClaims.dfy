/** What the idempotency keys promise over whole runs of the store
    (internal/modules/widget/idempotent.go, internal/idempotency/queries.sql). */
module WidgetClaims {
  import opened Options
  import opened Idempotency
  import opened WidgetHistory
  import opened WidgetDatabase

  function ClaimsOf(claims: seq<Claim>, key: string): nat {
    if claims == [] then 0 else
      ClaimsOf(claims[..|claims| - 1], key) + (if StoredKey(claims[|claims| - 1].request) == key then 1 else 0)
  }

  /** A stored row is the record of one committed claim of its key. */
  ghost predicate RowRecordsClaim(s: State, key: string)
    requires key in s.keys
  {
    var row := s.keys[key];
    && row.claim < |s.claims|
    && var c := s.claims[row.claim];
      StoredKey(c.request) == key && Fingerprint(c.request) == row.fingerprint
      && c.body == row.body && c.expires == row.expires
  }

  /** A claim's row is still there, or the claim has run out. */
  ghost predicate Retained(s: State, i: nat)
    requires i < |s.claims|
  {
    var c := s.claims[i];
    var key := StoredKey(c.request);
    c.expires <= s.clock || (key in s.keys && s.keys[key].claim == i)
  }

  ghost predicate TxClaims(s: State, t: Tx) {
    && t.start <= s.clock
    && (Working(t.phase) && t.op.CreateOnce? ==> t.phase.kind.Created?)
    && (t.phase.Claimed? ==>
          && t.op.CreateOnce?
          && t.start <= t.phase.from <= s.clock
          && forall i :: 0 <= i < |s.claims| && StoredKey(s.claims[i].request) == StoredKey(t.op.request) ==>
               s.claims[i].expires <= t.phase.from)
    && (t.phase.Committed? && t.phase.claim.Some? ==>
          && t.op.CreateOnce? && t.phase.kind.Created?
          && t.phase.claim.value < |s.claims|
          && s.claims[t.phase.claim.value].request == t.op.request
          && s.claims[t.phase.claim.value].body == Body(t.phase.id, t.phase.kind.row))
  }

  ghost predicate TruthfulReply(s: State, r: Reply) {
    r.answer.Sent? ==>
      && r.answer.claim < |s.claims|
      && var c := s.claims[r.answer.claim];
        c.body == r.answer.body && StoredKey(c.request) == StoredKey(r.request)
        && Fingerprint(c.request) == Fingerprint(r.request)
  }

  ghost predicate InvKeys(s: State) {
    && (forall key :: key in s.keys ==> RowRecordsClaim(s, key))
    && (forall i :: 0 <= i < |s.claims| ==> Retained(s, i))
    && (forall i, j :: 0 <= i < j < |s.claims| && StoredKey(s.claims[i].request) == StoredKey(s.claims[j].request) ==>
          s.claims[i].expires <= s.claims[j].from)
  }

  ghost predicate InvTxs(s: State) {
    && (forall t :: t in s.txs ==> TxClaims(s, s.txs[t]))
    && (forall t, u :: t in s.txs && u in s.txs && t != u && s.txs[t].phase.Claimed? && s.txs[t].op.CreateOnce? ==>
          !ClaimsKey(s.txs[u], StoredKey(s.txs[t].op.request)))
  }

  ghost predicate InvClaims(s: State) {
    && InvRows(s)
    && InvKeys(s)
    && InvTxs(s)
    && (forall i :: 0 <= i < |s.replies| ==> TruthfulReply(s, s.replies[i]))
    && (forall key :: CreatedVia(s.log, key, s.nextEvent) == ClaimsOf(s.claims, key))
  }

  /** Time passing, and changes elsewhere, keep what is said about keys and replies. */
  lemma KeysFrame(s: State, t: State)
    requires InvKeys(s) && forall i :: 0 <= i < |s.replies| ==> TruthfulReply(s, s.replies[i])
    requires t.keys == s.keys && t.claims == s.claims && t.replies == s.replies && s.clock <= t.clock
    ensures InvKeys(t) && forall i :: 0 <= i < |t.replies| ==> TruthfulReply(t, t.replies[i])
  {
    forall key | key in t.keys ensures RowRecordsClaim(t, key) { assert RowRecordsClaim(s, key); }
    forall i | 0 <= i < |t.claims| ensures Retained(t, i) { assert Retained(s, i); }
    forall i | 0 <= i < |t.replies| ensures TruthfulReply(t, t.replies[i]) { assert TruthfulReply(s, s.replies[i]); }
  }

  /** All earlier claims of a key that is absent or expired for a transaction have run out. */
  lemma NoLiveClaim(s: State, tx: Tx, key: string, i: nat)
    requires InvKeys(s) && tx.start <= s.clock
    requires key in s.keys ==> s.keys[key].expires <= tx.start
    requires i < |s.claims| && StoredKey(s.claims[i].request) == key
    ensures s.claims[i].expires <= s.clock
  {
    assert Retained(s, i);
    if key in s.keys { assert RowRecordsClaim(s, key); }
  }

  lemma TxFrame(s: State, t: State, x: Tx)
    requires TxClaims(s, x) && t.claims == s.claims && s.clock <= t.clock
    ensures TxClaims(t, x)
  {
  }

  lemma PutTxs(s: State, tx: TxId, expires: nat)
    requires InvKeys(s) && InvTxs(s) && Enabled(s, PutKey(tx, expires))
    ensures InvTxs(Apply(s, PutKey(tx, expires)))
  {
    var t := Apply(s, PutKey(tx, expires));
    var key := StoredKey(s.txs[tx].op.request);
    assert TxClaims(s, s.txs[tx]);
    if t.txs[tx].phase.Claimed? {
      forall i | 0 <= i < |s.claims| && StoredKey(s.claims[i].request) == key ensures s.claims[i].expires <= s.clock {
        NoLiveClaim(s, s.txs[tx], key, i);
      }
    }
    assert TxClaims(t, t.txs[tx]);
    forall u | u in t.txs && u != tx ensures t.txs[u] == s.txs[u] && TxClaims(t, t.txs[u]) {
      TxFrame(s, t, s.txs[u]);
    }
  }

  lemma ClaimsPut(s: State, tx: TxId, expires: nat)
    requires InvClaims(s) && Enabled(s, PutKey(tx, expires))
    ensures InvClaims(Apply(s, PutKey(tx, expires)))
  {
    RowsStep(s, PutKey(tx, expires));
    KeysFrame(s, Apply(s, PutKey(tx, expires)));
    PutTxs(s, tx, expires);
  }

  /** A commit with a claim extends the log and the claims together. */
  lemma CommitCounts(s: State, tx: TxId, key: string)
    requires InvClaims(s) && Enabled(s, Commit(tx))
    ensures
      var t := Apply(s, Commit(tx));
      CreatedVia(t.log, key, t.nextEvent) == ClaimsOf(t.claims, key)
  {
    var t := Apply(s, Commit(tx));
    var p := s.txs[tx].phase;
    assert TxRows(s, p) && TxClaims(s, s.txs[tx]);
    AppendCreatedVia(s.log, p.number, Entry(p.id, p.kind, Via(s.txs[tx].op)), key, s.nextEvent);
    if p.Claimed? {
      assert t.claims[..|s.claims|] == s.claims;
    }
  }

  lemma CommitKeys(s: State, tx: TxId)
    requires InvClaims(s) && Enabled(s, Commit(tx))
    ensures InvKeys(Apply(s, Commit(tx)))
  {
    var t := Apply(s, Commit(tx));
    assert TxClaims(s, s.txs[tx]);
    if t.claims != s.claims {
      KeysPush(s, t, t.claims[|s.claims|]);
    } else {
      KeysFrame(s, t);
    }
  }

  /** One more claim, of a key whose earlier claims have run out. */
  lemma KeysPush(s: State, t: State, c: Claim)
    requires InvKeys(s) && t.claims == s.claims + [c] && t.clock == s.clock && c.from <= s.clock
    requires t.keys == s.keys[StoredKey(c.request) := KeyRow(Fingerprint(c.request), c.body, c.expires, |s.claims|)]
    requires forall i :: 0 <= i < |s.claims| && StoredKey(s.claims[i].request) == StoredKey(c.request) ==>
      s.claims[i].expires <= c.from
    ensures InvKeys(t)
  {
    forall key | key in t.keys ensures RowRecordsClaim(t, key) {
      if key != StoredKey(c.request) { assert RowRecordsClaim(s, key); }
    }
    forall i | 0 <= i < |t.claims| ensures Retained(t, i) {
      if i < |s.claims| { assert Retained(s, i); }
    }
  }

  lemma {:induction false} CommitTxs(s: State, tx: TxId)
    requires InvClaims(s) && Enabled(s, Commit(tx))
    ensures InvTxs(Apply(s, Commit(tx)))
  {
    var t := Apply(s, Commit(tx));
    assert TxClaims(s, s.txs[tx]);
    CommitEndsOne(s, tx);
    CommitTxClaims(s, tx);
    forall u | u in t.txs && u != tx ensures TxClaims(t, t.txs[u]) {
      OtherTxClaims(s, tx, u);
    }
    ClaimantsStayApart(s, t, tx);
  }

  lemma CommitTxClaims(s: State, tx: TxId)
    requires Enabled(s, Commit(tx)) && TxClaims(s, s.txs[tx])
    ensures TxClaims(Apply(s, Commit(tx)), Apply(s, Commit(tx)).txs[tx])
  {
  }

  lemma ClaimantsStayApart(s: State, t: State, tx: TxId)
    requires InvTxs(s) && tx in t.txs && t.txs.Keys == s.txs.Keys && !Working(t.txs[tx].phase)
    requires forall u :: u in s.txs && u != tx ==> t.txs[u] == s.txs[u]
    ensures forall u, v :: u in t.txs && v in t.txs && u != v && t.txs[u].phase.Claimed? && t.txs[u].op.CreateOnce? ==>
      !ClaimsKey(t.txs[v], StoredKey(t.txs[u].op.request))
  {
  }

  /** The commit of one claim says nothing about transactions on other keys. */
  lemma OtherTxClaims(s: State, tx: TxId, u: TxId)
    requires Enabled(s, Commit(tx)) && u in s.txs && u != tx && TxClaims(s, s.txs[u])
    requires s.txs[tx].phase.Claimed? && s.txs[tx].op.CreateOnce? ==> !ClaimsKey(s.txs[u], StoredKey(s.txs[tx].op.request))
    ensures TxClaims(Apply(s, Commit(tx)), s.txs[u])
  {
  }

  lemma ClaimsCommit(s: State, tx: TxId)
    requires InvClaims(s) && Enabled(s, Commit(tx))
    ensures InvClaims(Apply(s, Commit(tx)))
  {
    RowsStep(s, Commit(tx));
    CommitKeys(s, tx);
    CommitTxs(s, tx);
    var t := Apply(s, Commit(tx));
    forall key ensures CreatedVia(t.log, key, t.nextEvent) == ClaimsOf(t.claims, key) {
      CommitCounts(s, tx, key);
    }
    forall i | 0 <= i < |t.replies| ensures TruthfulReply(t, t.replies[i]) { assert TruthfulReply(s, s.replies[i]); }
  }

  lemma ClaimsAnswer(s: State, e: Event)
    requires InvClaims(s) && Enabled(s, e)
    requires e.AnswerCreated? || e.AnswerStored?
    ensures InvClaims(Apply(s, e))
  {
    RowsStep(s, e);
    var t := Apply(s, e);
    forall i | 0 <= i < |t.replies| ensures TruthfulReply(t, t.replies[i]) {
      if i < |s.replies| {
        assert TruthfulReply(s, s.replies[i]);
      } else if e.AnswerCreated? {
        assert TxClaims(s, s.txs[e.tx]);
      } else if StoredKey(e.request) in s.keys {
        assert RowRecordsClaim(s, StoredKey(e.request));
      }
    }
    forall u | u in t.txs ensures TxClaims(t, t.txs[u]) { assert TxClaims(s, s.txs[u]); }
    forall key | key in t.keys ensures RowRecordsClaim(t, key) { assert RowRecordsClaim(s, key); }
    forall i | 0 <= i < |t.claims| ensures Retained(t, i) { assert Retained(s, i); }
  }

  lemma ClaimsPurge(s: State, key: string)
    requires InvClaims(s) && Enabled(s, Purge(key))
    ensures InvClaims(Apply(s, Purge(key)))
  {
    RowsStep(s, Purge(key));
    var t := Apply(s, Purge(key));
    forall k | k in t.keys ensures RowRecordsClaim(t, k) { assert RowRecordsClaim(s, k); }
    assert RowRecordsClaim(s, key);
    forall i | 0 <= i < |t.claims| ensures Retained(t, i) { assert Retained(s, i); }
    forall u | u in t.txs ensures TxClaims(t, t.txs[u]) { assert TxClaims(s, s.txs[u]); }
    forall i | 0 <= i < |t.replies| ensures TruthfulReply(t, t.replies[i]) { assert TruthfulReply(s, s.replies[i]); }
  }

  lemma ClaimsOther(s: State, e: Event)
    requires InvClaims(s) && Enabled(s, e)
    requires !e.PutKey? && !e.Commit? && !e.AnswerCreated? && !e.AnswerStored? && !e.Purge?
    ensures InvClaims(Apply(s, e))
  {
    RowsStep(s, e);
    OtherFrame(s, e);
    var t := Apply(s, e);
    KeysFrame(s, t);
    forall key ensures CreatedVia(t.log, key, t.nextEvent) == ClaimsOf(t.claims, key) {
      assert CreatedVia(s.log, key, s.nextEvent) == ClaimsOf(s.claims, key);
    }
    OtherTxs(s, e);
  }

  /** Such an event leaves keys, claims, replies and the log alone. */
  lemma OtherFrame(s: State, e: Event)
    requires Enabled(s, e) && (forall n :: n in s.log ==> n < s.nextEvent)
    requires !e.PutKey? && !e.Commit? && !e.AnswerCreated? && !e.AnswerStored? && !e.Purge?
    ensures
      var t := Apply(s, e);
      && t.keys == s.keys && t.claims == s.claims && t.replies == s.replies && t.log == s.log && s.clock <= t.clock
      && (t.nextEvent == s.nextEvent || (t.nextEvent == s.nextEvent + 1 && s.nextEvent !in s.log))
  {
  }

  lemma {:induction false} OtherTxs(s: State, e: Event)
    requires InvTxs(s) && Enabled(s, e)
    requires !e.PutKey? && !e.Commit? && !e.AnswerCreated? && !e.AnswerStored? && !e.Purge?
    ensures InvTxs(Apply(s, e))
  {
    var t := Apply(s, e);
    forall u | u in t.txs ensures TxClaims(t, t.txs[u]) {
      if u in s.txs { assert TxClaims(s, s.txs[u]); }
    }
    OtherClaimants(s, e);
  }

  lemma OtherClaimants(s: State, e: Event)
    requires Enabled(s, e) && !e.PutKey?
    ensures forall u :: u in Apply(s, e).txs && Apply(s, e).txs[u].phase.Claimed? ==> u in s.txs && Apply(s, e).txs[u] == s.txs[u]
  {
  }

  lemma ClaimsStep(s: State, e: Event)
    requires InvClaims(s) && Enabled(s, e)
    ensures InvClaims(Apply(s, e))
  {
    match e
    case PutKey(tx, expires) => ClaimsPut(s, tx, expires);
    case Commit(tx) => ClaimsCommit(s, tx);
    case AnswerCreated(_) => ClaimsAnswer(s, e);
    case AnswerStored(_) => ClaimsAnswer(s, e);
    case Purge(key) => ClaimsPurge(s, key);
    case _ => ClaimsOther(s, e);
  }

  lemma {:induction false} ClaimsRun(s: State, events: seq<Event>)
    requires InvClaims(s) && IsRun(s, events)
    ensures InvClaims(Run(s, events))
    decreases |events|
  {
    if events != [] {
      ClaimsStep(s, events[0]);
      ClaimsRun(Apply(s, events[0]), events[1..]);
    }
  }

  lemma InvReachable(now: nat, events: seq<Event>)
    requires IsRun(Initial(now), events)
    ensures InvClaims(Run(Initial(now), events))
  {
    InitialRows(now);
    ClaimsRun(Initial(now), events);
  }

  // ---------------------------------------------------------------- what callers rely on

  /** As many widgets are committed through a key as there are committed claims of it, and
      each claim was made at a time when all earlier ones had run out. */
  lemma OneCreatePerClaim(now: nat, events: seq<Event>, key: string)
    requires IsRun(Initial(now), events)
    ensures
      var s := Run(Initial(now), events);
      && CreatedVia(s.log, key, s.nextEvent) == ClaimsOf(s.claims, key)
      && forall i, j :: 0 <= i < j < |s.claims| && StoredKey(s.claims[i].request) == key == StoredKey(s.claims[j].request) ==>
           s.claims[i].expires <= s.claims[j].from
  {
    InvReachable(now, events);
  }

  /** While a claim is live, no other create through its key can commit: nobody holds the key,
      and whoever asks for it is refused. */
  lemma LiveClaimShutsOut(now: nat, events: seq<Event>, i: nat, tx: TxId, expires: nat)
    requires IsRun(Initial(now), events)
    requires
      var s := Run(Initial(now), events);
      && i < |s.claims| && s.clock < s.claims[i].expires
      && tx in s.txs && s.txs[tx].op.CreateOnce?
      && StoredKey(s.txs[tx].op.request) == StoredKey(s.claims[i].request)
    ensures
      var s := Run(Initial(now), events);
      && !Enabled(s, Commit(tx))
      && (Enabled(s, PutKey(tx, expires)) ==> Apply(s, PutKey(tx, expires)).txs[tx].phase == Reserved)
  {
    InvReachable(now, events);
    var s := Run(Initial(now), events);
    assert Retained(s, i) && TxClaims(s, s.txs[tx]);
    assert RowRecordsClaim(s, StoredKey(s.claims[i].request));
  }

  /** A claim of this very subject and key that has not run out. */
  predicate LiveFor(s: State, i: nat, r: Request) {
    && i < |s.claims|
    && s.claims[i].request.subject == r.subject && s.claims[i].request.key == r.key
    && s.clock < s.claims[i].expires
  }

  /** The answer that claim `i` gives: its body to the same call, a conflict to any other. */
  predicate AnswerFrom(s: State, i: nat, r: Request, a: Answer)
    requires i < |s.claims|
  {
    var c := s.claims[i];
    && (a == Sent(c.body, i) || a == Conflict)
    && (SameCall(r, c.request) ==> a == Sent(c.body, i))
    && (!SameCall(r, c.request) && Sendable(r) && Sendable(c.request) ==> a == Conflict)
  }

  /** A request finds an answer if and only if a claim of its subject and key is live. */
  lemma LookupFindsLiveClaims(now: nat, events: seq<Event>, r: Request)
    requires IsRun(Initial(now), events)
    ensures
      var s := Run(Initial(now), events);
      Lookup(s, r).Some? <==> exists i :: LiveFor(s, i, r)
  {
    InvReachable(now, events);
    var s := Run(Initial(now), events);
    var key := StoredKey(r);
    if Lookup(s, r).Some? {
      assert RowRecordsClaim(s, key);
      var c := s.claims[s.keys[key].claim].request;
      RowKeyIsInjective(c.subject, c.key, r.subject, r.key);
      assert LiveFor(s, s.keys[key].claim, r);
    }
    if i :| LiveFor(s, i, r) {
      assert Retained(s, i) && RowRecordsClaim(s, key);
    }
  }

  /** A live claim answers every request for its key: the stored response if the request is
      the same, a conflict if it is not. */
  lemma LiveClaimAnswers(now: nat, events: seq<Event>, i: nat, r: Request)
    requires IsRun(Initial(now), events) && LiveFor(Run(Initial(now), events), i, r)
    ensures
      var s := Run(Initial(now), events);
      Lookup(s, r).Some? && AnswerFrom(s, i, r, Lookup(s, r).value)
  {
    InvReachable(now, events);
    var s := Run(Initial(now), events);
    assert Retained(s, i) && RowRecordsClaim(s, StoredKey(r));
    var c := s.claims[i].request;
    if Fingerprint(r) == Fingerprint(c) && Sendable(r) && Sendable(c) {
      StoredCall(r, c);
    }
  }

  predicate Sendable(r: Request) {
    && |r.subject| < 0x1_0000_0000_0000_0000
    && |r.path| < 0x1_0000_0000_0000_0000
    && |r.body| < 0x1_0000_0000_0000_0000
  }

  /** A created response carries what its claim stored, and goes to a request of the subject
      that made the claim, with the same key, path and request body. */
  lemma RepliesMatchTheirClaim(now: nat, events: seq<Event>, i: nat)
    requires IsRun(Initial(now), events)
    requires
      var s := Run(Initial(now), events);
      && i < |s.replies| && s.replies[i].answer.Sent? && Sendable(s.replies[i].request)
      && (s.replies[i].answer.claim < |s.claims| ==> Sendable(s.claims[s.replies[i].answer.claim].request))
    ensures
      var s := Run(Initial(now), events);
      var r := s.replies[i];
      r.answer.claim < |s.claims| &&
      var c := s.claims[r.answer.claim];
      r.answer.body == c.body && SameCall(r.request, c.request)
  {
    InvReachable(now, events);
    var s := Run(Initial(now), events);
    var r := s.replies[i];
    assert TruthfulReply(s, r);
    StoredCall(r.request, s.claims[r.answer.claim].request);
  }

  /** So every created response sent for one claim has the same body, and goes to the same call. */
  lemma RepliesOfAClaimAgree(now: nat, events: seq<Event>, i: nat, j: nat)
    requires IsRun(Initial(now), events)
    requires
      var s := Run(Initial(now), events);
      && i < |s.replies| && j < |s.replies|
      && s.replies[i].answer.Sent? && s.replies[j].answer.Sent?
      && s.replies[i].answer.claim == s.replies[j].answer.claim
      && Sendable(s.replies[i].request) && Sendable(s.replies[j].request)
    ensures
      var s := Run(Initial(now), events);
      s.replies[i].answer.body == s.replies[j].answer.body && SameCall(s.replies[i].request, s.replies[j].request)
  {
    InvReachable(now, events);
    var s := Run(Initial(now), events);
    assert TruthfulReply(s, s.replies[i]) && TruthfulReply(s, s.replies[j]);
    StoredCall(s.replies[i].request, s.replies[j].request);
  }

  predicate SameCall(q: Request, r: Request) {
    q.subject == r.subject && q.key == r.key && q.path == r.path && q.body == r.body
  }

  /** Requests with the same stored key and fingerprint are the same call. */
  lemma StoredCall(q: Request, r: Request)
    requires StoredKey(q) == StoredKey(r) && Fingerprint(q) == Fingerprint(r) && Sendable(q) && Sendable(r)
    ensures SameCall(q, r)
  {
    RowKeyIsInjective(q.subject, q.key, r.subject, r.key);
    var ps, qs := [q.subject, q.path, q.body], [r.subject, r.path, r.body];
    FrameIsInjective(ps, qs);
    assert ps[0] == qs[0] && ps[1] == qs[1] && ps[2] == qs[2];
  }

  // ---------------------------------------------------------------- the losing request

  /** Nothing of this widget and event number is committed, and nobody can commit it. */
  ghost predicate Abandoned(s: State, id: Id, number: nat) {
    && id in s.used && number < s.nextEvent
    && id !in s.widgets && number !in s.log
    && (forall m :: m in s.log ==> s.log[m].id != id)
    && (forall t :: t in s.txs && Working(s.txs[t].phase) ==>
          s.txs[t].phase.id != id && (HasNumber(s.txs[t].phase) ==> s.txs[t].phase.number != number))
  }

  lemma {:induction false} AbandonedForever(s: State, events: seq<Event>, id: Id, number: nat)
    requires Abandoned(s, id, number) && IsRun(s, events)
    ensures Abandoned(Run(s, events), id, number)
    decreases |events|
  {
    if events != [] {
      AbandonedStep(s, events[0], id, number);
      AbandonedForever(Apply(s, events[0]), events[1..], id, number);
    }
  }

  lemma AbandonedStep(s: State, e: Event, id: Id, number: nat)
    requires Abandoned(s, id, number) && Enabled(s, e)
    ensures Abandoned(Apply(s, e), id, number)
  {
  }

  lemma {:induction false} NoKindsNoEntries(log: Log, id: Id, n: nat, m: nat)
    requires Kinds(log, id, n) == [] && m < n
    ensures m in log ==> log[m].id != id
  {
    if m < n - 1 {
      NoKindsNoEntries(log, id, n - 1, m);
    }
  }

  /** A request that is refused the key leaves neither its widget nor its event behind, then
      or ever. */
  lemma LoserLeavesNothing(now: nat, events: seq<Event>, tx: TxId, expires: nat, later: seq<Event>)
    requires IsRun(Initial(now), events)
    requires
      var s := Run(Initial(now), events);
      Enabled(s, PutKey(tx, expires)) && Apply(s, PutKey(tx, expires)).txs[tx].phase == Reserved
    requires IsRun(Apply(Run(Initial(now), events), PutKey(tx, expires)), later)
    ensures
      var s := Run(Initial(now), events);
      Abandoned(Run(Apply(s, PutKey(tx, expires)), later), s.txs[tx].phase.id, s.txs[tx].phase.number)
  {
    InvReachable(now, events);
    var s := Run(Initial(now), events);
    LoserIsAbandoned(s, tx, expires);
    AbandonedForever(Apply(s, PutKey(tx, expires)), later, s.txs[tx].phase.id, s.txs[tx].phase.number);
  }

  lemma LoserIsAbandoned(s: State, tx: TxId, expires: nat)
    requires InvRows(s) && InvClaims(s)
    requires Enabled(s, PutKey(tx, expires)) && Apply(s, PutKey(tx, expires)).txs[tx].phase == Reserved
    ensures Abandoned(Apply(s, PutKey(tx, expires)), s.txs[tx].phase.id, s.txs[tx].phase.number)
  {
    var t := Apply(s, PutKey(tx, expires));
    var p := s.txs[tx].phase;
    assert TxRows(s, p) && TxClaims(s, s.txs[tx]) && RowAgrees(s, p.id);
    FoldTellsShape(Kinds(s.log, p.id, s.nextEvent));
    forall m | m in s.log ensures s.log[m].id != p.id {
      NoKindsNoEntries(s.log, p.id, s.nextEvent, m);
    }
    forall u | u in t.txs && Working(t.txs[u].phase) ensures Apart(s.txs[u].phase, p) { }
  }
}
