/** Widget transactions on one database: row locks, READ COMMITTED visibility, event numbers
    that are never reused, and idempotency claims (internal/modules/widget/store.go,
    internal/modules/widget/idempotent.go, internal/idempotency/queries.sql,
    internal/platform/database/database.go). */
module WidgetDatabase {
  import opened Options
  import opened Idempotency
  import opened WidgetHistory

  type TxId = nat

  datatype Request = Request(subject: string, key: string, path: string, body: string, input: Input)

  function StoredKey(r: Request): string {
    RowKey(r.subject, r.key)
  }

  /** The digest of these bytes is compared; distinct bytes are taken to have distinct digests. */
  function Fingerprint(r: Request): Bytes {
    Frame([r.subject, r.path, r.body])
  }

  datatype Op =
    | Create(input: Input)
    | CreateOnce(request: Request)
    | Update(id: Id, input: Input)
    | Delete(id: Id)

  /** How far a transaction has come. Its changes are invisible to others until it commits. */
  datatype Phase =
    | Begun
    | Changed(id: Id, kind: Kind)
    | Logged(id: Id, kind: Kind, number: nat)
    | Claimed(id: Id, kind: Kind, number: nat, from: nat, expires: nat)
    | NotFound
    | Reserved
    | Committed(id: Id, kind: Kind, claim: Option<nat>)
    | RolledBack

  datatype Tx = Tx(op: Op, start: nat, phase: Phase)

  /** The stored response is the JSON form of this widget. */
  datatype Body = Body(id: Id, row: Row)

  datatype KeyRow = KeyRow(fingerprint: Bytes, body: Body, expires: nat, claim: nat)

  /** A committed claim: who claimed the key when, for how long, with what response. */
  datatype Claim = Claim(request: Request, body: Body, from: nat, expires: nat)

  datatype Answer = Sent(body: Body, claim: nat) | Conflict

  datatype Reply = Reply(request: Request, answer: Answer)

  datatype State = State(
    clock: nat,
    widgets: map<Id, Row>,
    log: Log,
    nextEvent: nat,
    used: set<Id>,
    keys: map<string, KeyRow>,
    txs: map<TxId, Tx>,
    claims: seq<Claim>,
    replies: seq<Reply>)

  datatype Event =
    | Tick(now: nat)
    | Begin(tx: TxId, op: Op)
    | ChangeRow(tx: TxId, newId: Id)
    | MissRow(tx: TxId)
    | Enqueue(tx: TxId)
    | PutKey(tx: TxId, expires: nat)
    | Commit(tx: TxId)
    | Rollback(tx: TxId)
    | Purge(key: string)
    | AnswerCreated(tx: TxId)
    | AnswerStored(request: Request)

  function PhaseOf(s: State, tx: TxId): Phase {
    if tx in s.txs then s.txs[tx].phase else RolledBack
  }

  /** The transaction has changed a row and may still commit. */
  predicate Working(p: Phase) {
    p.Changed? || p.Logged? || p.Claimed?
  }

  predicate HasNumber(p: Phase) {
    p.Logged? || p.Claimed?
  }

  predicate RowFree(s: State, tx: TxId, id: Id) {
    forall t :: t in s.txs && t != tx && Working(s.txs[t].phase) ==> s.txs[t].phase.id != id
  }

  predicate ClaimsKey(t: Tx, key: string) {
    t.phase.Claimed? && t.op.CreateOnce? && StoredKey(t.op.request) == key
  }

  /** No other transaction has inserted or updated this key without having ended yet. */
  predicate KeyFree(s: State, tx: TxId, key: string) {
    forall t :: t in s.txs && t != tx ==> !ClaimsKey(s.txs[t], key)
  }

  /** GetIdempotencyKey and the comparison in Lookup. */
  function Lookup(s: State, r: Request): Option<Answer> {
    var key := StoredKey(r);
    if key !in s.keys || s.keys[key].expires <= s.clock then None
    else if s.keys[key].fingerprint != Fingerprint(r) then Some(Conflict)
    else Some(Sent(s.keys[key].body, s.keys[key].claim))
  }

  predicate Enabled(s: State, e: Event) {
    match e
    case Tick(now) => s.clock <= now
    case Begin(tx, op) => tx !in s.txs
    case ChangeRow(tx, newId) =>
      && PhaseOf(s, tx).Begun?
      && (match s.txs[tx].op
          case Update(id, _) => id in s.widgets && RowFree(s, tx, id)
          case Delete(id) => id in s.widgets && RowFree(s, tx, id)
          case _ => newId !in s.used)
    case MissRow(tx) =>
      && PhaseOf(s, tx).Begun?
      && (match s.txs[tx].op
          case Update(id, _) => id !in s.widgets
          case Delete(id) => id !in s.widgets
          case _ => false)
    case Enqueue(tx) => PhaseOf(s, tx).Changed?
    case PutKey(tx, _) =>
      && PhaseOf(s, tx).Logged? && s.txs[tx].op.CreateOnce?
      && KeyFree(s, tx, StoredKey(s.txs[tx].op.request))
    case Commit(tx) => PhaseOf(s, tx).Claimed? || (PhaseOf(s, tx).Logged? && !s.txs[tx].op.CreateOnce?)
    case Rollback(tx) => tx in s.txs && !PhaseOf(s, tx).Committed?
    case Purge(key) => key in s.keys && s.keys[key].expires <= s.clock && forall t :: t in s.txs ==> !ClaimsKey(s.txs[t], key)
    case AnswerCreated(tx) =>
      && PhaseOf(s, tx).Committed? && PhaseOf(s, tx).claim.Some?
      && s.txs[tx].op.CreateOnce? && PhaseOf(s, tx).kind.Created?
    case AnswerStored(r) => Lookup(s, r).Some?
  }

  function Enter(s: State, tx: TxId, phase: Phase): State
    requires tx in s.txs
  {
    s.(txs := s.txs[tx := s.txs[tx].(phase := phase)])
  }

  function Via(op: Op): Option<string> {
    if op.CreateOnce? then Some(StoredKey(op.request)) else None
  }

  function Write(widgets: map<Id, Row>, id: Id, kind: Kind): map<Id, Row> {
    if kind.Deleted? then widgets - {id} else widgets[id := kind.row]
  }

  function Apply(s: State, e: Event): State
    requires Enabled(s, e)
  {
    match e
    case Tick(now) => s.(clock := now)
    case Begin(tx, op) => s.(txs := s.txs[tx := Tx(op, s.clock, Begun)])
    case ChangeRow(tx, newId) =>
      var start := s.txs[tx].start;
      (match s.txs[tx].op
       case Create(input) => Enter(s, tx, Changed(newId, Created(Row(input, start, start)))).(used := s.used + {newId})
       case CreateOnce(r) => Enter(s, tx, Changed(newId, Created(Row(r.input, start, start)))).(used := s.used + {newId})
       case Update(id, input) => Enter(s, tx, Changed(id, Updated(Row(input, s.widgets[id].createdAt, start))))
       case Delete(id) => Enter(s, tx, Changed(id, Deleted)))
    case MissRow(tx) => Enter(s, tx, NotFound)
    case Enqueue(tx) =>
      var p := s.txs[tx].phase;
      Enter(s, tx, Logged(p.id, p.kind, s.nextEvent)).(nextEvent := s.nextEvent + 1)
    case PutKey(tx, expires) =>
      var t := s.txs[tx];
      var key := StoredKey(t.op.request);
      if key in s.keys && s.keys[key].expires > t.start then
        Enter(s, tx, Reserved)
      else
        Enter(s, tx, Claimed(t.phase.id, t.phase.kind, t.phase.number, s.clock, expires))
    case Commit(tx) => CommitTx(s, tx)
    case Rollback(tx) => Enter(s, tx, RolledBack)
    case Purge(key) => s.(keys := s.keys - {key})
    case AnswerCreated(tx) =>
      var t := s.txs[tx];
      s.(replies := s.replies + [Reply(t.op.request, Sent(Body(t.phase.id, t.phase.kind.row), t.phase.claim.value))])
    case AnswerStored(r) => s.(replies := s.replies + [Reply(r, Lookup(s, r).value)])
  }

  /** Everything a transaction did becomes visible in one step. */
  function CommitTx(s: State, tx: TxId): State
    requires tx in s.txs && HasNumber(s.txs[tx].phase)
  {
    var t := s.txs[tx];
    var p := t.phase;
    var s' := s.(widgets := Write(s.widgets, p.id, p.kind), log := s.log[p.number := Entry(p.id, p.kind, Via(t.op))]);
    if p.Claimed? && t.op.CreateOnce? && p.kind.Created? then
      var r := t.op.request;
      var body := Body(p.id, p.kind.row);
      Enter(s', tx, Committed(p.id, p.kind, Some(|s.claims|)))
        .(keys := s.keys[StoredKey(r) := KeyRow(Fingerprint(r), body, p.expires, |s.claims|)],
          claims := s.claims + [Claim(r, body, p.from, p.expires)])
    else
      Enter(s', tx, Committed(p.id, p.kind, None))
  }

  function Initial(now: nat): State {
    State(now, map[], map[], 0, {}, map[], map[], [], [])
  }

  predicate IsRun(s: State, events: seq<Event>)
    decreases |events|
  {
    events == [] || (Enabled(s, events[0]) && IsRun(Apply(s, events[0]), events[1..]))
  }

  function Run(s: State, events: seq<Event>): State
    requires IsRun(s, events)
    decreases |events|
  {
    if events == [] then s else Run(Apply(s, events[0]), events[1..])
  }

  lemma {:induction false} RunAppend(s: State, events: seq<Event>, e: Event)
    requires IsRun(s, events) && Enabled(Run(s, events), e)
    ensures IsRun(s, events + [e]) && Run(s, events + [e]) == Apply(Run(s, events), e)
    decreases |events|
  {
    if events == [] {
      assert ([] + [e])[1..] == [];
      assert Run(Apply(s, e), []) == Apply(s, e);
      assert events + [e] == [e];
    } else {
      assert (events + [e])[1..] == events[1..] + [e];
      RunAppend(Apply(s, events[0]), events[1..], e);
    }
  }

  // ---------------------------------------------------------------- rows and events

  /** The committed history of a widget folds to its committed row. */
  ghost predicate RowAgrees(s: State, id: Id) {
    var life := Fold(Kinds(s.log, id, s.nextEvent));
    if id in s.widgets then life == Live(s.widgets[id]) else life.Unborn? || life.Gone?
  }

  /** What an open transaction that has changed a row relies on. */
  ghost predicate TxRows(s: State, p: Phase)
    requires Working(p)
  {
    && p.id in s.used
    && (p.kind.Created? ==> Fold(Kinds(s.log, p.id, s.nextEvent)).Unborn?)
    && (!p.kind.Created? ==> p.id in s.widgets)
    && (p.kind.Updated? ==> p.kind.row.createdAt == s.widgets[p.id].createdAt)
    && (HasNumber(p) ==>
          && p.number < s.nextEvent && p.number !in s.log
          && forall m :: m in s.log && s.log[m].id == p.id ==> m < p.number)
  }

  ghost predicate Apart(p: Phase, q: Phase)
    requires Working(p) && Working(q)
  {
    p.id != q.id && (HasNumber(p) && HasNumber(q) ==> p.number != q.number)
  }

  ghost predicate InvRows(s: State) {
    && (forall n :: n in s.log ==> n < s.nextEvent && s.log[n].id in s.used)
    && s.widgets.Keys <= s.used
    && (forall id :: RowAgrees(s, id))
    && (forall t :: t in s.txs && Working(s.txs[t].phase) ==> TxRows(s, s.txs[t].phase))
    && (forall t, u :: t in s.txs && u in s.txs && t != u && Working(s.txs[t].phase) && Working(s.txs[u].phase) ==>
          Apart(s.txs[t].phase, s.txs[u].phase))
  }

  lemma UnusedIsUnborn(log: Log, id: Id, n: nat)
    requires forall m :: m in log ==> log[m].id != id
    ensures Kinds(log, id, n) == []
  {
  }

  lemma RowsChange(s: State, tx: TxId, newId: Id)
    requires InvRows(s) && Enabled(s, ChangeRow(tx, newId))
    ensures InvRows(Apply(s, ChangeRow(tx, newId)))
  {
    var t := Apply(s, ChangeRow(tx, newId));
    forall id ensures RowAgrees(t, id) { assert RowAgrees(s, id); }
    var p := t.txs[tx].phase;
    if p.kind.Created? {
      UnusedIsUnborn(s.log, newId, s.nextEvent);
    }
    assert TxRows(t, p);
    forall u | u in s.txs && u != tx && Working(s.txs[u].phase)
      ensures TxRows(t, s.txs[u].phase) && Apart(p, s.txs[u].phase)
    {
      assert TxRows(s, s.txs[u].phase);
    }
  }

  lemma RowsEnqueue(s: State, tx: TxId)
    requires InvRows(s) && Enabled(s, Enqueue(tx))
    ensures InvRows(Apply(s, Enqueue(tx)))
  {
    var t := Apply(s, Enqueue(tx));
    forall id ensures Kinds(t.log, id, t.nextEvent) == Kinds(s.log, id, s.nextEvent) { }
    forall id ensures RowAgrees(t, id) { assert RowAgrees(s, id); }
  }

  lemma CommitKinds(s: State, tx: TxId, id: Id)
    requires InvRows(s) && Enabled(s, Commit(tx))
    ensures
      var t := Apply(s, Commit(tx));
      var p := s.txs[tx].phase;
      Kinds(t.log, id, t.nextEvent) == Kinds(s.log, id, s.nextEvent) + (if id == p.id then [p.kind] else [])
  {
    var p := s.txs[tx].phase;
    assert TxRows(s, p);
    AppendKind(s.log, p.number, Entry(p.id, p.kind, Via(s.txs[tx].op)), id, s.nextEvent);
  }

  lemma CommitTable(s: State, t: State, p: Phase, id: Id)
    requires Working(p) && RowAgrees(s, id) && TxRows(s, p)
    requires t.widgets == Write(s.widgets, p.id, p.kind)
    requires Kinds(t.log, id, t.nextEvent) == Kinds(s.log, id, s.nextEvent) + (if id == p.id then [p.kind] else [])
    ensures RowAgrees(t, id)
  {
    var ks := Kinds(s.log, id, s.nextEvent);
    if id == p.id {
      FoldAppend(ks, p.kind);
      WriteFollows(s.widgets, id, ks, p.kind);
    } else {
      assert ks + [] == ks;
    }
  }

  /** Writing the row and folding one more event agree. */
  lemma WriteFollows(widgets: map<Id, Row>, id: Id, ks: seq<Kind>, k: Kind)
    requires if id in widgets then Fold(ks) == Live(widgets[id]) else Fold(ks).Unborn? || Fold(ks).Gone?
    requires k.Created? ==> Fold(ks).Unborn?
    requires !k.Created? ==> id in widgets
    requires k.Updated? ==> k.row.createdAt == widgets[id].createdAt
    ensures
      var after, life := Write(widgets, id, k), Advance(Fold(ks), k);
      if id in after then life == Live(after[id]) else life.Unborn? || life.Gone?
  {
  }

  lemma CommitAgrees(s: State, tx: TxId, id: Id)
    requires InvRows(s) && Enabled(s, Commit(tx))
    ensures RowAgrees(Apply(s, Commit(tx)), id)
  {
    assert RowAgrees(s, id) && TxRows(s, s.txs[tx].phase);
    CommitKinds(s, tx, id);
    CommitTable(s, Apply(s, Commit(tx)), s.txs[tx].phase, id);
  }

  lemma CommitOthers(s: State, tx: TxId, u: TxId)
    requires InvRows(s) && Enabled(s, Commit(tx))
    requires u in s.txs && u != tx && Working(s.txs[u].phase)
    ensures TxRows(Apply(s, Commit(tx)), s.txs[u].phase)
  {
    var p, q := s.txs[tx].phase, s.txs[u].phase;
    assert TxRows(s, q) && Apart(q, p);
    CommitKinds(s, tx, q.id);
    assert Kinds(s.log, q.id, s.nextEvent) + [] == Kinds(s.log, q.id, s.nextEvent);
  }

  lemma RowsCommit(s: State, tx: TxId)
    requires InvRows(s) && Enabled(s, Commit(tx))
    ensures InvRows(Apply(s, Commit(tx)))
  {
    var t := Apply(s, Commit(tx));
    CommitEndsOne(s, tx);
    forall id ensures RowAgrees(t, id) { CommitAgrees(s, tx, id); }
    forall u | u in t.txs && Working(t.txs[u].phase) ensures TxRows(t, t.txs[u].phase) {
      CommitOthers(s, tx, u);
    }
    forall u, v | u in t.txs && v in t.txs && u != v && Working(t.txs[u].phase) && Working(t.txs[v].phase)
      ensures Apart(t.txs[u].phase, t.txs[v].phase)
    {
      assert Apart(s.txs[u].phase, s.txs[v].phase);
    }
  }

  /** One transaction ends, no other is touched, and the numbers and identifiers are among
      those given out. */
  ghost predicate EndsOne(s: State, t: State, tx: TxId) {
    && t.txs.Keys == s.txs.Keys && tx in t.txs && !Working(t.txs[tx].phase)
    && (forall u :: u in s.txs && u != tx ==> t.txs[u] == s.txs[u])
    && (forall n :: n in t.log ==> n < t.nextEvent && t.log[n].id in t.used)
    && t.widgets.Keys <= t.used
  }

  lemma CommitEndsOne(s: State, tx: TxId)
    requires InvRows(s) && Enabled(s, Commit(tx))
    ensures EndsOne(s, Apply(s, Commit(tx)), tx)
  {
    assert TxRows(s, s.txs[tx].phase);
  }

  lemma {:induction false} RowsStep(s: State, e: Event)
    requires InvRows(s) && Enabled(s, e)
    ensures InvRows(Apply(s, e))
  {
    match e
    case ChangeRow(tx, newId) => RowsChange(s, tx, newId);
    case Enqueue(tx) => RowsEnqueue(s, tx);
    case PutKey(tx, expires) => RowsPut(s, tx, expires);
    case Commit(tx) => RowsCommit(s, tx);
    case _ => RowsOther(s, e);
  }

  lemma RowsOther(s: State, e: Event)
    requires InvRows(s) && Enabled(s, e)
    requires !e.ChangeRow? && !e.Enqueue? && !e.PutKey? && !e.Commit?
    ensures InvRows(Apply(s, e))
  {
    var t := Apply(s, e);
    forall id ensures RowAgrees(t, id) { assert RowAgrees(s, id); }
    forall u | u in t.txs && Working(t.txs[u].phase) ensures TxRows(t, t.txs[u].phase) { }
  }

  lemma RowsPut(s: State, tx: TxId, expires: nat)
    requires InvRows(s) && Enabled(s, PutKey(tx, expires))
    ensures InvRows(Apply(s, PutKey(tx, expires)))
  {
    var t := Apply(s, PutKey(tx, expires));
    forall id ensures RowAgrees(t, id) { assert RowAgrees(s, id); }
    assert TxRows(s, s.txs[tx].phase);
  }

  lemma {:induction false} RowsRun(s: State, events: seq<Event>)
    requires InvRows(s) && IsRun(s, events)
    ensures InvRows(Run(s, events))
    decreases |events|
  {
    if events != [] {
      RowsStep(s, events[0]);
      RowsRun(Apply(s, events[0]), events[1..]);
    }
  }

  lemma InitialRows(now: nat)
    ensures InvRows(Initial(now))
  {
    forall id ensures RowAgrees(Initial(now), id) { }
  }

  /** For every interleaving of creates, updates and deletes with rollbacks, and every widget:
      folding its committed events in number order gives exactly its current row, and the
      events read created, updated*, then at most one deleted, with one time of creation. */
  lemma {:induction false} HistoryExplainsTable(now: nat, events: seq<Event>, id: Id)
    requires IsRun(Initial(now), events)
    ensures
      var s := Run(Initial(now), events);
      var ks := Kinds(s.log, id, s.nextEvent);
      && WellShaped(ks)
      && (id in s.widgets <==> ks != [] && !ks[|ks| - 1].Deleted?)
      && (id in s.widgets ==> Fold(ks) == Live(s.widgets[id]) && ks[|ks| - 1].row == s.widgets[id])
  {
    InitialRows(now);
    RowsRun(Initial(now), events);
    var s := Run(Initial(now), events);
    assert RowAgrees(s, id);
    FoldTellsShape(Kinds(s.log, id, s.nextEvent));
  }
}
