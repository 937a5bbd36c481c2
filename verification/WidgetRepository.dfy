/** The repository and the idempotent create handler as they run, one statement at a time,
    with other sessions taking any steps in between (internal/modules/widget/store.go,
    internal/modules/widget/idempotent.go, internal/platform/database/database.go). */
module WidgetRepository {
  import opened Options
  import opened Idempotency
  import opened WidgetHistory
  import opened WidgetDatabase
  import opened WidgetClaims

  datatype Result = Done(id: Id, kind: Kind) | ErrNotFound | ErrReserved | ErrInternal

  /** How a create that carries a key came to its answer. */
  datatype How = Replayed | CreatedBy(tx: TxId) | Refused | Errored

  class Repository {
    var db: State
    /** Whether statements, commits and connections can fail in this run. */
    const faulty: bool
    /** Where the database started, and every step since. */
    ghost const now: nat
    ghost var steps: seq<Event>

    /** The database is a reachable state of the protocol. */
    ghost predicate Valid()
      reads this
    {
      IsRun(Initial(now), steps) && Run(Initial(now), steps) == db
    }

    constructor (now: nat, faulty: bool)
      ensures Valid() && steps == [] && db == Initial(now) && this.faulty == faulty
    {
      this.now := now;
      this.faulty := faulty;
      db := Initial(now);
      steps := [];
    }

    /** `seen` was the database after the first `at` steps. */
    ghost predicate Saw(at: nat, seen: State)
      reads this
    {
      at <= |steps| && IsRun(Initial(now), steps[..at]) && Run(Initial(now), steps[..at]) == seen
    }

    method Step(e: Event)
      requires Valid() && Enabled(db, e)
      modifies this
      ensures Valid() && steps == old(steps) + [e] && db == Apply(old(db), e)
    {
      RunAppend(Initial(now), steps, e);
      db := Apply(db, e);
      steps := steps + [e];
    }

    method Fails() returns (yes: bool)
      ensures !faulty ==> !yes
    {
      yes := false;
      if faulty {
        yes := *;
      }
    }

    /** Other sessions: any number of steps that are not of transaction `tx`. */
    method Others(tx: TxId)
      requires Valid()
      modifies this
      ensures Valid() && old(steps) <= steps
      ensures tx in db.txs <==> tx in old(db).txs
      ensures tx in db.txs ==> db.txs[tx] == old(db).txs[tx]
      ensures LiveRowsKept(old(db), db)
    {
      var n: nat := *;
      while n > 0
        invariant Valid() && old(steps) <= steps
        invariant tx in db.txs <==> tx in old(db).txs
        invariant tx in db.txs ==> db.txs[tx] == old(db).txs[tx]
        invariant LiveRowsKept(old(db), db)
      {
        var e: Event := *;
        if Enabled(db, e) && !ActsOn(e, tx) {
          OthersKeep(db, e, tx);
          WidgetClaims.InvReachable(now, steps);
          LiveRowsStep(db, e);
          Step(e);
        }
        n := n - 1;
      }
    }

    /** pool.Begin, after any time. */
    method Begin(op: Op) returns (tx: TxId)
      requires Valid()
      modifies this
      ensures Valid() && old(steps) <= steps
      ensures tx !in old(db).txs && tx in db.txs && db.txs[tx].op == op && db.txs[tx].phase == Begun
      ensures old(db).clock <= db.txs[tx].start <= db.clock
    {
      tx := FreshTx(db);
      var later: int := *;
      if later > 0 { Step(Tick(db.clock + later)); }
      Others(tx);
      Step(Event.Begin(tx, op));
      Others(tx);
    }

    method Rollback(tx: TxId)
      requires Valid() && tx in db.txs && !db.txs[tx].phase.Committed?
      modifies this
      ensures Valid() && old(steps) <= steps
      ensures db == Apply(old(db), Event.Rollback(tx))
      ensures HeldByOther(old(db), tx) ==> HeldByOther(db, tx)
      ensures forall r :: KeyHeldByOther(old(db), tx, r) ==> KeyHeldByOther(db, tx, r)
    {
      HoldersStay(db, tx);
      Step(Event.Rollback(tx));
    }

    /** The row change of the transaction's operation, and the event in the same transaction.
        `seen` is the database when the statement met the row, which it waits for while another
        transaction holds it. Without faults it fails only when the row is missing then, or
        still held when the wait is given up. */
    method ChangeAndEnqueue(tx: TxId) returns (ok: bool, ghost at: nat, ghost seen: State)
      requires Valid() && tx in db.txs && db.txs[tx].phase.Begun?
      modifies this
      ensures Valid() && old(steps) <= steps && |old(steps)| <= at && Saw(at, seen)
      ensures tx in seen.txs && seen.txs[tx] == old(db).txs[tx]
      ensures tx in db.txs && db.txs[tx].op == old(db).txs[tx].op && db.txs[tx].start == old(db).txs[tx].start
      ensures old(db).clock <= db.clock
      ensures ok ==> db.txs[tx].phase.Logged?
      ensures ok ==> Promised(seen, db.txs[tx].op, db.txs[tx].start, db.txs[tx].phase.id, db.txs[tx].phase.kind)
      ensures !ok ==> db.txs[tx].phase.Begun? || db.txs[tx].phase.Changed? || db.txs[tx].phase.NotFound?
      ensures db.txs[tx].phase.NotFound? ==> NoSuchRow(seen, db.txs[tx].op)
      ensures !faulty && !ok && !db.txs[tx].phase.NotFound? ==>
        HeldByOther(seen, tx) && HeldByOther(db, tx) && !NoSuchRow(seen, db.txs[tx].op)
    {
      Others(tx);
      at, seen := |steps|, db;
      ghost var met := steps;
      assert met[..at] == met;
      ok := false;
      var broken := Fails();
      if broken { return; }
      if Enabled(db, MissRow(tx)) {
        Step(MissRow(tx));
        assert steps[..at] == met;
        return;
      }
      WidgetClaims.InvReachable(now, steps);
      var newId := FreshId(db);
      if !Enabled(db, ChangeRow(tx, newId)) { return; }
      Step(ChangeRow(tx, newId));
      Others(tx);
      assert steps[..at] == met;
      broken := Fails();
      if broken { return; }
      Step(Enqueue(tx));
      Others(tx);
      assert steps[..at] == met;
      ok := true;
    }

    /** WithinTx around a change without a claim: committed as a whole or not at all. `seen`
        is the database when the statement met the row: it was missing if and only if the
        caller is told so, unless something failed, and a row that is there and free is
        changed. A caller that loses the connection during the commit is told of a failure
        either way. */
    method Write(op: Op) returns (r: Result, tx: TxId, ghost at: nat, ghost seen: State)
      requires Valid() && !op.CreateOnce?
      modifies this
      ensures Valid() && old(steps) <= steps && |old(steps)| <= at && Saw(at, seen)
      ensures tx !in old(db).txs && tx in db.txs && db.txs[tx].op == op && tx in seen.txs
      ensures old(db).clock <= db.txs[tx].start <= db.clock
      ensures !r.ErrReserved?
      ensures r.Done? ==>
        && db.txs[tx].phase.Committed? && Visible(db, r.id, r.kind, None)
        && Promised(seen, op, db.txs[tx].start, r.id, r.kind)
      ensures r.ErrNotFound? ==> db.txs[tx].phase.RolledBack? && NoSuchRow(seen, op)
      ensures r.ErrInternal? ==> db.txs[tx].phase.RolledBack? || db.txs[tx].phase.Committed?
      ensures !faulty && r.ErrInternal? ==> HeldByOther(seen, tx) && HeldByOther(db, tx) && !NoSuchRow(seen, op)
    {
      tx := Begin(op);
      var ok;
      ok, at, seen := ChangeAndEnqueue(tx);
      ghost var changed := steps;
      var broken := Fails();
      if !ok || broken {
        r := if db.txs[tx].phase.NotFound? then ErrNotFound else ErrInternal;
        Rollback(tx);
        assert steps[..at] == changed[..at];
        return;
      }
      var id, kind := db.txs[tx].phase.id, db.txs[tx].phase.kind;
      ghost var n := db.txs[tx].phase.number;
      Step(Commit(tx));
      assert n in db.log && db.log[n] == Entry(id, kind, None);
      assert steps[..at] == changed[..at];
      broken := Fails();
      r := if broken then ErrInternal else Done(id, kind);
    }

    /** CreateIdempotent: the widget, its event and the key in one transaction. The upsert
        waits while another transaction holds the key. `stored` is the row that refused it. */
    method CreateIdempotent(request: Request, expires: nat) returns (r: Result, tx: TxId, ghost stored: Option<KeyRow>)
      requires Valid()
      modifies this
      ensures Valid() && old(steps) <= steps
      ensures tx !in old(db).txs && tx in db.txs && db.txs[tx].op == CreateOnce(request)
      ensures old(db).clock <= db.txs[tx].start <= db.clock
      ensures EndsWith(db, tx, request, expires, r, stored)
      ensures !faulty && r.ErrInternal? ==> KeyHeldByOther(db, tx, request)
    {
      stored := None;
      tx := Begin(CreateOnce(request));
      var ok;
      ghost var at, seen;
      ok, at, seen := ChangeAndEnqueue(tx);
      var broken := Fails();
      ok := ok && !broken && Enabled(db, PutKey(tx, expires));
      if !ok {
        if !faulty { KeyIsHeld(db, tx, request, expires); }
        Rollback(tx);
        r := ErrInternal;
        return;
      }
      r, stored := ClaimAndCommit(tx, request, expires);
    }

    /** The upsert of the key, and the end of the transaction. */
    method ClaimAndCommit(tx: TxId, request: Request, expires: nat) returns (r: Result, ghost stored: Option<KeyRow>)
      requires Valid() && Enabled(db, PutKey(tx, expires)) && db.txs[tx].op == CreateOnce(request)
      requires CreatesRow(request, db.txs[tx].start, db.txs[tx].phase.kind)
      modifies this
      ensures Valid() && old(steps) <= steps
      ensures tx in db.txs && db.txs[tx].op == CreateOnce(request)
      ensures db.txs[tx].start == old(db).txs[tx].start && old(db).clock <= db.clock
      ensures EndsWith(db, tx, request, expires, r, stored)
      ensures !faulty ==> !r.ErrInternal?
    {
      stored := None;
      if StoredKey(request) in db.keys { stored := Some(db.keys[StoredKey(request)]); }
      Step(PutKey(tx, expires));
      Others(tx);
      if db.txs[tx].phase.Reserved? {
        Rollback(tx);
        r := ErrReserved;
        return;
      }
      r := CommitClaim(tx, request, expires);
    }

    method CommitClaim(tx: TxId, request: Request, expires: nat) returns (r: Result)
      requires Valid() && tx in db.txs && db.txs[tx].op == CreateOnce(request)
      requires db.txs[tx].phase.Claimed? && db.txs[tx].phase.expires == expires
      requires CreatesRow(request, db.txs[tx].start, db.txs[tx].phase.kind)
      modifies this
      ensures Valid() && old(steps) <= steps && db == Apply(old(db), Commit(tx))
      ensures !r.ErrReserved? && EndsWith(db, tx, request, expires, r, None)
      ensures !faulty ==> !r.ErrInternal?
    {
      var id, kind := db.txs[tx].phase.id, db.txs[tx].phase.kind;
      WidgetClaims.InvReachable(now, steps);
      CommittedClaim(db, tx, request, expires);
      Step(Commit(tx));
      var broken := Fails();
      r := if broken then ErrInternal else Done(id, kind);
    }

    /** maybeReplay: answers as a live claim of the key says, if there is one. A lookup that
        fails is answered with an error, and nothing else happens. */
    method MaybeReplay(request: Request) returns (answer: Option<Answer>, failed: bool)
      requires Valid()
      modifies this
      ensures Valid() && old(steps) <= steps
      ensures answer == if failed then None else Lookup(old(db), request)
      ensures db == if answer.Some? then Answered(old(db), request, answer.value) else old(db)
      ensures answer.Some? ==> SomeClaimAnswers(old(db), request, answer.value)
      ensures answer.None? && !failed ==> NoLiveClaimFor(old(db), request)
      ensures !faulty ==> !failed
    {
      failed := Fails();
      if failed { return None, failed; }
      answer := Lookup(db, request);
      AnswersComeFromClaims(now, steps, request);
      if answer.Some? {
        Step(AnswerStored(request));
      }
    }

    /** PurgeExpired: removes exactly the key rows that have run out, but for those that an open
        upsert is replacing, and tells how many. */
    method PurgeExpired() returns (n: nat)
      requires Valid()
      modifies this
      ensures Valid() && old(steps) <= steps
      ensures forall key :: key in db.keys ==> key in old(db).keys && db.keys[key] == old(db).keys[key]
      ensures forall key :: key in old(db).keys ==>
        (key !in db.keys <==> old(db).keys[key].expires <= old(db).clock && !Replacing(old(db), key))
      ensures db == old(db).(keys := db.keys) && n + |db.keys| == |old(db).keys|
    {
      n := 0;
      var left := db.keys.Keys;
      while left != {}
        invariant Valid() && old(steps) <= steps
        invariant left <= db.keys.Keys <= old(db).keys.Keys
        invariant db == old(db).(keys := db.keys) && n + |db.keys| == |old(db).keys|
        invariant forall key :: key in db.keys ==> db.keys[key] == old(db).keys[key]
        invariant forall key :: key in old(db).keys && key !in left ==>
          (key !in db.keys <==> old(db).keys[key].expires <= old(db).clock && !Replacing(old(db), key))
        decreases left
      {
        var key :| key in left;
        left := left - {key};
        if Enabled(db, Purge(key)) {
          ghost var rows := db.keys;
          Step(Purge(key));
          OneLess(rows, key);
          n := n + 1;
        }
      }
    }

    /** createIdempotent: a live claim of the key is answered at once, and nothing is begun;
        else the create is tried, and answered with what it committed, or, when it was refused
        the key, from the row that refused it, unless that has run out meanwhile. Without
        faults there is no error but when the key is still held by another transaction. */
    method HandleCreate(request: Request, expires: nat) returns (answer: Option<Answer>, how: How, ghost stored: Option<KeyRow>)
      requires Valid()
      modifies this
      ensures Valid() && old(steps) <= steps
      ensures answer.Some? ==> db.replies != [] && db.replies[|db.replies| - 1] == Reply(request, answer.value)
      ensures !faulty && !NoLiveClaimFor(old(db), request) ==> how.Replayed?
      ensures
        match how
        case Replayed =>
          && answer.Some? && SomeClaimAnswers(old(db), request, answer.value)
          && Lookup(old(db), request) == answer && db == Answered(old(db), request, answer.value)
        case CreatedBy(tx) =>
          && NoLiveClaimFor(old(db), request)
          && tx !in old(db).txs && Committing(db, tx, request, expires)
          && old(db).clock <= db.txs[tx].start
          && CreatesRow(request, db.txs[tx].start, db.txs[tx].phase.kind)
          && answer == Some(Sent(Body(db.txs[tx].phase.id, db.txs[tx].phase.kind.row), db.txs[tx].phase.claim.value))
        case Refused =>
          && NoLiveClaimFor(old(db), request) && stored.Some?
          && (if db.clock < stored.value.expires then answer == Some(AnswerOf(stored.value, request))
              else answer == Lookup(db, request))
          && (if answer.Some? then SomeClaimAnswers(db, request, answer.value) else NoLiveClaimFor(db, request))
        case Errored => answer.None? && (!faulty ==> KeyHeld(db, request))
    {
      stored := None;
      var failed;
      answer, failed := MaybeReplay(request);
      if answer.Some? { how := Replayed; return; }
      how := Errored;
      if failed { return; }
      var r, tx;
      r, tx, stored := CreateIdempotent(request, expires);
      if r.ErrReserved? {
        Others(tx);
        ghost var met := db;
        answer, failed := MaybeReplay(request);
        if answer.Some? { SameClaimsAnswer(met, db, request, answer.value); }
        how := if failed then Errored else Refused;
        return;
      }
      if r.Done? {
        Step(AnswerCreated(tx));
        answer := Some(db.replies[|db.replies| - 1].answer);
        how := CreatedBy(tx);
      }
    }
  }

  function Answered(s: State, r: Request, a: Answer): State {
    s.(replies := s.replies + [Reply(r, a)])
  }

  /** The stored response, or a conflict if the row is another request's. */
  function AnswerOf(row: KeyRow, r: Request): Answer {
    if row.fingerprint == Fingerprint(r) then Sent(row.body, row.claim) else Conflict
  }

  ghost predicate SomeClaimAnswers(s: State, r: Request, a: Answer) {
    exists i :: LiveFor(s, i, r) && AnswerFrom(s, i, r, a)
  }

  ghost predicate NoLiveClaimFor(s: State, r: Request) {
    forall i :: !LiveFor(s, i, r)
  }

  lemma SameClaimsAnswer(s: State, t: State, r: Request, a: Answer)
    requires SomeClaimAnswers(s, r, a) && t.claims == s.claims && t.clock == s.clock
    ensures SomeClaimAnswers(t, r, a)
  {
    var i :| LiveFor(s, i, r) && AnswerFrom(s, i, r, a);
    assert LiveFor(t, i, r) && AnswerFrom(t, i, r, a);
  }

  lemma AnswersComeFromClaims(now: nat, steps: seq<Event>, r: Request)
    requires IsRun(Initial(now), steps)
    ensures
      var s := Run(Initial(now), steps);
      if Lookup(s, r).Some? then SomeClaimAnswers(s, r, Lookup(s, r).value) else NoLiveClaimFor(s, r)
  {
    var s := Run(Initial(now), steps);
    LookupFindsLiveClaims(now, steps, r);
    if i :| LiveFor(s, i, r) {
      LiveClaimAnswers(now, steps, i, r);
    }
  }

  predicate CreatesRow(request: Request, start: nat, kind: Kind) {
    kind == Created(Row(request.input, start, start))
  }

  /** The transaction has committed a create and its claim of the key, both for the request:
      the claim keeps the response until `expires`. */
  predicate Committing(s: State, tx: TxId, request: Request, expires: nat) {
    && tx in s.txs && s.txs[tx].op == CreateOnce(request)
    && s.txs[tx].phase.Committed? && s.txs[tx].phase.claim.Some? && s.txs[tx].phase.kind.Created?
    && var i, body := s.txs[tx].phase.claim.value, Body(s.txs[tx].phase.id, s.txs[tx].phase.kind.row);
    && i < |s.claims| && s.claims[i] == Claim(request, body, s.claims[i].from, expires)
    && s.txs[tx].start <= s.claims[i].from <= s.clock
  }

  /** What CreateIdempotent's result means: everything committed together, a refusal by a row
      that was live when the transaction began, or a failure. */
  ghost predicate EndsWith(s: State, tx: TxId, request: Request, expires: nat, r: Result, stored: Option<KeyRow>)
    requires tx in s.txs
  {
    match r
    case Done(id, kind) =>
      && Visible(s, id, kind, Some(StoredKey(request))) && CreatesRow(request, s.txs[tx].start, kind)
      && Committing(s, tx, request, expires) && s.txs[tx].phase.id == id && s.txs[tx].phase.kind == kind
      && StoredKey(request) in s.keys
      && s.keys[StoredKey(request)] == KeyRow(Fingerprint(request), Body(id, kind.row), expires, s.txs[tx].phase.claim.value)
    case ErrReserved =>
      && s.txs[tx].phase.RolledBack?
      && stored.Some? && s.txs[tx].start < stored.value.expires
      && StillStored(s, StoredKey(request), stored.value)
    case ErrInternal => s.txs[tx].phase.RolledBack? || s.txs[tx].phase.Committed?
    case ErrNotFound => false
  }

  lemma CommittedClaim(s: State, tx: TxId, request: Request, expires: nat)
    requires tx in s.txs && s.txs[tx].op == CreateOnce(request)
    requires s.txs[tx].phase.Claimed? && s.txs[tx].phase.expires == expires && TxClaims(s, s.txs[tx])
    requires CreatesRow(request, s.txs[tx].start, s.txs[tx].phase.kind)
    ensures
      var p := s.txs[tx].phase;
      EndsWith(Apply(s, Commit(tx)), tx, request, expires, Done(p.id, p.kind), None)
  {
    var p, t := s.txs[tx].phase, Apply(s, Commit(tx));
    assert p.number in t.log && t.log[p.number] == Entry(p.id, p.kind, Some(StoredKey(request)));
  }

  /** An open transaction that has changed this row. */
  predicate HoldsRow(t: Tx, id: Id) {
    (t.phase.Changed? || t.phase.Logged? || t.phase.Claimed?) && t.phase.id == id
  }

  /** An open transaction that has written this subject's key. */
  predicate HoldsKey(t: Tx, r: Request) {
    && t.phase.Claimed? && t.op.CreateOnce?
    && t.op.request.subject == r.subject && t.op.request.key == r.key
  }

  ghost predicate HeldByOther(s: State, tx: TxId) {
    && tx in s.txs
    && (match s.txs[tx].op
        case Update(id, _) => exists t :: t in s.txs && t != tx && HoldsRow(s.txs[t], id)
        case Delete(id) => exists t :: t in s.txs && t != tx && HoldsRow(s.txs[t], id)
        case _ => false)
  }

  ghost predicate KeyHeldByOther(s: State, tx: TxId, r: Request) {
    exists t :: t in s.txs && t != tx && HoldsKey(s.txs[t], r)
  }

  ghost predicate KeyHeld(s: State, r: Request) {
    exists t :: t in s.txs && HoldsKey(s.txs[t], r)
  }

  /** An open transaction has written this key's row. */
  ghost predicate Replacing(s: State, key: string) {
    exists t :: t in s.txs && s.txs[t].phase.Claimed? && s.txs[t].op.CreateOnce? && StoredKey(s.txs[t].op.request) == key
  }

  lemma OneLess(rows: map<string, KeyRow>, key: string)
    requires key in rows
    ensures |rows - {key}| == |rows| - 1
  {
    assert (rows - {key}).Keys == rows.Keys - {key};
    assert |(rows - {key}).Keys| == |rows - {key}| && |rows.Keys| == |rows|;
  }

  /** An upsert that cannot go ahead waits for a transaction of the same subject and key. */
  lemma KeyIsHeld(s: State, tx: TxId, request: Request, expires: nat)
    requires tx in s.txs && s.txs[tx].op == CreateOnce(request) && s.txs[tx].phase.Logged?
    requires !Enabled(s, PutKey(tx, expires))
    ensures KeyHeldByOther(s, tx, request)
  {
    var t :| t in s.txs && t != tx && ClaimsKey(s.txs[t], StoredKey(request));
    var r := s.txs[t].op.request;
    RowKeyIsInjective(r.subject, r.key, request.subject, request.key);
    assert HoldsKey(s.txs[t], request);
  }

  /** A rollback leaves other transactions' locks. */
  lemma HoldersStay(s: State, tx: TxId)
    requires Enabled(s, Event.Rollback(tx))
    ensures HeldByOther(s, tx) ==> HeldByOther(Apply(s, Event.Rollback(tx)), tx)
    ensures forall r :: KeyHeldByOther(s, tx, r) ==> KeyHeldByOther(Apply(s, Event.Rollback(tx)), tx, r)
  {
    var t := Apply(s, Event.Rollback(tx));
    forall u | u in s.txs && u != tx ensures u in t.txs && t.txs[u] == s.txs[u] { }
    assert t.txs[tx].op == s.txs[tx].op;
    forall r | KeyHeldByOther(s, tx, r) ensures KeyHeldByOther(t, tx, r) {
      var u :| u in s.txs && u != tx && HoldsKey(s.txs[u], r);
      assert u in t.txs && HoldsKey(t.txs[u], r);
    }
  }

  ghost predicate StillStored(s: State, key: string, row: KeyRow) {
    s.clock < row.expires ==> key in s.keys && s.keys[key] == row
  }

  /** Time does not go back, and a row that has not run out is still there. */
  ghost predicate LiveRowsKept(s: State, t: State) {
    s.clock <= t.clock && forall key :: key in s.keys ==> StillStored(t, key, s.keys[key])
  }

  lemma {:induction false} LiveRowsStep(s: State, e: Event)
    requires InvClaims(s) && Enabled(s, e)
    ensures LiveRowsKept(s, Apply(s, e))
  {
    match e
    case Commit(tx) => LiveRowsCommit(s, tx);
    case _ => LiveRowsOther(s, e);
  }

  lemma {:induction false} LiveRowsCommit(s: State, tx: TxId)
    requires InvClaims(s) && Enabled(s, Commit(tx))
    ensures LiveRowsKept(s, Apply(s, Commit(tx)))
  {
    assert TxClaims(s, s.txs[tx]);
    forall key | key in s.keys ensures StillStored(Apply(s, Commit(tx)), key, s.keys[key]) {
      assert RowRecordsClaim(s, key);
    }
  }

  lemma LiveRowsOther(s: State, e: Event)
    requires Enabled(s, e) && !e.Commit?
    ensures LiveRowsKept(s, Apply(s, e))
  {
  }

  /** Events of the transaction itself. */
  predicate ActsOn(e: Event, tx: TxId) {
    match e
    case Begin(t, _) => t == tx
    case ChangeRow(t, _) => t == tx
    case MissRow(t) => t == tx
    case Enqueue(t) => t == tx
    case PutKey(t, _) => t == tx
    case Commit(t) => t == tx
    case Rollback(t) => t == tx
    case _ => false
  }

  lemma OthersKeep(s: State, e: Event, tx: TxId)
    requires Enabled(s, e) && !ActsOn(e, tx)
    ensures tx in Apply(s, e).txs <==> tx in s.txs
    ensures tx in s.txs ==> Apply(s, e).txs[tx] == s.txs[tx]
  {
  }

  /** An update or a delete of a row that is not there. */
  predicate NoSuchRow(s: State, op: Op) {
    match op
    case Update(id, _) => id !in s.widgets
    case Delete(id) => id !in s.widgets
    case _ => false
  }

  /** The row change is the one that the operation, in a transaction begun at `start`, asks for
      where it meets the database `seen`. */
  predicate Promised(seen: State, op: Op, start: nat, id: Id, kind: Kind) {
    match op
    case Create(input) => id !in seen.widgets && kind == Created(Row(input, start, start))
    case CreateOnce(r) => id !in seen.widgets && kind == Created(Row(r.input, start, start))
    case Update(i, input) => id == i && i in seen.widgets && kind == Updated(Row(input, seen.widgets[i].createdAt, start))
    case Delete(i) => id == i && i in seen.widgets && kind.Deleted?
  }

  /** Both the row and its event are committed. */
  ghost predicate Visible(s: State, id: Id, kind: Kind, via: Option<string>) {
    && (if kind.Deleted? then id !in s.widgets else id in s.widgets && s.widgets[id] == kind.row)
    && exists n :: n in s.log && s.log[n] == Entry(id, kind, via)
  }

  method FreshTx(s: State) returns (tx: TxId)
    ensures tx !in s.txs
  {
    tx := Unused(s.txs.Keys);
  }

  /** An identifier that the database has never seen. */
  method FreshId(s: State) returns (id: Id)
    ensures id !in s.used
  {
    id := Unused(s.used);
  }

  method Unused(taken: set<nat>) returns (n: nat)
    ensures n !in taken
  {
    var left := taken;
    n := 0;
    while left != {}
      invariant left <= taken
      invariant forall t :: t in taken && t !in left ==> t < n
      decreases left
    {
      var t :| t in left;
      n := if t < n then n else t + 1;
      left := left - {t};
    }
    var more: int := *;
    n := if more > 0 then n + more else n;
  }
}
