/** The committed outbox history of the widgets, by event number, and what folding it means
    (internal/modules/widget/store.go). */
module WidgetHistory {
  import opened Options

  type Id = nat

  datatype Input = Input(name: string, description: string, status: string)

  datatype Row = Row(input: Input, createdAt: nat, updatedAt: nat)

  /** Created and updated events carry the whole widget, deleted ones only its identity. */
  datatype Kind = Created(row: Row) | Updated(row: Row) | Deleted

  /** `via` is the idempotency row key of the request, if it had one. */
  datatype Entry = Entry(id: Id, kind: Kind, via: Option<string>)

  type Log = map<nat, Entry>

  /** One widget's events with numbers below `n`, in number order. */
  function Kinds(log: Log, id: Id, n: nat): seq<Kind> {
    if n == 0 then [] else
      Kinds(log, id, n - 1) + (if n - 1 in log && log[n - 1].id == id then [log[n - 1].kind] else [])
  }

  datatype Life = Unborn | Live(row: Row) | Gone | Broken

  function Advance(l: Life, k: Kind): Life {
    match k
    case Created(row) => if l.Unborn? then Live(row) else Broken
    case Updated(row) => if l.Live? && row.createdAt == l.row.createdAt then Live(row) else Broken
    case Deleted => if l.Live? then Gone else Broken
  }

  function Fold(ks: seq<Kind>): Life {
    if ks == [] then Unborn else Advance(Fold(ks[..|ks| - 1]), ks[|ks| - 1])
  }

  lemma FoldAppend(ks: seq<Kind>, k: Kind)
    ensures Fold(ks + [k]) == Advance(Fold(ks), k)
  {
    assert (ks + [k])[..|ks|] == ks;
  }

  /** created, updated*, then at most one deleted; the time of creation never changes. */
  predicate WellShaped(ks: seq<Kind>) {
    && (ks != [] ==> ks[0].Created?)
    && (forall i :: 0 < i < |ks| ==> if i == |ks| - 1 then !ks[i].Created? else ks[i].Updated?)
    && (forall i :: 0 <= i < |ks| && !ks[i].Deleted? ==> !ks[0].Deleted? && ks[i].row.createdAt == ks[0].row.createdAt)
  }

  /** A history that folds to anything at all has the promised shape, and its last event
      tells the widget's state. */
  lemma {:induction false} FoldTellsShape(ks: seq<Kind>)
    requires !Fold(ks).Broken?
    ensures WellShaped(ks)
    ensures Fold(ks) ==
      if ks == [] then Unborn else if ks[|ks| - 1].Deleted? then Gone else Live(ks[|ks| - 1].row)
  {
    if ks != [] {
      FoldTellsShape(ks[..|ks| - 1]);
    }
  }

  /** A number that is committed late may be smaller than numbers of other widgets that were
      committed before; what counts is that it exceeds the widget's own. */
  lemma {:induction false} AppendKind(log: Log, n: nat, e: Entry, id: Id, bound: nat)
    requires n !in log
    requires forall m :: m in log && log[m].id == e.id ==> m < n
    ensures Kinds(log[n := e], id, bound) ==
      Kinds(log, id, bound) + (if n < bound && id == e.id then [e.kind] else [])
  {
    if bound != 0 {
      AppendKind(log, n, e, id, bound - 1);
      if n == bound - 1 {
        assert Kinds(log, id, bound) == Kinds(log, id, bound - 1);
      }
    }
  }

  /** How many widgets were created through `key`. */
  function CreatedVia(log: Log, key: string, n: nat): nat {
    if n == 0 then 0 else
      CreatedVia(log, key, n - 1) +
        (if n - 1 in log && log[n - 1].kind.Created? && log[n - 1].via == Some(key) then 1 else 0)
  }

  lemma {:induction false} AppendCreatedVia(log: Log, n: nat, e: Entry, key: string, bound: nat)
    requires n !in log
    ensures CreatedVia(log[n := e], key, bound) ==
      CreatedVia(log, key, bound) + (if n < bound && e.kind.Created? && e.via == Some(key) then 1 else 0)
  {
    if bound != 0 {
      AppendCreatedVia(log, n, e, key, bound - 1);
    }
  }
}
