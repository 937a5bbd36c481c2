/** A catalog in which relations have identities of their own, the statements a database
    accepts on it, and how the generator's name-keyed map follows it
    (cmd/forge/resource_schema.go). */
module Catalog {
  import opened Options
  import opened Relations

  type Oid = nat

  /** `Extra` is any other relation that takes up a name: a view, a sequence, a foreign table. */
  datatype Object = Table(name: string) | Index(name: string, table: Oid) | Extra(name: string)

  /** The relations of the public schema. */
  type Catalog = map<Oid, Object>

  ghost predicate Consistent(c: Catalog) {
    && (forall o, p :: o in c && p in c && c[o].name == c[p].name ==> o == p)
    && (forall o :: o in c && c[o].Index? ==> c[o].table in c && c[c[o].table].Table?)
  }

  /** A name as written: bare names resolve to the public schema. */
  datatype Qualified = Bare(name: string) | In(schema: string, name: string)

  predicate Public(q: Qualified) {
    q.Bare? || q.schema == "public"
  }

  /** What is written: literal table and index statements, the other changes of one relation,
      and everything else. `tail` is whatever follows what matters here. A rename may use the
      word for the other kind of relation; PostgreSQL allows that. */
  datatype Statement =
    | CreateTable(unlogged: bool, ifNotExists: bool, name: Qualified, tail: seq<string>)
    | CreateIndex(unique: bool, concurrently: bool, ifNotExists: bool, index: string, only: bool, table: Qualified, tail: seq<string>)
    | DropRelations(kind: string, concurrently: bool, ifExists: bool, names: seq<Qualified>, tail: seq<string>)
    | RenameTo(kind: string, ifExists: bool, only: bool, name: Qualified, to: string)
    | UnnamedIndex(unique: bool, concurrently: bool, only: bool, table: Qualified, tail: seq<string>)
    | AlterOther(kind: string, ifExists: bool, only: bool, name: Qualified, tail: seq<string>)
    | Other(words: seq<string>)

  /** What the database does beside it: the index of a constraint, the indexes of a dropped
      column, the partitions of a dropped table, a relation that an unread statement makes. */
  datatype Effect = Effect(dropped: set<Oid>, renamed: map<Oid, string>, added: Catalog)

  /** One statement of a migration; `oid` is the identity of the relation it names, if new. */
  datatype Step = Step(statement: Statement, oid: Oid, effect: Effect)

  // ---------------------------------------------------------------- execution

  ghost predicate Named(c: Catalog, name: string, o: Oid) {
    o in c && c[o].name == name
  }

  ghost function Find(c: Catalog, name: string): (r: Option<Oid>)
    ensures r.Some? ==> Named(c, name, r.value)
    ensures r.None? ==> forall o :: o in c ==> c[o].name != name
  {
    if exists o :: Named(c, name, o) then var o :| Named(c, name, o); Some(o)
    else assert forall o :: o in c ==> !Named(c, name, o); None
  }

  function DropTable(c: Catalog, t: Oid): Catalog {
    map o | o in c && o != t && !(c[o].Index? && c[o].table == t) :: c[o]
  }

  /** None: the database rejects it. */
  ghost function DropNamed(c: Catalog, kind: string, ifExists: bool, q: Qualified): (r: Option<Catalog>)
    ensures Consistent(c) && r.Some? ==> Consistent(r.value)
  {
    if !Public(q) then Some(c) else
      match Find(c, q.name)
      case None => if ifExists then Some(c) else None
      case Some(o) =>
        if kind == "table" && c[o].Table? then Some(DropTable(c, o))
        else if kind == "index" && c[o].Index? then Some(c - {o})
        else None
  }

  ghost function DropAll(c: Catalog, kind: string, ifExists: bool, names: seq<Qualified>): (r: Option<Catalog>)
    ensures Consistent(c) && r.Some? ==> Consistent(r.value)
  {
    if names == [] then Some(c) else
      match DropNamed(c, kind, ifExists, names[0])
      case None => None
      case Some(d) => DropAll(d, kind, ifExists, names[1..])
  }

  function Renamed(x: Object, name: string): Object {
    match x
    case Table(_) => Table(name)
    case Index(_, t) => Index(name, t)
    case Extra(_) => Extra(name)
  }

  /** What the statement says it does to the public schema. */
  ghost function Execute(c: Catalog, s: Statement, oid: Oid): (r: Option<Catalog>)
    requires oid !in c
    ensures Consistent(c) && r.Some? ==> Consistent(r.value)
  {
    match s
    case CreateTable(_, ifNotExists, q, _) =>
      if !Public(q) then Some(c)
      else if Find(c, q.name).Some? then (if ifNotExists then Some(c) else None)
      else Some(c[oid := Table(q.name)])
    case CreateIndex(_, _, ifNotExists, name, _, q, _) =>
      if !Public(q) then Some(c)
      else
        (match Find(c, q.name)
         case None => None
         case Some(t) =>
           if !c[t].Table? then None
           else if Find(c, name).Some? then (if ifNotExists then Some(c) else None)
           else Some(c[oid := Index(name, t)]))
    case DropRelations(kind, _, ifExists, names, _) => DropAll(c, kind, ifExists, names)
    case RenameTo(_, ifExists, _, q, to) =>
      if !Public(q) then Some(c)
      else
        (match Find(c, q.name)
         case None => if ifExists then Some(c) else None
         case Some(o) => if Find(c, to).Some? then None else Some(c[o := Renamed(c[o], to)]))
    case UnnamedIndex(_, _, _, q, _) => if Public(q) && Find(c, q.name).None? then None else Some(c)
    case AlterOther(_, ifExists, _, q, _) =>
      if Public(q) && Find(c, q.name).None? && !ifExists then None else Some(c)
    case Other(_) => Some(c)
  }

  /** The catalog after a side effect. */
  function After(c: Catalog, e: Effect): Catalog {
    (map o | o in c && o !in e.dropped :: if o in e.renamed then Renamed(c[o], e.renamed[o]) else c[o]) + e.added
  }

  /** What the database makes of one step; None: it rejects it. Any effect that leaves a
      consistent catalog is possible. */
  ghost function Outcome(c: Catalog, step: Step): Option<Catalog>
    requires step.oid !in c
  {
    match Execute(c, step.statement, step.oid)
    case None => None
    case Some(d) =>
      if step.effect.added.Keys !! d.Keys && Consistent(After(d, step.effect)) then Some(After(d, step.effect)) else None
  }

  // ---------------------------------------------------------------- printing

  function RenderName(q: Qualified): seq<string> {
    match q
    case Bare(n) => [n]
    case In(schema, n) => [schema, ".", n]
  }

  function First(q: Qualified): string {
    if q.Bare? then q.name else q.schema
  }

  /** A list of names and what follows it. */
  function RenderNames(names: seq<Qualified>, tail: seq<string>): seq<string>
    requires names != []
    decreases |names|, 1
  {
    RenderName(names[0]) + AfterFirst(names, tail)
  }

  function AfterFirst(names: seq<Qualified>, tail: seq<string>): seq<string>
    requires names != []
    decreases |names|, 0
  {
    if |names| == 1 then tail else [","] + RenderNames(names[1..], tail)
  }

  /** The words up to the kind of relation. */
  function Head(s: Statement): seq<string>
    requires !s.Other?
  {
    match s
    case CreateTable(unlogged, _, _, _) => if unlogged then ["create", "unlogged", "table"] else ["create", "table"]
    case CreateIndex(unique, _, _, _, _, _, _) => if unique then ["create", "unique", "index"] else ["create", "index"]
    case DropRelations(kind, _, _, _, _) => ["drop", kind]
    case UnnamedIndex(unique, _, _, _, _) => if unique then ["create", "unique", "index"] else ["create", "index"]
    case RenameTo(kind, _, _, _, _) => ["alter", kind]
    case AlterOther(kind, _, _, _, _) => ["alter", kind]
  }

  /** The words between the kind and the first name. */
  function Words(s: Statement): seq<string>
    requires !s.Other?
  {
    match s
    case CreateTable(_, ine, _, _) => if ine then ["if", "not", "exists"] else []
    case CreateIndex(_, conc, ine, _, _, _, _) =>
      (if conc then ["concurrently"] else []) + (if ine then ["if", "not", "exists"] else [])
    case DropRelations(_, conc, ie, _, _) => (if conc then ["concurrently"] else []) + (if ie then ["if", "exists"] else [])
    case UnnamedIndex(_, conc, _, _, _) => if conc then ["concurrently"] else []
    case RenameTo(_, ie, only, _, _) => (if ie then ["if", "exists"] else []) + (if only then ["only"] else [])
    case AlterOther(_, ie, only, _, _) => (if ie then ["if", "exists"] else []) + (if only then ["only"] else [])
  }

  /** The first name and what follows it. */
  function Rest(s: Statement): seq<string>
    requires Writable(s) && !s.Other?
  {
    match s
    case CreateTable(_, _, q, tail) => RenderName(q) + tail
    case CreateIndex(_, _, _, name, only, q, tail) =>
      RenderName(Bare(name)) + ((if only then ["on", "only"] else ["on"]) + (RenderName(q) + tail))
    case DropRelations(_, _, _, names, tail) => RenderNames(names, tail)
    case RenameTo(_, _, _, q, to) => RenderName(q) + ["rename", "to", to]
    case UnnamedIndex(_, _, only, q, tail) => (if only then ["on", "only"] else ["on"]) + (RenderName(q) + tail)
    case AlterOther(_, _, _, q, tail) => RenderName(q) + tail
  }

  /** The tokens of a statement. */
  function Render(s: Statement): seq<string>
    requires Writable(s)
  {
    if s.Other? then s.words else Head(s) + (Words(s) + Rest(s))
  }

  predicate SkippedWord(w: string) {
    w == "if" || w == "not" || w == "exists" || w == "only" || w == "concurrently"
  }

  /** Names that do not spell one of the words skipped before a name, tails that do not go on
      with the name or the list, and no semicolons: the preflight does not look further. */
  predicate Writable(s: Statement) {
    match s
    case CreateTable(_, _, q, tail) =>
      !SkippedWord(First(q)) && (tail != [] ==> tail[0] != ".") && ";" !in RenderName(q) + tail
    case CreateIndex(_, _, _, name, _, q, tail) =>
      !SkippedWord(name) && First(q) != "only" && (tail != [] ==> tail[0] != ".") && ";" !in [name] + RenderName(q) + tail
    case DropRelations(kind, _, _, names, tail) =>
      && (kind == "table" || kind == "index")
      && names != [] && !SkippedWord(First(names[0]))
      && (tail != [] ==> tail[0] != "." && tail[0] != ",")
      && (forall q :: q in names ==> ";" !in RenderName(q)) && ";" !in tail
    case RenameTo(kind, _, _, q, to) =>
      && (kind == "table" || kind == "index")
      && !SkippedWord(First(q)) && ";" !in RenderName(q) + [to]
    case UnnamedIndex(_, _, _, q, tail) =>
      First(q) != "on" && First(q) != "." && ";" !in RenderName(q) + tail
    case AlterOther(kind, _, _, q, tail) =>
      && (kind == "table" || kind == "index")
      && !SkippedWord(First(q)) && ";" !in RenderName(q) + tail
      && (tail != [] ==> tail[0] != ".")
      && (|tail| >= 2 ==> !(tail[0] == "rename" && tail[1] == "to"))
    case Other(words) => ";" !in words && !Tracked(words)
  }

  /** Words that say they create, drop or alter a table or an index. */
  predicate Tracked(words: seq<string>) {
    && |words| >= 3
    && (words[KindAt(words)] == "table" || words[KindAt(words)] == "index")
    && (words[0] == "create" || words[0] == "drop" || words[0] == "alter")
  }

  // ---------------------------------------------------------------- the refinement

  function Describe(c: Catalog, o: Oid): Relation
    requires o in c && (c[o].Index? ==> c[o].table in c)
  {
    match c[o]
    case Table(_) => Relation("table", "")
    case Index(_, t) => Relation("index", c[t].name)
    case Extra(_) => Relation("", "")
  }

  /** The map has exactly the catalog's names, each with its kind, and every index with the
      current name of its table. */
  ghost predicate Tracks(r: RelationMap, c: Catalog) {
    && Consistent(c)
    && (forall o :: o in c ==> c[o].name in r && r[c[o].name] == Describe(c, o))
    && (forall n :: n in r ==> exists o :: Named(c, n, o))
  }

  lemma TracksFind(r: RelationMap, c: Catalog, name: string)
    requires Tracks(r, c)
    ensures name in r <==> Find(c, name).Some?
    ensures forall o: Oid :: Named(c, name, o) ==> Find(c, name) == Some(o)
  {
  }

  lemma TracksCreate(r: RelationMap, c: Catalog, oid: Oid, x: Object)
    requires Tracks(r, c) && oid !in c && x.name !in r
    requires x.Index? ==> x.table in c && c[x.table].Table?
    ensures Tracks(r[x.name := Describe(c[oid := x], oid)], c[oid := x])
  {
    var d := c[oid := x];
    var q := r[x.name := Describe(d, oid)];
    forall n | n in q ensures exists o :: Named(d, n, o) {
      if n == x.name {
        assert Named(d, n, oid);
      } else {
        var o :| Named(c, n, o);
        assert Named(d, n, o);
      }
    }
    forall p | p in d ensures d[p].name in q && q[d[p].name] == Describe(d, p) {
      if p != oid { assert r[c[p].name] == Describe(c, p); }
    }
    CreateIsConsistent(r, c, oid, x);
  }

  lemma CreateIsConsistent(r: RelationMap, c: Catalog, oid: Oid, x: Object)
    requires Tracks(r, c) && oid !in c && x.name !in r
    requires x.Index? ==> x.table in c && c[x.table].Table?
    ensures Consistent(c[oid := x])
  {
  }

  lemma TracksDropIndex(r: RelationMap, c: Catalog, o: Oid)
    requires Tracks(r, c) && o in c && c[o].Index?
    ensures Tracks(Drop(r, "index", c[o].name), c - {o})
  {
    var d := c - {o};
    var q := r - {c[o].name};
    DropIndexIsConsistent(c, o);
    forall n | n in q ensures exists p :: Named(d, n, p) {
      var p :| Named(c, n, p);
      assert Named(d, n, p);
    }
    forall p | p in d ensures d[p].name in q && q[d[p].name] == Describe(d, p) {
      assert r[c[p].name] == Describe(c, p) && p != o;
    }
  }

  lemma DropIndexIsConsistent(c: Catalog, o: Oid)
    requires Consistent(c) && o in c && c[o].Index?
    ensures Consistent(c - {o})
    ensures forall p :: p in c && p != o ==> c[p].name != c[o].name
  {
  }

  lemma TracksDropTable(r: RelationMap, c: Catalog, t: Oid)
    requires Tracks(r, c) && t in c && c[t].Table?
    ensures Tracks(Drop(r, "table", c[t].name), DropTable(c, t))
  {
    var d := DropTable(c, t);
    var name := c[t].name;
    var q := Drop(r, "table", name);
    forall o | o in c ensures o in d <==> c[o].name in q {
      assert r[c[o].name] == Describe(c, o);
    }
    forall n | n in q ensures exists p :: Named(d, n, p) {
      var p :| Named(c, n, p);
      assert Named(d, n, p);
    }
  }

  ghost predicate HasIndexes(c: Catalog, o: Oid) {
    exists i :: i in c && c[i].Index? && c[i].table == o
  }

  lemma RenameNames(r: RelationMap, c: Catalog, kind: string, o: Oid, to: string)
    requires Tracks(r, c) && o in c && to !in r
    ensures
      var d := c[o := Renamed(c[o], to)];
      Consistent(d) && forall n :: n in Relations.Rename(r, kind, c[o].name, to) ==> exists p :: Named(d, n, p)
  {
    var d := c[o := Renamed(c[o], to)];
    forall n | n in Relations.Rename(r, kind, c[o].name, to) ensures exists p :: Named(d, n, p) {
      if n == to {
        assert Named(d, n, o);
      } else {
        var p :| Named(c, n, p);
        assert Named(d, n, p);
      }
    }
  }

  lemma RenamedEntry(r: RelationMap, c: Catalog, kind: string, o: Oid, to: string, p: Oid)
    requires Tracks(r, c) && o in c && to !in r && p in c
    requires kind == "table" || !HasIndexes(c, o)
    ensures
      var d := c[o := Renamed(c[o], to)];
      var q := Relations.Rename(r, kind, c[o].name, to);
      Consistent(d) && d[p].name in q && q[d[p].name] == Describe(d, p)
  {
    RenameNames(r, c, kind, o, to);
    assert r[c[p].name] == Describe(c, p);
    if c[p].Index? {
      assert r[c[c[p].table].name] == Describe(c, c[p].table);
    }
  }

  /** Renaming through the map is right exactly when the owners follow: the statement says
      "table", or the relation has no indexes. */
  lemma {:induction false} TracksRename(r: RelationMap, c: Catalog, kind: string, o: Oid, to: string)
    requires Tracks(r, c) && o in c && to !in r
    ensures Tracks(Relations.Rename(r, kind, c[o].name, to), c[o := Renamed(c[o], to)]) <==>
      kind == "table" || !HasIndexes(c, o)
  {
    var from := c[o].name;
    if kind == "table" || !HasIndexes(c, o) {
      RenameNames(r, c, kind, o, to);
      var d := c[o := Renamed(c[o], to)];
      forall p | p in d
        ensures
          var q := Relations.Rename(r, kind, from, to);
          d[p].name in q && q[d[p].name] == Describe(d, p)
      {
        RenamedEntry(r, c, kind, o, to, p);
      }
    } else {
      StaleOwner(r, c, kind, o, to);
    }
  }

  lemma StaleOwner(r: RelationMap, c: Catalog, kind: string, o: Oid, to: string)
    requires Tracks(r, c) && o in c && to !in r
    requires kind != "table" && HasIndexes(c, o)
    ensures !Tracks(Relations.Rename(r, kind, c[o].name, to), c[o := Renamed(c[o], to)])
  {
    var i :| i in c && c[i].Index? && c[i].table == o;
    assert c[o].Table? && i != o && r[c[o].name] == Describe(c, o);
    assert r[c[i].name] == Relation("index", c[o].name);
    var d, q := c[o := Renamed(c[o], to)], Relations.Rename(r, kind, c[o].name, to);
    assert q[c[i].name].owner == c[o].name && Describe(d, i).owner == to;
  }

  // ---------------------------------------------------------------- reading a statement

  lemma {:induction false} SkipOver(tokens: seq<string>, at: nat, words: seq<string>, rest: seq<string>)
    requires at <= |tokens| && tokens[at..] == words + rest
    requires forall w :: w in words ==> w in SKIPPED
    requires rest != [] && rest[0] !in SKIPPED
    ensures SkipWords(tokens, at) == at + |words| && tokens[at + |words|..] == rest
    decreases |words|
  {
    if words == [] {
      assert tokens[at] == tokens[at..][0];
    } else {
      assert tokens[at] == tokens[at..][0] && words[0] in words;
      assert tokens[at + 1..] == tokens[at..][1..] == words[1..] + rest;
      SkipOver(tokens, at + 1, words[1..], rest);
    }
  }

  lemma NameAt(tokens: seq<string>, at: nat, q: Qualified, after: seq<string>)
    requires at <= |tokens| && tokens[at..] == RenderName(q) + after
    requires after != [] ==> after[0] != "."
    ensures RelationName(tokens, at) == Name(q.name, Public(q), at + |RenderName(q)|)
    ensures tokens[at + |RenderName(q)|..] == after
  {
    assert tokens[at] == tokens[at..][0];
    if q.In? {
      assert tokens[at + 1] == tokens[at..][1] && tokens[at + 2] == tokens[at..][2];
    } else if after != [] {
      assert tokens[at + 1] == tokens[at..][1];
    }
  }

  lemma WordsAreSkipped(s: Statement)
    requires !s.Other?
    ensures forall w :: w in Words(s) ==> w in SKIPPED
  {
  }

  lemma KindOfHead(s: Statement, more: seq<string>)
    requires Writable(s) && !s.Other? && more != []
    ensures
      var tokens := Head(s) + more;
      && |tokens| >= 3 && tokens[0] == Head(s)[0]
      && KindAt(tokens) == |Head(s)| - 1
      && tokens[KindAt(tokens)] == Head(s)[|Head(s)| - 1]
      && (tokens[KindAt(tokens)] == "table" || tokens[KindAt(tokens)] == "index")
      && tokens[|Head(s)|..] == more
  {
  }

  /** Where the first name of a statement is found. */
  lemma ReadHead(r: RelationMap, s: Statement) returns (at: nat)
    requires Writable(s) && !s.Other?
    ensures at <= |Render(s)| && Render(s)[at..] == Rest(s)
    ensures ApplyStatement(r, Render(s)) ==
      ApplyFrom(r, Render(s), Head(s)[0], Head(s)[|Head(s)| - 1], at)
  {
    RestStarts(s);
    WordsAreSkipped(s);
    KindOfHead(s, Words(s) + Rest(s));
    at := ReadParts(r, Head(s), Words(s), Rest(s), Render(s));
  }

  lemma ReadParts(r: RelationMap, head: seq<string>, words: seq<string>, rest: seq<string>, tokens: seq<string>) returns (at: nat)
    requires tokens == head + (words + rest) && head != [] && |tokens| >= 3
    requires KindAt(tokens) == |head| - 1 && (tokens[|head| - 1] == "table" || tokens[|head| - 1] == "index")
    requires forall w :: w in words ==> w in SKIPPED
    requires rest != [] && rest[0] !in SKIPPED
    ensures at <= |tokens| && tokens[at..] == rest
    ensures ApplyStatement(r, tokens) == ApplyFrom(r, tokens, head[0], head[|head| - 1], at)
  {
    ReadPast(r, head, words, rest);
    at := |head| + |words|;
  }

  /** The words before the kind, the kind, and the words skipped after it. */
  lemma ReadPast(r: RelationMap, head: seq<string>, words: seq<string>, rest: seq<string>)
    requires head != [] && |head + (words + rest)| >= 3
    requires
      var tokens := head + (words + rest);
      && KindAt(tokens) == |head| - 1
      && (tokens[|head| - 1] == "table" || tokens[|head| - 1] == "index")
    requires forall w :: w in words ==> w in SKIPPED
    requires rest != [] && rest[0] !in SKIPPED
    ensures
      var tokens := head + (words + rest);
      var at := |head| + |words|;
      && tokens[at..] == rest
      && ApplyStatement(r, tokens) == ApplyFrom(r, tokens, head[0], head[|head| - 1], at)
  {
    var tokens := head + (words + rest);
    assert tokens[|head|..] == words + rest;
    SkipOver(tokens, |head|, words, rest);
    ReadFrom(r, tokens, |head| + |words|);
    assert tokens[0] == head[0] && tokens[|head| - 1] == head[|head| - 1];
  }

  lemma ReadFrom(r: RelationMap, tokens: seq<string>, at: nat)
    requires |tokens| >= 3 && (tokens[KindAt(tokens)] == "table" || tokens[KindAt(tokens)] == "index")
    requires SkipWords(tokens, KindAt(tokens) + 1) == at
    ensures ApplyStatement(r, tokens) == ApplyFrom(r, tokens, tokens[0], tokens[KindAt(tokens)], at)
  {
  }

  lemma RestStarts(s: Statement)
    requires Writable(s) && !s.Other?
    ensures Rest(s) != [] && Rest(s)[0] !in SKIPPED
  {
    if s.DropRelations? {
      assert RenderNames(s.names, s.tail)[0] == First(s.names[0]);
    }
  }

  lemma ReadCreateTable(r: RelationMap, s: Statement)
    requires s.CreateTable? && Writable(s)
    ensures ApplyStatement(r, Render(s)) == if Public(s.name) then Create(r, s.name.name, Relation("table", "")) else r
  {
    var at := ReadHead(r, s);
    NameAt(Render(s), at, s.name, s.tail);
  }

  lemma {:induction false} ReadCreateIndex(r: RelationMap, s: Statement)
    requires s.CreateIndex? && Writable(s)
    ensures ApplyStatement(r, Render(s)) ==
      if Public(s.table) then Create(r, s.index, Relation("index", s.table.name)) else r
  {
    var at := ReadHead(r, s);
    ReadIndexAt(r, Render(s), at, s.index, s.only, s.table, s.tail);
  }

  lemma ReadIndexAt(r: RelationMap, tokens: seq<string>, at: nat, index: string, only: bool, q: Qualified, tail: seq<string>)
    requires at <= |tokens|
    requires tokens[at..] == RenderName(Bare(index)) + ((if only then ["on", "only"] else ["on"]) + (RenderName(q) + tail))
    requires First(q) != "only" && (tail != [] ==> tail[0] != ".")
    ensures ApplyFrom(r, tokens, "create", "index", at) ==
      if Public(q) then Create(r, index, Relation("index", q.name)) else r
  {
    NameAt(tokens, at, Bare(index), (if only then ["on", "only"] else ["on"]) + (RenderName(q) + tail));
    ReadOwner(tokens, at + 1, only, q, tail);
  }

  lemma ReadOwner(tokens: seq<string>, at: nat, only: bool, q: Qualified, tail: seq<string>)
    requires at <= |tokens| && tokens[at..] == (if only then ["on", "only"] else ["on"]) + (RenderName(q) + tail)
    requires First(q) != "only" && (tail != [] ==> tail[0] != ".")
    ensures
      var next := if at + 1 < |tokens| && tokens[at + 1] == "only" then at + 2 else at + 1;
      && at < |tokens| && tokens[at] == "on"
      && RelationName(tokens, next).name == q.name && RelationName(tokens, next).public == Public(q)
  {
    var rest := tokens[at..];
    assert tokens[at] == rest[0] && tokens[at + 1] == rest[1];
    var next := if only then at + 2 else at + 1;
    assert tokens[next..] == rest[if only then 2 else 1..] == RenderName(q) + tail;
    NameAt(tokens, next, q, tail);
  }

  function DropNames(r: RelationMap, kind: string, names: seq<Qualified>): RelationMap {
    if names == [] then r else
      DropNames(if Public(names[0]) then Drop(r, kind, names[0].name) else r, kind, names[1..])
  }

  /** One name of a list: dropped, and the list goes on if a comma follows. */
  lemma ReadName(r: RelationMap, tokens: seq<string>, kind: string, at: nat, q: Qualified, after: seq<string>)
    requires at <= |tokens| && tokens[at..] == RenderName(q) + after
    requires after != [] ==> after[0] != "."
    ensures
      var r' := if Public(q) then Drop(r, kind, q.name) else r;
      var next := at + |RenderName(q)|;
      && next <= |tokens| && tokens[next..] == after
      && ApplyFrom(r, tokens, "drop", kind, at) ==
           if after != [] && after[0] == "," then ApplyFrom(r', tokens, "drop", kind, next + 1) else r'
  {
    NameAt(tokens, at, q, after);
    var next := at + |RenderName(q)|;
    assert after != [] ==> tokens[next] == tokens[next..][0];
  }

  lemma {:induction false} ReadNames(r: RelationMap, tokens: seq<string>, kind: string, at: nat, names: seq<Qualified>, tail: seq<string>)
    requires names != [] && at <= |tokens| && tokens[at..] == RenderNames(names, tail)
    requires tail != [] ==> tail[0] != "." && tail[0] != ","
    ensures ApplyFrom(r, tokens, "drop", kind, at) == DropNames(r, kind, names)
    decreases |names|
  {
    var q := names[0];
    RenderFirst(names, tail);
    DropFirst(r, kind, names);
    if |names| > 1 {
      ReadFirst(r, tokens, kind, at, q, true, RenderNames(names[1..], tail));
      ReadNames(if Public(q) then Drop(r, kind, q.name) else r, tokens, kind, at + |RenderName(q)| + 1, names[1..], tail);
    } else {
      ReadFirst(r, tokens, kind, at, q, false, tail);
    }
  }

  lemma RenderFirst(names: seq<Qualified>, tail: seq<string>)
    requires names != []
    ensures RenderNames(names, tail) ==
      RenderName(names[0]) + (if |names| > 1 then [","] + RenderNames(names[1..], tail) else tail)
  {
  }

  /** The first name of a list is dropped, and what follows a comma is read next. */
  lemma ReadFirst(r: RelationMap, tokens: seq<string>, kind: string, at: nat, q: Qualified, more: bool, rest: seq<string>)
    requires at <= |tokens| && tokens[at..] == RenderName(q) + (if more then [","] + rest else rest)
    requires !more && rest != [] ==> rest[0] != "." && rest[0] != ","
    ensures
      var dropped := if Public(q) then Drop(r, kind, q.name) else r;
      var next := at + |RenderName(q)| + 1;
      if more then
        next <= |tokens| && tokens[next..] == rest
        && ApplyFrom(r, tokens, "drop", kind, at) == ApplyFrom(dropped, tokens, "drop", kind, next)
      else
        ApplyFrom(r, tokens, "drop", kind, at) == dropped
  {
    ReadName(r, tokens, kind, at, q, if more then [","] + rest else rest);
    if more { AfterComma(tokens, at + |RenderName(q)|, rest); }
  }

  lemma DropFirst(r: RelationMap, kind: string, names: seq<Qualified>)
    requires names != []
    ensures
      var dropped := if Public(names[0]) then Drop(r, kind, names[0].name) else r;
      DropNames(r, kind, names) == if |names| == 1 then dropped else DropNames(dropped, kind, names[1..])
  {
    assert |names| == 1 ==> names[1..] == [];
  }

  lemma AfterComma(tokens: seq<string>, next: nat, more: seq<string>)
    requires next <= |tokens| && tokens[next..] == [","] + more
    ensures next < |tokens| && tokens[next + 1..] == more
  {
    assert tokens[next + 1..] == tokens[next..][1..];
  }

  lemma ReadDrop(r: RelationMap, s: Statement)
    requires s.DropRelations? && Writable(s)
    ensures ApplyStatement(r, Render(s)) == DropNames(r, s.kind, s.names)
  {
    var at := ReadHead(r, s);
    ReadNames(r, Render(s), s.kind, at, s.names, s.tail);
  }

  lemma ReadRename(r: RelationMap, s: Statement)
    requires s.RenameTo? && Writable(s)
    ensures ApplyStatement(r, Render(s)) == if Public(s.name) then Relations.Rename(r, s.kind, s.name.name, s.to) else r
  {
    var at := ReadHead(r, s);
    ReadRenameAt(r, Render(s), s.kind, at, s.name, s.to);
  }

  lemma ReadRenameAt(r: RelationMap, tokens: seq<string>, kind: string, at: nat, q: Qualified, to: string)
    requires at <= |tokens| && tokens[at..] == RenderName(q) + ["rename", "to", to]
    ensures ApplyFrom(r, tokens, "alter", kind, at) == if Public(q) then Relations.Rename(r, kind, q.name, to) else r
  {
    NameAt(tokens, at, q, ["rename", "to", to]);
    var next := at + |RenderName(q)|;
    assert tokens[next] == tokens[next..][0] && tokens[next + 1] == tokens[next..][1] && tokens[next + 2] == tokens[next..][2];
  }

  lemma ReadAlterOther(r: RelationMap, s: Statement)
    requires s.AlterOther? && Writable(s)
    ensures ApplyStatement(r, Render(s)) == r
  {
    var at := ReadHead(r, s);
    ReadAlterAt(r, Render(s), s.kind, at, s.name, s.tail);
  }

  lemma ReadAlterAt(r: RelationMap, tokens: seq<string>, kind: string, at: nat, q: Qualified, tail: seq<string>)
    requires at <= |tokens| && tokens[at..] == RenderName(q) + tail
    requires tail != [] ==> tail[0] != "."
    requires |tail| >= 2 ==> !(tail[0] == "rename" && tail[1] == "to")
    ensures ApplyFrom(r, tokens, "alter", kind, at) == r
  {
    NameAt(tokens, at, q, tail);
    var next := at + |RenderName(q)|;
    if |tail| >= 2 {
      assert tokens[next] == tokens[next..][0] && tokens[next + 1] == tokens[next..][1];
    }
  }

  lemma ReadUnnamedIndex(r: RelationMap, s: Statement)
    requires s.UnnamedIndex? && Writable(s)
    ensures ApplyStatement(r, Render(s)) == r
  {
    var at := ReadHead(r, s);
    ReadUnnamedAt(r, Render(s), at, s.only, s.table, s.tail);
  }

  /** "on" is taken for the name, and then no "on" follows. */
  lemma ReadUnnamedAt(r: RelationMap, tokens: seq<string>, at: nat, only: bool, q: Qualified, tail: seq<string>)
    requires at <= |tokens| && tokens[at..] == (if only then ["on", "only"] else ["on"]) + (RenderName(q) + tail)
    requires First(q) != "on" && First(q) != "."
    ensures ApplyFrom(r, tokens, "create", "index", at) == r
  {
    var rest := tokens[at..];
    assert tokens[at] == rest[0] && tokens[at + 1] == rest[1];
  }

  /** Words that are not tracked change nothing, even if they name a table. */
  lemma ReadOther(r: RelationMap, words: seq<string>)
    requires !Tracked(words)
    ensures ApplyStatement(r, words) == r
  {
    if |words| >= 3 && (words[KindAt(words)] == "table" || words[KindAt(words)] == "index") {
      OtherAction(r, words, words[0], words[KindAt(words)], SkipWords(words, KindAt(words) + 1));
    }
  }

  lemma OtherAction(r: RelationMap, tokens: seq<string>, action: string, kind: string, at: nat)
    requires action != "create" && action != "drop" && action != "alter"
    ensures ApplyFrom(r, tokens, action, kind, at) == r
  {
  }

  // ---------------------------------------------------------------- whole migrations

  /** ALTER INDEX naming a public table that has indexes. */
  ghost predicate Misdirected(c: Catalog, s: Statement) {
    && s.RenameTo? && s.kind == "index" && Public(s.name)
    && Find(c, s.name.name).Some? && HasIndexes(c, Find(c, s.name.name).value)
  }

  lemma {:induction false} TracksDropAll(r: RelationMap, c: Catalog, kind: string, ifExists: bool, names: seq<Qualified>)
    requires Tracks(r, c) && (kind == "table" || kind == "index")
    requires DropAll(c, kind, ifExists, names).Some?
    ensures Tracks(DropNames(r, kind, names), DropAll(c, kind, ifExists, names).value)
    decreases |names|
  {
    if names != [] {
      var q := names[0];
      TracksDropNamed(r, c, kind, ifExists, q);
      TracksDropAll(if Public(q) then Drop(r, kind, q.name) else r, DropNamed(c, kind, ifExists, q).value,
                    kind, ifExists, names[1..]);
    }
  }

  lemma {:induction false} TracksDropNamed(r: RelationMap, c: Catalog, kind: string, ifExists: bool, q: Qualified)
    requires Tracks(r, c) && (kind == "table" || kind == "index")
    requires DropNamed(c, kind, ifExists, q).Some?
    ensures Tracks(if Public(q) then Drop(r, kind, q.name) else r, DropNamed(c, kind, ifExists, q).value)
  {
    if Public(q) {
      TracksFind(r, c, q.name);
      match Find(c, q.name)
      case Some(o) =>
        if kind == "table" { TracksDropTable(r, c, o); } else { TracksDropIndex(r, c, o); }
      case None => DropAbsent(r, c, kind, q.name);
    }
  }

  lemma DropAbsent(r: RelationMap, c: Catalog, kind: string, name: string)
    requires Tracks(r, c) && name !in r
    ensures Drop(r, kind, name) == r
  {
    forall i | i in r ensures i !in OwnedBy(r, name) {
      var o :| Named(c, i, o);
      assert r[c[o].name] == Describe(c, o);
      if c[o].Index? { assert c[c[o].table].name in r; }
    }
    assert r - {name} == r;
  }

  /** Doing what a statement says, the map follows the catalog if and only if the statement is
      not an ALTER INDEX that renames a table with indexes. */
  lemma StatementRefines(r: RelationMap, c: Catalog, s: Statement, oid: Oid)
    requires Tracks(r, c) && Writable(s) && oid !in c && Execute(c, s, oid).Some?
    ensures Tracks(ApplyStatement(r, Render(s)), Execute(c, s, oid).value) <==> !Misdirected(c, s)
  {
    match s
    case CreateTable(_, _, q, _) =>
      ReadCreateTable(r, s);
      TracksFind(r, c, q.name);
      if Public(q) && q.name !in r { TracksCreate(r, c, oid, Table(q.name)); }
    case CreateIndex(_, _, _, name, _, q, _) =>
      ReadCreateIndex(r, s);
      TracksFind(r, c, q.name);
      TracksFind(r, c, name);
      if Public(q) && name !in r { TracksCreate(r, c, oid, Index(name, Find(c, q.name).value)); }
    case DropRelations(kind, _, ifExists, names, _) =>
      ReadDrop(r, s);
      TracksDropAll(r, c, kind, ifExists, names);
    case RenameTo(kind, _, _, q, to) =>
      ReadRename(r, s);
      TracksFind(r, c, q.name);
      TracksFind(r, c, to);
      if Public(q) && q.name in r { TracksRename(r, c, kind, Find(c, q.name).value, to); }
    case UnnamedIndex(_, _, _, _, _) =>
      ReadUnnamedIndex(r, s);
    case AlterOther(_, _, _, _, _) =>
      ReadAlterOther(r, s);
    case Other(words) =>
      ReadOther(r, words);
  }

  // ---------------------------------------------------------------- side effects

  /** A relation of this name, kind and, for an index, table. */
  ghost predicate Has(c: Catalog, n: string, d: Relation)
    requires Consistent(c)
  {
    exists o :: Named(c, n, o) && Describe(c, o) == d
  }

  /** The same relations, by name, kind and table, whatever their identities. */
  ghost predicate SameRelations(c: Catalog, d: Catalog)
    requires Consistent(c) && Consistent(d)
  {
    forall n, x :: Has(c, n, x) <==> Has(d, n, x)
  }

  lemma TracksHas(r: RelationMap, c: Catalog, n: string, x: Relation)
    requires Tracks(r, c)
    ensures Has(c, n, x) <==> n in r && r[n] == x
  {
    if n in r && r[n] == x {
      var o :| Named(c, n, o);
      assert r[c[o].name] == Describe(c, o);
    }
    if Has(c, n, x) {
      var o :| Named(c, n, o) && Describe(c, o) == x;
      assert c[o].name in r && r[c[o].name] == Describe(c, o);
    }
  }

  /** A map follows two catalogs only if they have the same relations. */
  lemma OneView(r: RelationMap, c: Catalog, d: Catalog)
    requires Tracks(r, c) && Consistent(d)
    ensures Tracks(r, d) <==> SameRelations(c, d)
  {
    forall n, x ensures Has(c, n, x) <==> n in r && r[n] == x { TracksHas(r, c, n, x); }
    if Tracks(r, d) {
      forall n, x ensures Has(d, n, x) <==> n in r && r[n] == x { TracksHas(r, d, n, x); }
    }
    if SameRelations(c, d) {
      forall o | o in d ensures d[o].name in r && r[d[o].name] == Describe(d, o) {
        assert Named(d, d[o].name, o) && Has(d, d[o].name, Describe(d, o));
      }
      forall n | n in r ensures exists o :: Named(d, n, o) {
        assert Has(c, n, r[n]) && Has(d, n, r[n]);
      }
    }
  }

  lemma OwnersAreTracked(r: RelationMap, c: Catalog, n: string)
    requires Tracks(r, c) && n in r && r[n].kind == "index"
    ensures r[n].owner in r
  {
    var o :| Named(c, n, o);
    assert r[c[o].name] == Describe(c, o);
  }

  /** A misdirected rename leaves the map with an index whose table it does not have ... */
  lemma OrphanedIndex(r: RelationMap, c: Catalog, o: Oid, to: string) returns (n: string)
    requires Tracks(r, c) && o in c && to !in r && HasIndexes(c, o)
    ensures
      var q := Relations.Rename(r, "index", c[o].name, to);
      n in q && q[n] == Relation("index", c[o].name) && c[o].name !in q
  {
    var i :| i in c && c[i].Index? && c[i].table == o;
    assert r[c[i].name] == Describe(c, i) && r[c[o].name] == Describe(c, o);
    n := c[i].name;
  }

  /** ... so the map follows no catalog at all. */
  lemma MisdirectedFollowsNothing(r: RelationMap, c: Catalog, s: Statement, oid: Oid, d: Catalog)
    requires Tracks(r, c) && Writable(s) && oid !in c && Execute(c, s, oid).Some? && Misdirected(c, s)
    ensures !Tracks(ApplyStatement(r, Render(s)), d)
  {
    ReadRename(r, s);
    TracksFind(r, c, s.to);
    var n := OrphanedIndex(r, c, Find(c, s.name.name).value, s.to);
    if Tracks(ApplyStatement(r, Render(s)), d) { OwnersAreTracked(ApplyStatement(r, Render(s)), d, n); }
  }

  /** The statement is not misdirected, and what the database does beside it leaves the
      relations as the statement alone would. */
  ghost predicate Faithful(c: Catalog, step: Step)
    requires Consistent(c) && step.oid !in c && Outcome(c, step).Some?
  {
    !Misdirected(c, step.statement) && SameRelations(Execute(c, step.statement, step.oid).value, Outcome(c, step).value)
  }

  /** For every statement the database accepts, and whatever it does beside what is written,
      the map follows if and only if the step is faithful. */
  lemma StepRefines(r: RelationMap, c: Catalog, step: Step)
    requires Tracks(r, c) && Writable(step.statement) && step.oid !in c && Outcome(c, step).Some?
    ensures Tracks(ApplyStatement(r, Render(step.statement)), Outcome(c, step).value) <==> Faithful(c, step)
  {
    var s := step.statement;
    if Misdirected(c, s) {
      MisdirectedFollowsNothing(r, c, s, step.oid, Outcome(c, step).value);
    } else {
      StatementRefines(r, c, s, step.oid);
      OneView(ApplyStatement(r, Render(s)), Execute(c, s, step.oid).value, Outcome(c, step).value);
    }
  }

  // ---------------------------------------------------------------- whole migrations

  /** Steps that the database accepts one after another. */
  ghost predicate Accepted(c: Catalog, steps: seq<Step>)
    decreases |steps|
  {
    steps != [] ==>
      && Writable(steps[0].statement) && steps[0].oid !in c
      && Outcome(c, steps[0]).Some?
      && Accepted(Outcome(c, steps[0]).value, steps[1..])
  }

  /** All of them faithful. */
  ghost predicate Followed(c: Catalog, steps: seq<Step>)
    requires Consistent(c) && Accepted(c, steps)
    decreases |steps|
  {
    steps != [] ==> Faithful(c, steps[0]) && Followed(Outcome(c, steps[0]).value, steps[1..])
  }

  ghost function ExecuteAll(c: Catalog, steps: seq<Step>): (d: Catalog)
    requires Consistent(c) && Accepted(c, steps)
    ensures Consistent(d)
    decreases |steps|
  {
    if steps == [] then c else ExecuteAll(Outcome(c, steps[0]).value, steps[1..])
  }

  /** The map follows the catalog after every prefix of the steps. */
  ghost predicate TracksThroughout(r: RelationMap, c: Catalog, steps: seq<Step>)
    requires Accepted(c, steps)
    decreases |steps|
  {
    Tracks(r, c) &&
    (steps != [] ==>
       TracksThroughout(ApplyStatement(r, Render(steps[0].statement)), Outcome(c, steps[0]).value, steps[1..]))
  }

  function RenderAll(steps: seq<Step>): seq<string>
    requires forall s :: s in steps ==> Writable(s.statement)
  {
    if steps == [] then [] else Render(steps[0].statement) + ([";"] + RenderAll(steps[1..]))
  }

  /** The same without the last semicolon. */
  function RenderOpen(steps: seq<Step>): seq<string>
    requires steps != [] && forall s :: s in steps ==> Writable(s.statement)
    decreases |steps|
  {
    if |steps| == 1 then Render(steps[0].statement)
    else Render(steps[0].statement) + ([";"] + RenderOpen(steps[1..]))
  }

  /** A migration's tokens: the last semicolon may be missing. */
  ghost predicate Spells(tokens: seq<string>, steps: seq<Step>) {
    && (forall s :: s in steps ==> Writable(s.statement))
    && (tokens == RenderAll(steps) || (steps != [] && tokens == RenderOpen(steps)))
  }

  lemma {:induction false} AcceptedIsWritable(c: Catalog, steps: seq<Step>)
    requires Accepted(c, steps)
    ensures forall s :: s in steps ==> Writable(s.statement)
    decreases |steps|
  {
    if steps != [] {
      AcceptedIsWritable(Outcome(c, steps[0]).value, steps[1..]);
      assert steps == [steps[0]] + steps[1..];
    }
  }

  lemma {:induction false} EndsAtSemicolon(tokens: seq<string>, more: seq<string>)
    requires ";" !in tokens
    ensures StatementEnd(tokens + ([";"] + more)) == |tokens|
    decreases |tokens|
  {
    var all := tokens + ([";"] + more);
    if tokens == [] {
      assert all[0] == ";";
    } else {
      assert tokens[0] in tokens;
      assert all[1..] == tokens[1..] + ([";"] + more);
      EndsAtSemicolon(tokens[1..], more);
    }
  }

  lemma {:induction false} NoSemicolonInNames(names: seq<Qualified>, tail: seq<string>)
    requires names != [] && (forall q :: q in names ==> ";" !in RenderName(q)) && ";" !in tail
    ensures ";" !in RenderNames(names, tail)
    decreases |names|
  {
    assert names[0] in names;
    if |names| > 1 {
      NoSemicolonInNames(names[1..], tail);
    }
  }

  lemma {:induction false} NoSemicolon(s: Statement)
    requires Writable(s)
    ensures ";" !in Render(s)
  {
    if s.Other? { return; }
    assert ";" !in Head(s);
    WordsAreSkipped(s);
    assert ";" !in SKIPPED;
    if s.DropRelations? {
      NoSemicolonInNames(s.names, s.tail);
    }
    assert ";" !in Rest(s);
  }

  lemma ApplyFirst(r: RelationMap, first: seq<string>, more: seq<string>)
    requires ";" !in first
    ensures ApplyAll(r, first + ([";"] + more)) == ApplyAll(ApplyStatement(r, first), more)
  {
    var tokens := first + ([";"] + more);
    EndsAtSemicolon(first, more);
    assert tokens[..|first|] == first && tokens[|first| + 1..] == more;
  }

  lemma {:induction false} ApplyOnly(r: RelationMap, tokens: seq<string>)
    requires ";" !in tokens
    ensures ApplyAll(r, tokens) == ApplyStatement(r, tokens)
  {
    if tokens != [] {
      NoEnd(tokens);
      assert tokens[..|tokens|] == tokens && tokens[|tokens|..] == [];
      assert ApplyAll(ApplyStatement(r, tokens), []) == ApplyStatement(r, tokens);
    }
  }

  lemma {:induction false} NoEnd(tokens: seq<string>)
    requires ";" !in tokens
    ensures StatementEnd(tokens) == |tokens|
    decreases |tokens|
  {
    if tokens != [] {
      assert tokens[0] in tokens;
      NoEnd(tokens[1..]);
    }
  }

  /** The last semicolon does not matter. */
  lemma {:induction false} OpenIsSame(r: RelationMap, steps: seq<Step>)
    requires steps != [] && forall s :: s in steps ==> Writable(s.statement)
    ensures ApplyAll(r, RenderOpen(steps)) == ApplyAll(r, RenderAll(steps))
    decreases |steps|
  {
    var first := Render(steps[0].statement);
    NoSemicolon(steps[0].statement);
    ApplyFirst(r, first, RenderAll(steps[1..]));
    if |steps| == 1 {
      ApplyOnly(r, first);
      assert steps[1..] == [];
    } else {
      ApplyFirst(r, first, RenderOpen(steps[1..]));
      OpenIsSame(ApplyStatement(r, first), steps[1..]);
    }
  }

  /** For every list of steps that the database accepts: the map follows the catalog all the
      way if and only if every step is faithful. */
  lemma {:induction false} MigrationsRefine(r: RelationMap, c: Catalog, steps: seq<Step>)
    requires Tracks(r, c) && Accepted(c, steps)
    ensures TracksThroughout(r, c, steps) <==> Followed(c, steps)
    decreases |steps|
  {
    if steps != [] {
      StepRefines(r, c, steps[0]);
      if Faithful(c, steps[0]) {
        MigrationsRefine(ApplyStatement(r, Render(steps[0].statement)), Outcome(c, steps[0]).value, steps[1..]);
      }
    }
  }

  /** What the loop over a migration's tokens does is what its statements do. */
  lemma {:induction false} SpelledSteps(r: RelationMap, c: Catalog, steps: seq<Step>, tokens: seq<string>)
    requires Accepted(c, steps) && Consistent(c) && Spells(tokens, steps)
    requires TracksThroughout(r, c, steps)
    ensures Tracks(ApplyAll(r, tokens), ExecuteAll(c, steps))
    decreases |steps|
  {
    if steps != [] {
      if tokens == RenderOpen(steps) { OpenIsSame(r, steps); }
      NoSemicolon(steps[0].statement);
      ApplyFirst(r, Render(steps[0].statement), RenderAll(steps[1..]));
      SpelledSteps(ApplyStatement(r, Render(steps[0].statement)), Outcome(c, steps[0]).value, steps[1..], RenderAll(steps[1..]));
    }
  }

  /** Migrations in version order, each a list of steps. */
  ghost predicate AcceptedFiles(c: Catalog, files: seq<seq<Step>>)
    requires Consistent(c)
    decreases |files|
  {
    files != [] ==> Accepted(c, files[0]) && AcceptedFiles(ExecuteAll(c, files[0]), files[1..])
  }

  ghost predicate FollowedFiles(c: Catalog, files: seq<seq<Step>>)
    requires Consistent(c) && AcceptedFiles(c, files)
    decreases |files|
  {
    files != [] ==> Followed(c, files[0]) && FollowedFiles(ExecuteAll(c, files[0]), files[1..])
  }

  ghost function ExecuteFiles(c: Catalog, files: seq<seq<Step>>): (d: Catalog)
    requires Consistent(c) && AcceptedFiles(c, files)
    ensures Consistent(d)
    decreases |files|
  {
    if files == [] then c else ExecuteFiles(ExecuteAll(c, files[0]), files[1..])
  }

  /** `sources` are the tokens of the migrations `files`. */
  ghost predicate Sources(files: seq<seq<Step>>, sources: seq<seq<string>>) {
    |sources| == |files| && forall i :: 0 <= i < |files| ==> Spells(sources[i], files[i])
  }

  lemma {:induction false} FilesRefine(r: RelationMap, c: Catalog, files: seq<seq<Step>>, sources: seq<seq<string>>)
    requires Tracks(r, c) && AcceptedFiles(c, files) && FollowedFiles(c, files) && Sources(files, sources)
    ensures Tracks(ApplyFiles(r, sources), ExecuteFiles(c, files))
    decreases |files|
  {
    if files != [] {
      MigrationsRefine(r, c, files[0]);
      SpelledSteps(r, c, files[0], sources[0]);
      FilesRefine(ApplyAll(r, sources[0]), ExecuteAll(c, files[0]), files[1..], sources[1..]);
    }
  }
}
