/** The relation names that a list of migration statements leaves in the public schema, as
    the resource generator tracks them (cmd/forge/resource_schema.go). */
module Relations {
  import opened Options
  import SqlTokens

  datatype Relation = Relation(kind: string, owner: string)

  type RelationMap = map<string, Relation>

  const SKIPPED: set<string> := {"if", "not", "exists", "only", "concurrently"}

  datatype Name = Name(name: string, public: bool, next: nat)

  /** migrationRelationName: one identifier, or two with a dot between. */
  function RelationName(tokens: seq<string>, at: nat): (n: Name)
    ensures at < |tokens| ==> at < n.next <= |tokens|
    ensures at >= |tokens| ==> n == Name("", false, at)
  {
    if at >= |tokens| then Name("", false, at)
    else if at + 2 < |tokens| && tokens[at + 1] == "." then Name(tokens[at + 2], tokens[at] == "public", at + 3)
    else Name(tokens[at], true, at + 1)
  }

  function SkipWords(tokens: seq<string>, at: nat): (r: nat)
    requires at <= |tokens|
    ensures at <= r <= |tokens|
    decreases |tokens| - at
  {
    if at < |tokens| && tokens[at] in SKIPPED then SkipWords(tokens, at + 1) else at
  }

  function Create(relations: RelationMap, name: string, r: Relation): RelationMap {
    if name in relations then relations else relations[name := r]
  }

  function OwnedBy(relations: RelationMap, owner: string): set<string> {
    set i | i in relations && relations[i].kind == "index" && relations[i].owner == owner
  }

  function Drop(relations: RelationMap, kind: string, name: string): RelationMap {
    if kind == "table" then (relations - {name}) - OwnedBy(relations - {name}, name) else relations - {name}
  }

  function Reown(relations: RelationMap, from: string, to: string): RelationMap {
    map i | i in relations ::
      if i in OwnedBy(relations, from) then relations[i].(owner := to) else relations[i]
  }

  function Rename(relations: RelationMap, kind: string, from: string, to: string): RelationMap {
    if from !in relations then relations else
      var moved := (relations - {from})[to := relations[from]];
      if kind == "table" then Reown(moved, from, to) else moved
  }

  /** One relation of a statement, from the token at `at`; None ends the statement early. */
  datatype Parsed = Parsed(name: string, public: bool, owner: string, next: nat)

  function ParseRelation(tokens: seq<string>, action: string, kind: string, at: nat): (p: Option<Parsed>)
    requires at < |tokens|
    ensures p.Some? ==> at < p.value.next
  {
    var n := RelationName(tokens, at);
    if action == "create" && kind == "index" then
      if n.next >= |tokens| || tokens[n.next] != "on" then None else
        var on := if n.next + 1 < |tokens| && tokens[n.next + 1] == "only" then n.next + 2 else n.next + 1;
        var owner := RelationName(tokens, on);
        Some(Parsed(n.name, n.public && owner.public, owner.name, owner.next))
    else
      Some(Parsed(n.name, n.public, "", n.next))
  }

  function ApplyOne(relations: RelationMap, tokens: seq<string>, action: string, kind: string, p: Parsed): RelationMap {
    if !p.public then relations
    else if action == "create" then Create(relations, p.name, Relation(kind, p.owner))
    else if action == "drop" then Drop(relations, kind, p.name)
    else if action == "alter" && p.next + 2 < |tokens| && tokens[p.next] == "rename" && tokens[p.next + 1] == "to" then
      Rename(relations, kind, p.name, tokens[p.next + 2])
    else relations
  }

  function ApplyFrom(relations: RelationMap, tokens: seq<string>, action: string, kind: string, at: nat): RelationMap
    decreases |tokens| - at
  {
    if at >= |tokens| then relations else
      match ParseRelation(tokens, action, kind, at)
      case None => relations
      case Some(p) =>
        var changed := ApplyOne(relations, tokens, action, kind, p);
        if action != "drop" || p.next >= |tokens| || tokens[p.next] != "," then changed
        else ApplyFrom(changed, tokens, action, kind, p.next + 1)
  }

  /** Where the kind of relation stands in a statement. */
  function KindAt(tokens: seq<string>): nat
    requires |tokens| >= 3
  {
    if tokens[0] == "create" && (tokens[1] == "unlogged" || tokens[1] == "unique") then 2 else 1
  }

  function ApplyStatement(relations: RelationMap, tokens: seq<string>): RelationMap {
    if |tokens| < 3 then relations else
      var at := KindAt(tokens);
      if tokens[at] != "table" && tokens[at] != "index" then relations
      else ApplyFrom(relations, tokens, tokens[0], tokens[at], SkipWords(tokens, at + 1))
  }

  function StatementEnd(tokens: seq<string>): (n: nat)
    ensures n <= |tokens|
  {
    if tokens == [] || tokens[0] == ";" then 0 else 1 + StatementEnd(tokens[1..])
  }

  /** The statements of a token list, split at its semicolons and applied in order. */
  function ApplyAll(relations: RelationMap, tokens: seq<string>): RelationMap
    decreases |tokens|
  {
    if tokens == [] then relations else
      var end := StatementEnd(tokens);
      ApplyAll(ApplyStatement(relations, tokens[..end]), tokens[if end < |tokens| then end + 1 else end..])
  }

  function ApplyFiles(relations: RelationMap, sources: seq<seq<string>>): RelationMap
    decreases |sources|
  {
    if sources == [] then relations else ApplyFiles(ApplyAll(relations, sources[0]), sources[1..])
  }

  /** The tokens of each migration. */
  function Lexed(texts: seq<string>): (r: seq<seq<string>>)
    ensures |r| == |texts| && forall i :: 0 <= i < |texts| ==> r[i] == SqlTokens.Tokens(texts[i])
  {
    seq(|texts|, i requires 0 <= i < |texts| => SqlTokens.Tokens(texts[i]))
  }

  /** The migrations already have a relation that the resource `name` would create. */
  predicate Conflicts(sources: seq<seq<string>>, name: string) {
    var relations := ApplyFiles(map[], sources);
    name in relations || name + "_list_idx" in relations
  }

  method SkipKeywords(tokens: seq<string>, start: nat) returns (at: nat)
    requires start <= |tokens|
    ensures at == SkipWords(tokens, start)
  {
    at := start;
    while at < |tokens| && tokens[at] in SKIPPED
      invariant at <= |tokens| && SkipWords(tokens, at) == SkipWords(tokens, start)
      decreases |tokens| - at
    {
      at := at + 1;
    }
  }

  /** The map the generator updates in place while it reads the migrations. */
  class Tracker {
    var relations: RelationMap

    constructor ()
      ensures relations == map[]
    {
      relations := map[];
    }

    method DropRelation(kind: string, name: string)
      modifies this
      ensures relations == Drop(old(relations), kind, name)
    {
      relations := relations - {name};
      if kind == "table" {
        ghost var before := relations;
        var left := relations.Keys;
        while left != {}
          invariant left <= before.Keys
          invariant relations == before - (OwnedBy(before, name) - left)
          decreases left
        {
          var index :| index in left;
          left := left - {index};
          if relations[index].kind == "index" && relations[index].owner == name {
            relations := relations - {index};
          }
        }
      }
    }

    method RenameRelation(kind: string, name: string, renamed: string)
      modifies this
      ensures relations == Rename(old(relations), kind, name, renamed)
    {
      if name !in relations { return; }
      var existing := relations[name];
      relations := relations - {name};
      relations := relations[renamed := existing];
      if kind == "table" {
        ghost var before := relations;
        var left := relations.Keys;
        while left != {}
          invariant left <= before.Keys == relations.Keys
          invariant forall i :: i in before ==>
            relations[i] == if i !in left then Reown(before, name, renamed)[i] else before[i]
          decreases left
        {
          var index :| index in left;
          left := left - {index};
          if relations[index].kind == "index" && relations[index].owner == name {
            relations := relations[index := relations[index].(owner := renamed)];
          }
        }
        assert relations == Reown(before, name, renamed);
      }
    }

    /** One relation of a statement; what follows it, unless the statement ends here. */
    method ApplyRelation(tokens: seq<string>, action: string, kind: string, start: nat) returns (next: Option<nat>)
      requires start < |tokens|
      modifies this
      ensures
        match ParseRelation(tokens, action, kind, start)
        case None => next == None && relations == old(relations)
        case Some(p) => next == Some(p.next) && relations == ApplyOne(old(relations), tokens, action, kind, p)
    {
      var n := RelationName(tokens, start);
      var name, public, at := n.name, n.public, n.next;
      var relation := Relation(kind, "");
      if action == "create" && kind == "index" {
        if at >= |tokens| || tokens[at] != "on" { return None; }
        at := at + 1;
        if at < |tokens| && tokens[at] == "only" {
          at := at + 1;
        }
        var owner := RelationName(tokens, at);
        public := public && owner.public;
        relation := relation.(owner := owner.name);
        at := owner.next;
      }
      assert ParseRelation(tokens, action, kind, start) == Some(Parsed(name, public, relation.owner, at));
      next := Some(at);
      if public {
        if action == "create" {
          if name !in relations {
            relations := relations[name := relation];
          }
        } else if action == "drop" {
          DropRelation(kind, name);
        } else if action == "alter" {
          if at + 2 < |tokens| && tokens[at] == "rename" && tokens[at + 1] == "to" {
            RenameRelation(kind, name, tokens[at + 2]);
          }
        }
      }
    }

    /** applyRelationStatement. */
    method ApplyRelationStatement(tokens: seq<string>)
      modifies this
      ensures relations == ApplyStatement(old(relations), tokens)
    {
      if |tokens| < 3 { return; }
      var action, at := tokens[0], 1;
      if action == "create" && (tokens[at] == "unlogged" || tokens[at] == "unique") {
        at := at + 1;
      }
      var kind := tokens[at];
      if kind != "table" && kind != "index" { return; }
      at := SkipKeywords(tokens, at + 1);
      while at < |tokens|
        invariant ApplyFrom(relations, tokens, action, kind, at) == ApplyStatement(old(relations), tokens)
        decreases |tokens| - at
      {
        var next := ApplyRelation(tokens, action, kind, at);
        if next.None? { return; }
        at := next.value;
        if action != "drop" || at >= |tokens| || tokens[at] != "," { return; }
        at := at + 1;
      }
    }

    /** The inner loop of validateResourceTable over one migration. */
    method ApplyMigration(source: seq<string>)
      modifies this
      ensures relations == ApplyAll(old(relations), source)
    {
      var tokens := source;
      while |tokens| > 0
        invariant ApplyAll(relations, tokens) == ApplyAll(old(relations), source)
        decreases |tokens|
      {
        var end := 0;
        while end < |tokens| && tokens[end] != ";"
          invariant 0 <= end <= |tokens| && end + StatementEnd(tokens[end..]) == StatementEnd(tokens)
          invariant ApplyAll(relations, tokens) == ApplyAll(old(relations), source)
        {
          assert tokens[end..][1..] == tokens[end + 1..];
          end := end + 1;
        }
        ApplyRelationStatement(tokens[..end]);
        tokens := tokens[if end < |tokens| then end + 1 else end..];
      }
    }
  }

  /** validateResourceTable, given the text of each migration in version order. */
  method ValidateResourceTable(texts: seq<string>, name: string) returns (conflict: Option<string>)
    ensures conflict.Some? <==> Conflicts(Lexed(texts), name)
    ensures conflict.Some? ==> conflict.value in ApplyFiles(map[], Lexed(texts))
  {
    var tracker := new Tracker();
    ghost var sources := Lexed(texts);
    var i := 0;
    while i < |texts|
      invariant 0 <= i <= |texts|
      invariant ApplyFiles(tracker.relations, sources[i..]) == ApplyFiles(map[], sources)
    {
      assert sources[i..][1..] == sources[i + 1..];
      var tokens := SqlTokens.SqlTokens(texts[i]);
      tracker.ApplyMigration(tokens);
      i := i + 1;
    }
    assert sources[|sources|..] == [];
    if name in tracker.relations { return Some(name); }
    if name + "_list_idx" in tracker.relations { return Some(name + "_list_idx"); }
    return None;
  }
}
