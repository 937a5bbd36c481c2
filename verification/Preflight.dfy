/** What the preflight answers about a new resource's names, and when that is what the database
    would say (cmd/forge/resource_schema.go). */
module Preflight {
  import opened Options
  import opened Relations
  import opened Cat = Catalog
  import SqlTexts

  /** A relation has the name of the resource's table or of its list index. */
  ghost predicate Taken(c: Catalog, name: string) {
    Find(c, name).Some? || Find(c, name + "_list_idx").Some?
  }

  /** Reading these migrations leaves a map that follows the catalog. */
  ghost predicate Follows(sources: seq<seq<string>>, c: Catalog) {
    Tracks(ApplyFiles(map[], sources), c)
  }

  /** Migrations that the database accepts from an empty schema, faithful in every step. */
  ghost predicate FaithfulHistory(files: seq<seq<Step>>, sources: seq<seq<string>>) {
    AcceptedFiles(map[], files) && FollowedFiles(map[], files) && Sources(files, sources)
  }

  lemma FollowedIsExact(sources: seq<seq<string>>, c: Catalog, name: string)
    requires Follows(sources, c)
    ensures Conflicts(sources, name) <==> Taken(c, name)
  {
    TracksFind(ApplyFiles(map[], sources), c, name);
    TracksFind(ApplyFiles(map[], sources), c, name + "_list_idx");
  }

  /** After faithful migrations a resource is refused exactly when a public relation has the
      name of its table or of its list index. */
  lemma PreflightIsExact(files: seq<seq<Step>>, sources: seq<seq<string>>, name: string)
    requires FaithfulHistory(files, sources)
    ensures Follows(sources, ExecuteFiles(map[], files))
    ensures Conflicts(sources, name) <==> Taken(ExecuteFiles(map[], files), name)
  {
    FilesRefine(map[], map[], files, sources);
    FollowedIsExact(sources, ExecuteFiles(map[], files), name);
  }

  /** `texts` are ways to write these migrations, in any letter case and layout. */
  ghost predicate WrittenAs(files: seq<seq<Step>>, texts: seq<string>, sources: seq<seq<string>>) {
    Sources(files, sources) && |texts| == |sources| && forall i :: 0 <= i < |texts| ==> SqlTexts.Denotes(texts[i], sources[i])
  }

  /** The same from the source texts of the migrations: keywords and plain names in any letter
      case, other names in quotes, and white space, comments or punctuation between them. */
  lemma PreflightReadsTexts(files: seq<seq<Step>>, texts: seq<string>, sources: seq<seq<string>>, name: string)
    requires AcceptedFiles(map[], files) && FollowedFiles(map[], files) && WrittenAs(files, texts, sources)
    ensures Conflicts(Lexed(texts), name) <==> Taken(ExecuteFiles(map[], files), name)
  {
    forall i | 0 <= i < |texts| ensures Lexed(texts)[i] == sources[i] {
      SqlTexts.TextsAreRead(texts[i], sources[i]);
    }
    assert Lexed(texts) == sources;
    PreflightIsExact(files, sources, name);
  }

  lemma {:induction false} OneMoreSource(r: RelationMap, sources: seq<seq<string>>, tokens: seq<string>)
    ensures ApplyFiles(r, sources + [tokens]) == ApplyAll(ApplyFiles(r, sources), tokens)
    decreases |sources|
  {
    if sources == [] {
      assert (sources + [tokens])[1..] == [];
      assert ApplyFiles(ApplyAll(r, tokens), []) == ApplyAll(r, tokens);
    } else {
      assert (sources + [tokens])[1..] == sources[1..] + [tokens];
      OneMoreSource(ApplyAll(r, sources[0]), sources[1..], tokens);
    }
  }

  /** After one more statement that is not misdirected the map follows what the statement says,
      so that is what the preflight answers for, whatever the database did beside it. */
  lemma PreflightAnswersForTheWords(sources: seq<seq<string>>, c: Catalog, s: Statement, oid: Oid, name: string)
    requires Follows(sources, c) && Writable(s) && oid !in c
    requires Execute(c, s, oid).Some? && !Misdirected(c, s)
    ensures Follows(sources + [Render(s)], Execute(c, s, oid).value)
    ensures Conflicts(sources + [Render(s)], name) <==> Taken(Execute(c, s, oid).value, name)
  {
    var r := ApplyFiles(map[], sources);
    OneMoreSource(map[], sources, Render(s));
    NoSemicolon(s);
    ApplyOnly(r, Render(s));
    StatementRefines(r, c, s, oid);
    FollowedIsExact(sources + [Render(s)], Execute(c, s, oid).value, name);
  }

  /** The answer about a resource is wrong if and only if what the database did beside the
      statement makes the difference for that resource's names. */
  lemma WhenTheAnswerIsWrong(sources: seq<seq<string>>, c: Catalog, step: Step, name: string)
    requires Follows(sources, c) && Writable(step.statement) && step.oid !in c
    requires Outcome(c, step).Some? && !Misdirected(c, step.statement)
    ensures
      var said, done := Execute(c, step.statement, step.oid).value, Outcome(c, step).value;
      (Conflicts(sources + [Render(step.statement)], name) <==> Taken(done, name)) <==> (Taken(said, name) <==> Taken(done, name))
  {
    PreflightAnswersForTheWords(sources, c, step.statement, step.oid, name);
  }

  // ---------------------------------------------------------------- whole histories with effects

  const NOTHING := Effect({}, map[], map[])

  /** The same statements, taken at their word. */
  function Word(step: Step): Step {
    step.(effect := NOTHING)
  }

  function Words(steps: seq<Step>): (r: seq<Step>)
    ensures |r| == |steps| && forall i :: 0 <= i < |steps| ==> r[i] == Word(steps[i])
  {
    seq(|steps|, i requires 0 <= i < |steps| => Word(steps[i]))
  }

  function WordsOf(files: seq<seq<Step>>): (r: seq<seq<Step>>)
    ensures |r| == |files| && forall i :: 0 <= i < |files| ==> r[i] == Words(files[i])
  {
    seq(|files|, i requires 0 <= i < |files| => Words(files[i]))
  }

  /** At its word a statement is faithful if and only if it is not misdirected. */
  lemma WordsAreFaithful(c: Catalog, step: Step)
    requires Consistent(c) && step.oid !in c && Execute(c, step.statement, step.oid).Some?
    ensures Outcome(c, Word(step)) == Execute(c, step.statement, step.oid)
    ensures Faithful(c, Word(step)) <==> !Misdirected(c, step.statement)
  {
    var d := Execute(c, step.statement, step.oid).value;
    assert After(d, NOTHING) == d;
  }

  lemma {:induction false} SameTokens(steps: seq<Step>)
    requires forall s :: s in steps ==> Writable(s.statement)
    ensures forall s :: s in Words(steps) ==> Writable(s.statement)
    ensures RenderAll(Words(steps)) == RenderAll(steps)
    ensures steps != [] ==> RenderOpen(Words(steps)) == RenderOpen(steps)
    decreases |steps|
  {
    if steps != [] {
      SameTokens(steps[1..]);
      assert Words(steps)[1..] == Words(steps[1..]);
    }
  }

  /** Whatever the database did beside the statements of a whole history: if its words alone
      are acceptable and none is misdirected, the preflight answers for the words. So its answer
      about a resource is right if and only if the effects, all together, make no difference
      for that resource's names. */
  lemma HistoryAnswersForTheWords(files: seq<seq<Step>>, sources: seq<seq<string>>, name: string)
    requires AcceptedFiles(map[], files) && Sources(files, sources)
    requires AcceptedFiles(map[], WordsOf(files)) && FollowedFiles(map[], WordsOf(files))
    ensures
      var said, done := ExecuteFiles(map[], WordsOf(files)), ExecuteFiles(map[], files);
      && (Conflicts(sources, name) <==> Taken(said, name))
      && ((Conflicts(sources, name) <==> Taken(done, name)) <==> (Taken(said, name) <==> Taken(done, name)))
  {
    var words := WordsOf(files);
    forall i | 0 <= i < |words| ensures Spells(sources[i], words[i]) {
      assert Spells(sources[i], files[i]);
      SameTokens(files[i]);
    }
    PreflightIsExact(words, sources, name);
  }

  // ---------------------------------------------------------------- statements that are not read

  /** A statement in which the preflight reads nothing. */
  predicate Unread(s: Statement) {
    s.UnnamedIndex? || s.AlterOther? || s.Other?
  }

  /** After such a statement the preflight still answers for the catalog before it. */
  lemma UnreadIsMissed(sources: seq<seq<string>>, c: Catalog, s: Statement, oid: Oid, name: string)
    requires Follows(sources, c) && Unread(s) && Writable(s) && oid !in c && Execute(c, s, oid).Some?
    ensures Conflicts(sources + [Render(s)], name) <==> Taken(c, name)
  {
    PreflightAnswersForTheWords(sources, c, s, oid, name);
  }

  /** ALTER TABLE t DROP COLUMN a, say, drops an index: its resource's names are free, and refused. */
  lemma {:induction false} DroppedIndexIsRefused(sources: seq<seq<string>>, c: Catalog, s: Statement, oid: Oid, i: Oid, name: string)
    requires Follows(sources, c) && Unread(s) && Writable(s) && oid !in c && Execute(c, s, oid).Some?
    requires Named(c, name + "_list_idx", i) && c[i].Index? && Find(c, name).None?
    ensures Outcome(c, Step(s, oid, Effect({i}, map[], map[]))) == Some(c - {i})
    ensures Conflicts(sources + [Render(s)], name) && !Taken(c - {i}, name)
  {
    UnreadIsMissed(sources, c, s, oid, name);
    EffectOfDrop(c, i);
    FreeAfterDrop(c, i, name);
  }

  lemma EffectOfDrop(c: Catalog, i: Oid)
    requires Consistent(c) && i in c && c[i].Index?
    ensures After(c, Effect({i}, map[], map[])) == c - {i} && Consistent(c - {i})
  {
  }

  lemma FreeAfterDrop(c: Catalog, i: Oid, name: string)
    requires Consistent(c) && Named(c, name + "_list_idx", i) && Find(c, name).None?
    ensures !Taken(c - {i}, name)
  {
  }

  /** ALTER TABLE t ADD CONSTRAINT gadgets UNIQUE USING INDEX i, say, renames an index: the name
      is taken, and accepted. */
  lemma {:induction false} RenamedIndexIsAccepted(sources: seq<seq<string>>, c: Catalog, s: Statement, oid: Oid, i: Oid, name: string)
    requires Follows(sources, c) && Unread(s) && Writable(s) && oid !in c && Execute(c, s, oid).Some?
    requires i in c && c[i].Index? && !Taken(c, name)
    ensures Outcome(c, Step(s, oid, Effect({}, map[i := name], map[]))) == Some(c[i := Index(name, c[i].table)])
    ensures !Conflicts(sources + [Render(s)], name) && Taken(c[i := Index(name, c[i].table)], name)
  {
    UnreadIsMissed(sources, c, s, oid, name);
    EffectOfRename(c, i, name);
    HoldersTake(c[i := Index(name, c[i].table)], i, name);
  }

  lemma EffectOfRename(c: Catalog, i: Oid, name: string)
    requires Consistent(c) && i in c && c[i].Index? && Find(c, name).None?
    ensures After(c, Effect({}, map[i := name], map[])) == c[i := Index(name, c[i].table)]
    ensures Consistent(c[i := Index(name, c[i].table)])
  {
  }

  /** SELECT 1 INTO gadgets, say, makes a table: the name is taken, and accepted. */
  lemma AddedTableIsAccepted(sources: seq<seq<string>>, c: Catalog, s: Statement, oid: Oid, o: Oid, name: string)
    requires Follows(sources, c) && Unread(s) && Writable(s) && oid !in c && Execute(c, s, oid).Some?
    requires o !in c && !Taken(c, name)
    ensures Outcome(c, Step(s, oid, Effect({}, map[], map[o := Table(name)]))) == Some(c[o := Table(name)])
    ensures !Conflicts(sources + [Render(s)], name) && Taken(c[o := Table(name)], name)
  {
    UnreadIsMissed(sources, c, s, oid, name);
    EffectOfNew(c, o, name);
    HoldersTake(c[o := Table(name)], o, name);
  }

  lemma EffectOfNew(c: Catalog, o: Oid, name: string)
    requires Consistent(c) && o !in c && Find(c, name).None?
    ensures After(c, Effect({}, map[], map[o := Table(name)])) == c[o := Table(name)]
    ensures Consistent(c[o := Table(name)])
  {
    var d := c[o := Table(name)];
    assert After(c, Effect({}, map[], map[o := Table(name)])) == d;
    forall p, q | p in d && q in d && d[p].name == d[q].name ensures p == q {
      assert p != o ==> c[p].name != name;
      assert q != o ==> c[q].name != name;
    }
  }

  lemma HoldersTake(c: Catalog, o: Oid, name: string)
    requires Named(c, name, o)
    ensures Taken(c, name)
  {
  }

  /** The statements named above are ones that the preflight does not read. */
  lemma UnreadStatements()
    ensures Writable(AlterOther("table", false, false, Bare("t"), ["drop", "column", "a"]))
    ensures Writable(AlterOther("table", false, false, Bare("t"), ["add", "constraint", "gadgets", "unique", "using", "index", "i"]))
    ensures Writable(Other(["select", "1", "into", "gadgets"]))
  {
  }

  // ---------------------------------------------------------------- such migrations exist

  /** A table with one column and one index. */
  const CREATE_TABLE := Step(CreateTable(false, false, Bare("t"), ["(", "a", "int", ")"]), 0, NOTHING)
  const CREATE_INDEX := Step(CreateIndex(false, false, false, "widgets_list_idx", false, Bare("t"), ["(", "a", ")"]), 1, NOTHING)

  const EXAMPLE: Catalog := map[0 := Table("t"), 1 := Index("widgets_list_idx", 0)]

  lemma ExampleOutcomes()
    ensures
      var one: Catalog := map[0 := Table("t")];
      && Outcome(map[], CREATE_TABLE) == Some(one) && Outcome(one, CREATE_INDEX) == Some(EXAMPLE)
      && Faithful(map[], CREATE_TABLE) && Faithful(one, CREATE_INDEX)
  {
    var empty: Catalog := map[];
    var one: Catalog := map[0 := Table("t")];
    assert After(one, NOTHING) == one && After(EXAMPLE, NOTHING) == EXAMPLE;
    assert one == empty[0 := Table("t")] && EXAMPLE == one[1 := Index("widgets_list_idx", 0)];
    assert Named(one, "t", 0) && Find(one, "t") == Some(0);
  }

  /** A faithful history after which the index of `widgets` hangs on another table. */
  lemma ExampleIsFaithful()
    ensures
      var steps := [CREATE_TABLE, CREATE_INDEX];
      && (forall s :: s in steps ==> Writable(s.statement))
      && FaithfulHistory([steps], [RenderAll(steps)]) && ExecuteFiles(map[], [steps]) == EXAMPLE
    ensures Taken(EXAMPLE, "widgets") && Find(EXAMPLE, "widgets").None?
  {
    ExampleOutcomes();
    TwoSteps(map[], CREATE_TABLE, CREATE_INDEX);
    OneFile(map[], [CREATE_TABLE, CREATE_INDEX]);
    ExampleNames();
  }

  lemma ExampleNames()
    ensures Taken(EXAMPLE, "widgets") && Find(EXAMPLE, "widgets").None?
  {
    assert "widgets" + "_list_idx" == "widgets_list_idx" && Named(EXAMPLE, "widgets_list_idx", 1);
  }

  lemma {:induction false} TwoSteps(c: Catalog, s: Step, t: Step)
    requires Consistent(c) && Writable(s.statement) && s.oid !in c && Outcome(c, s).Some? && Faithful(c, s)
    requires
      var d := Outcome(c, s).value;
      Writable(t.statement) && t.oid !in d && Outcome(d, t).Some? && Faithful(d, t)
    ensures Accepted(c, [s, t]) && Followed(c, [s, t])
    ensures ExecuteAll(c, [s, t]) == Outcome(Outcome(c, s).value, t).value
  {
    var d := Outcome(c, s).value;
    assert [s, t][1..] == [t] && [t][1..] == [];
    assert Accepted(Outcome(d, t).value, []) && Followed(Outcome(d, t).value, []);
    assert Accepted(d, [t]) && Followed(d, [t]) && ExecuteAll(d, [t]) == Outcome(d, t).value;
  }

  lemma OneFile(c: Catalog, steps: seq<Step>)
    requires Consistent(c) && Accepted(c, steps) && Followed(c, steps)
    ensures AcceptedFiles(c, [steps]) && FollowedFiles(c, [steps]) && ExecuteFiles(c, [steps]) == ExecuteAll(c, steps)
  {
    var files: seq<seq<Step>> := [steps];
    assert files[1..] == [];
    assert AcceptedFiles(ExecuteAll(c, steps), []) && FollowedFiles(ExecuteAll(c, steps), []);
  }

  // ---------------------------------------------------------------- misdirected renames

  ghost predicate IndexOn(c: Catalog, o: Oid, n: string) {
    exists i :: Named(c, n, i) && c[i].Index? && c[i].table == o
  }

  /** The table dropped under its new name: the map loses the old name only, the catalog the
      table and its indexes. */
  lemma {:induction false} DropAfterMisdirected(r: RelationMap, c: Catalog, o: Oid, to: string, n: string)
    requires Tracks(r, c) && o in c && c[o].Table? && to !in r
    ensures
      n in Drop(Relations.Rename(r, "index", c[o].name, to), "table", to)
      <==> Find(DropTable(c[o := Table(to)], o), n).Some? || IndexOn(c, o, n)
  {
    TracksFind(r, c, n);
    MapLosesOldName(r, c, o, to);
    LeftAfterDrop(c, o, to, n);
  }

  lemma MapLosesOldName(r: RelationMap, c: Catalog, o: Oid, to: string)
    requires Tracks(r, c) && o in c && c[o].Table? && to !in r
    ensures Drop(Relations.Rename(r, "index", c[o].name, to), "table", to).Keys == r.Keys - {c[o].name}
  {
    assert r[c[o].name] == Describe(c, o);
    forall i | i in r && r[i].kind == "index" ensures r[i].owner != to { OwnersAreTracked(r, c, i); }
  }

  lemma LeftAfterDrop(c: Catalog, o: Oid, to: string, n: string)
    requires Consistent(c) && o in c && c[o].Table?
    ensures
      Find(c, n).Some? && n != c[o].name <==> Find(DropTable(c[o := Table(to)], o), n).Some? || IndexOn(c, o, n)
  {
    var d := DropTable(c[o := Table(to)], o);
    if Find(c, n).Some? && n != c[o].name {
      var p := Find(c, n).value;
      assert Named(d, n, p) || IndexOn(c, o, n);
    }
    if Find(d, n).Some? {
      assert Named(c, n, Find(d, n).value);
    }
  }

  /** A misdirected rename goes unnoticed until the table is dropped under its new name. From
      then on the names of its indexes are refused although they are free, and no others. */
  lemma StaleIndexesAreRefused(sources: seq<seq<string>>, c: Catalog, s: Statement, oid: Oid, name: string)
    requires Follows(sources, c) && Writable(s) && oid !in c
    requires Misdirected(c, s) && Execute(c, s, oid).Some? && !SkippedWord(s.to) && s.to != ";"
    ensures
      var drop := DropRelations("table", false, false, [Bare(s.to)], []);
      var o, c1 := Find(c, s.name.name).value, Execute(c, s, oid).value;
      && Writable(drop) && oid !in c1 && Execute(c1, drop, oid).Some?
      && var c2 := Execute(c1, drop, oid).value;
        Conflicts(sources + [Render(s) + ([";"] + Render(drop))], name)
        <==> Taken(c2, name) || IndexOn(c, o, name) || IndexOn(c, o, name + "_list_idx")
  {
    var r := ApplyFiles(map[], sources);
    var drop := DropRelations("table", false, false, [Bare(s.to)], []);
    var o := Find(c, s.name.name).value;
    TracksFind(r, c, s.to);
    DropIsAccepted(c, o, s.to);
    OneMoreSource(map[], sources, Render(s) + ([";"] + Render(drop)));
    NoSemicolon(s);
    NoSemicolon(drop);
    ApplyFirst(r, Render(s), Render(drop));
    ApplyOnly(ApplyStatement(r, Render(s)), Render(drop));
    ReadRename(r, s);
    ReadDrop(ApplyStatement(r, Render(s)), drop);
    OneName(ApplyStatement(r, Render(s)), Bare(s.to));
    DropAfterMisdirected(r, c, o, s.to, name);
    DropAfterMisdirected(r, c, o, s.to, name + "_list_idx");
  }

  lemma OneName(r: RelationMap, q: Qualified)
    requires Public(q)
    ensures DropNames(r, "table", [q]) == Drop(r, "table", q.name)
  {
    assert [q][1..] == [];
  }

  lemma DropIsAccepted(c: Catalog, o: Oid, to: string)
    requires Consistent(c) && o in c && HasIndexes(c, o) && Find(c, to).None?
    ensures
      var d := c[o := Renamed(c[o], to)];
      c[o].Table? && DropAll(d, "table", false, [Bare(to)]) == Some(DropTable(d, o))
  {
    var d := c[o := Renamed(c[o], to)];
    assert Named(d, to, o);
    assert [Bare(to)][1..] == [];
  }
}
