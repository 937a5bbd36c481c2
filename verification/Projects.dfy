/** Project files, the content of the recovery journal, and what publishing and
    restoring mean for a whole tree (cmd/forge/init_project.go, cmd/forge/init_recovery.go). */
module Projects {
  import opened Options

  type Path = string

  datatype File = File(data: string, mode: nat)

  /** The project files below one root; directories carry no state here. */
  type Tree = map<Path, File>

  /** Path `p` is as the snapshot `before` recorded it: same bytes and mode, or absent. */
  predicate Agrees(t: Tree, before: Tree, p: Path) {
    if p in before then p in t && t[p] == before[p] else p !in t
  }

  predicate Matches(t: Tree, before: Tree, names: set<Path>) {
    forall p :: p in before.Keys + names ==> Agrees(t, before, p)
  }

  predicate Same(t: Tree, u: Tree, p: Path) {
    if p in t then p in u && t[p] == u[p] else p !in u
  }

  ghost predicate SameOutside(t: Tree, u: Tree, paths: set<Path>) {
    forall p :: p !in paths ==> Same(t, u, p)
  }

  /** The tree that a complete publication of `after` over the snapshot `before` leaves. */
  function Publish(t: Tree, before: Tree, after: Tree): Tree {
    (t - (before.Keys - after.Keys)) + after
  }

  /** The tree that a complete recovery from the journal (`before`, `names`) leaves. */
  function Restore(t: Tree, before: Tree, names: set<Path>): Tree {
    (t - (names - before.Keys)) + before
  }

  function Edit(t: Tree, p: Path, file: Option<File>): Tree {
    match file
    case None => t - {p}
    case Some(f) => t[p := f]
  }

  /** Whatever happened to the paths that the journal names, restoring them brings back
      the tree the journal was taken from, to the last byte and mode. */
  lemma RestoreUndoesAnything(origin: Tree, torn: Tree, before: Tree, names: set<Path>)
    requires Matches(origin, before, names)
    requires SameOutside(torn, origin, before.Keys + names)
    ensures Restore(torn, before, names) == origin
  {
    var r := Restore(torn, before, names);
    forall p
      ensures p in r <==> p in origin
      ensures p in r ==> r[p] == origin[p]
    {
      if p in before.Keys + names {
        assert Agrees(origin, before, p);
      } else {
        assert Same(torn, origin, p);
      }
    }
    assert r.Keys == origin.Keys;
  }

  /** A tree that has every named path as recorded, and the rest as in `origin`, is the restored one. */
  lemma RestoredPathByPath(origin: Tree, t: Tree, before: Tree, names: set<Path>)
    requires SameOutside(t, origin, before.Keys + names)
    requires Matches(t, before, names)
    ensures t == Restore(origin, before, names)
  {
    forall p | p !in before.Keys + names ensures Same(origin, t, p) {
      assert Same(t, origin, p);
    }
    RestoreUndoesAnything(t, origin, before, names);
  }

  /** A tree that has every published file, none of the dropped ones, and the rest as in
      `origin`, is the published one. */
  lemma PublishedPathByPath(origin: Tree, t: Tree, before: Tree, after: Tree)
    requires SameOutside(t, origin, before.Keys + after.Keys)
    requires forall p :: p in after ==> p in t && t[p] == after[p]
    requires forall p :: p in before && p !in after ==> p !in t
    ensures t == Publish(origin, before, after)
  {
    var r := Publish(origin, before, after);
    forall p
      ensures p in t <==> p in r
      ensures p in t ==> t[p] == r[p]
    {
      if p !in before.Keys + after.Keys {
        assert Same(t, origin, p);
      }
    }
    assert t.Keys == r.Keys;
  }
}
