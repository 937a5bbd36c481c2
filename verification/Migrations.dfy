/** Closing the gaps in the migrations' version numbers by renaming files in place
    (cmd/forge/init.go). */
module Migrations {
  import opened Options

  type Directory = map<string, string>

  const SUFFIX: string := ".sql"

  predicate HasSuffix(name: string) {
    |name| >= 4 && name[|name| - 4..] == SUFFIX
  }

  predicate IsDigit(c: char) {
    '0' <= c <= '9'
  }

  function Digit(d: nat): (c: char)
    requires d < 10
    ensures IsDigit(c) && c as int - '0' as int == d
  {
    '0' + d as char
  }

  function Pow10(n: nat): nat {
    if n == 0 then 1 else 10 * Pow10(n - 1)
  }

  /** The last `width` decimal digits of `k`. */
  function Padded(k: nat, width: nat): (s: string)
    ensures |s| == width
    ensures forall i :: 0 <= i < width ==> IsDigit(s[i])
  {
    if width == 0 then "" else Padded(k / 10, width - 1) + [Digit(k % 10)]
  }

  function Width(k: nat): nat {
    if k < 10 then 1 else 1 + Width(k / 10)
  }

  /** fmt's %05d. */
  function FiveDigits(k: nat): string {
    Padded(k, if Width(k) < 5 then 5 else Width(k))
  }

  function Number(s: string): nat {
    if s == "" then 0 else 10 * Number(s[..|s| - 1]) + (if IsDigit(s[|s| - 1]) then s[|s| - 1] as nat - '0' as nat else 0)
  }

  lemma {:induction false} PaddedRoundTrip(k: nat, width: nat)
    requires k < Pow10(width)
    ensures Number(Padded(k, width)) == k
  {
    if width > 0 {
      PaddedRoundTrip(k / 10, width - 1);
      var s := Padded(k, width);
      assert s[..|s| - 1] == Padded(k / 10, width - 1);
    }
  }

  lemma {:induction false} NumberBelow(s: string)
    ensures Number(s) < Pow10(|s|)
  {
    if s != "" { NumberBelow(s[..|s| - 1]); }
  }

  // ---------------------------------------------------------------- names and their order

  /** strings.Cut at the first underscore: what follows it. */
  function AfterUnderscore(name: string): Option<string> {
    if name == "" then None else if name[0] == '_' then Some(name[1..]) else AfterUnderscore(name[1..])
  }

  /** The name file `i` of the sorted list gets. */
  function Target(name: string, i: nat): Option<string> {
    match AfterUnderscore(name)
    case None => None
    case Some(rest) => Some(FiveDigits(i + 1) + "_" + rest)
  }

  /** Bytewise order: `a` is a proper prefix of `b`, or smaller where they first differ. */
  ghost predicate LessAt(a: string, b: string, k: nat) {
    && k <= |a| && k < |b| && a[..k] == b[..k]
    && (k == |a| || a[k] < b[k])
  }

  ghost predicate Less(a: string, b: string) {
    exists k :: LessAt(a, b, k)
  }

  /** os.ReadDir and sort.Strings: the migration files in order. */
  ghost predicate Listing(names: seq<string>, dir: Directory) {
    && (forall n :: n in dir && HasSuffix(n) <==> n in names)
    && (forall i, j :: 0 <= i < j < |names| ==> Less(names[i], names[j]))
  }

  predicate Prefixed(name: string) {
    && |name| > 5 && name[5] == '_'
    && (forall i :: 0 <= i < 5 ==> IsDigit(name[i]))
  }

  predicate Numbered(name: string) {
    Prefixed(name) && Number(name[..5]) >= 1
  }

  function Version(name: string): nat
    requires |name| >= 5
  {
    Number(name[..5])
  }

  /** Five-digit versions, each used once. */
  ghost predicate WellPrefixed(names: seq<string>) {
    && (forall i :: 0 <= i < |names| ==> Prefixed(names[i]) && HasSuffix(names[i]))
    && (forall i, j :: 0 <= i < j < |names| ==> Version(names[i]) != Version(names[j]))
  }

  /** And none of them zero. */
  ghost predicate WellNumbered(names: seq<string>) {
    WellPrefixed(names) && forall i :: 0 <= i < |names| ==> Version(names[i]) >= 1
  }

  /** File `i` is renamed onto the next one: that has the version file `i` gets, and the same rest. */
  predicate CollidesAt(names: seq<string>, i: nat)
    requires forall j :: 0 <= j < |names| ==> |names[j]| > 5
  {
    i + 1 < |names| && Version(names[i + 1]) == i + 1 && names[i][5..] == names[i + 1][5..]
  }

  /** None of the first `n` files is. */
  ghost predicate Clear(names: seq<string>, n: nat)
    requires forall j :: 0 <= j < |names| ==> |names[j]| > 5
  {
    forall i :: 0 <= i < n ==> !CollidesAt(names, i)
  }

  lemma {:induction false} OrderOfPrefixes(a: string, b: string, w: nat, k: nat)
    requires LessAt(a, b, k) && w <= |a| && w <= |b|
    requires forall i :: 0 <= i < w ==> IsDigit(a[i]) && IsDigit(b[i])
    ensures a[..w] == b[..w] || Number(a[..w]) < Number(b[..w])
  {
    if w > 0 {
      OrderOfPrefixes(a, b, w - 1, k);
      assert a[..w][..w - 1] == a[..w - 1] && b[..w][..w - 1] == b[..w - 1];
      if a[..w - 1] == b[..w - 1] {
        assert a[..w] == a[..w - 1] + [a[w - 1]] && b[..w] == b[..w - 1] + [b[w - 1]];
        assert forall i :: 0 <= i < w - 1 ==> a[i] == a[..w - 1][i] && b[i] == b[..w - 1][i];
        if k > w - 1 {
          assert a[w - 1] == a[..k][w - 1] && b[w - 1] == b[..k][w - 1];
        }
      }
    }
  }

  /** Sorting by name sorts by version. */
  lemma VersionsAscend(names: seq<string>, dir: Directory, i: nat, j: nat)
    requires Listing(names, dir) && WellPrefixed(names) && i < j < |names|
    ensures Version(names[i]) < Version(names[j])
  {
    var k :| LessAt(names[i], names[j], k);
    OrderOfPrefixes(names[i], names[j], 5, k);
  }

  /** So the i-th file's version is at least i, and there are at most 100000 files. */
  lemma {:induction false} VersionsLeaveRoom(names: seq<string>, dir: Directory, i: nat)
    requires Listing(names, dir) && WellPrefixed(names) && i < |names|
    ensures i <= Version(names[i]) < 100000
    ensures Version(names[0]) >= 1 ==> i + 1 <= Version(names[i])
  {
    NumberBelow(names[i][..5]);
    assert Pow10(5) == 100000;
    if i > 0 {
      VersionsLeaveRoom(names, dir, i - 1);
      VersionsAscend(names, dir, i - 1, i);
    }
  }

  /** Versions that start at one leave no file in another's way. */
  lemma WellNumberedIsClear(names: seq<string>, dir: Directory)
    requires Listing(names, dir) && WellNumbered(names)
    ensures Clear(names, |names|) && |names| < 100000
  {
    forall i | 0 <= i < |names| ensures !CollidesAt(names, i) {
      if i + 1 < |names| { VersionsLeaveRoom(names, dir, i + 1); }
    }
    if names != [] { VersionsLeaveRoom(names, dir, |names| - 1); }
  }

  lemma {:induction false} WidthFits(k: nat, w: nat)
    requires k < Pow10(w) && w > 0
    ensures Width(k) <= w
  {
    if k >= 10 {
      assert w > 1;
      WidthFits(k / 10, w - 1);
    }
  }

  lemma UnderscoreAfterDigits(name: string)
    requires Prefixed(name)
    ensures AfterUnderscore(name) == Some(name[6..])
  {
    assert name[1..][1..][1..][1..][1..][1..] == name[6..];
    assert forall i :: 0 <= i < 5 ==> name[i] != '_';
    assert AfterUnderscore(name) == AfterUnderscore(name[1..]);
    assert AfterUnderscore(name[1..]) == AfterUnderscore(name[1..][1..]);
    assert AfterUnderscore(name[1..][1..]) == AfterUnderscore(name[1..][1..][1..]);
    assert AfterUnderscore(name[1..][1..][1..]) == AfterUnderscore(name[1..][1..][1..][1..]);
    assert AfterUnderscore(name[1..][1..][1..][1..]) == AfterUnderscore(name[1..][1..][1..][1..][1..]);
  }

  /** The new name of file `i` has version i + 1 and the same rest, and is a migration again.
      The hundred thousandth file would get six digits. */
  lemma TargetIsNext(names: seq<string>, dir: Directory, i: nat)
    requires Listing(names, dir) && WellPrefixed(names) && i < |names|
    ensures Target(names[i], i) == Some(FiveDigits(i + 1) + names[i][5..])
    ensures HasSuffix(Target(names[i], i).value)
    ensures
      var t := Target(names[i], i).value;
      if i + 1 < 100000 then Prefixed(t) && Version(t) == i + 1 && t[5..] == names[i][5..] else !Prefixed(t)
  {
    var d, rest := FiveDigits(i + 1), names[i][5..];
    UnderscoreAfterDigits(names[i]);
    VersionsLeaveRoom(names, dir, i);
    SuffixInRest(names[i]);
    DigitsOfVersion(i + 1);
    assert rest == "_" + names[i][6..];
    assert d + "_" + names[i][6..] == d + rest;
    assert rest[|rest| - 4..] == names[i][|names[i]| - 4..];
    JoinedName(d, rest);
  }

  lemma JoinedName(d: string, rest: string)
    requires |d| >= 5 && |rest| >= 4 && rest[0] == '_' && HasSuffix(rest)
    requires forall i :: 0 <= i < |d| ==> IsDigit(d[i])
    ensures HasSuffix(d + rest) && (d + rest)[|d|..] == rest && (d + rest)[..|d|] == d
    ensures Prefixed(d + rest) <==> |d| == 5
  {
    var t := d + rest;
    assert t[|t| - 4..] == rest[|rest| - 4..];
    assert |d| > 5 ==> t[5] == d[5];
  }

  lemma DigitsOfVersion(k: nat)
    requires 1 <= k <= 100000
    ensures var d := FiveDigits(k); if k < 100000 then |d| == 5 && Number(d) == k else |d| == 6
  {
    assert Pow10(5) == 100000 && Pow10(6) == 1000000;
    if k < 100000 {
      WidthFits(k, 5);
      PaddedRoundTrip(k, 5);
    } else {
      assert Width(100000) == 6;
    }
  }

  lemma SuffixInRest(name: string)
    requires Prefixed(name) && HasSuffix(name)
    ensures |name| >= 9
  {
    if |name| < 10 {
      var at := |name| - 4;
      assert name[at] == name[at..][0] == '.';
    }
  }

  /** What renumbering starts from: the sorted migrations of `dir`. */
  ghost predicate Ready(names: seq<string>, dir: Directory) {
    && Listing(names, dir) && WellPrefixed(names)
    && (forall j :: 0 <= j < |names| ==> names[j] in dir && Target(names[j], j).Some?)
  }

  lemma AllTargets(names: seq<string>, dir: Directory)
    requires Listing(names, dir) && WellPrefixed(names)
    ensures Ready(names, dir)
  {
    forall j | 0 <= j < |names| ensures names[j] in dir && Target(names[j], j).Some? {
      assert names[j] in names;
      TargetIsNext(names, dir, j);
    }
  }

  /** The name of file `j` when the first `i` files have their new names. */
  ghost function NameAt(names: seq<string>, dir: Directory, i: nat, j: nat): string
    requires j < |names| && Ready(names, dir)
  {
    if j < i then Target(names[j], j).value else names[j]
  }

  /** The directory after the first `i` files have their new names: exactly the untouched
      files, the files still to come and the new names, each with its own content. */
  ghost predicate Moved(now: Directory, dir: Directory, names: seq<string>, i: nat)
    requires i <= |names| && Ready(names, dir)
  {
    && ExactNames(now, dir, names, i)
    && FilesKept(now, dir, names, i)
    && OthersKept(now, dir, names)
  }

  ghost predicate ExactNames(now: Directory, dir: Directory, names: seq<string>, i: nat)
    requires i <= |names| && Ready(names, dir)
  {
    forall n {:trigger IsMoved(n, dir, names, i)} :: n in now <==> IsMoved(n, dir, names, i)
  }

  ghost predicate FilesKept(now: Directory, dir: Directory, names: seq<string>, i: nat)
    requires i <= |names| && Ready(names, dir)
  {
    forall j :: 0 <= j < |names| ==> FileKept(now, dir, names, i, j)
  }

  ghost predicate FileKept(now: Directory, dir: Directory, names: seq<string>, i: nat, j: nat)
    requires j < |names| && Ready(names, dir)
  {
    var n := NameAt(names, dir, i, j);
    n in now && now[n] == dir[names[j]]
  }

  ghost predicate OthersKept(now: Directory, dir: Directory, names: seq<string>) {
    forall n :: OtherKept(now, dir, names, n)
  }

  ghost predicate OtherKept(now: Directory, dir: Directory, names: seq<string>, n: string) {
    n in dir && n !in names ==> n in now && now[n] == dir[n]
  }

  ghost predicate IsMoved(n: string, dir: Directory, names: seq<string>, i: nat)
    requires i <= |names| && Ready(names, dir)
  {
    || (n in dir && n !in names)
    || n in names[i..]
    || exists j :: 0 <= j < i && n == Target(names[j], j).value
  }

  /** Two new names are different, and so are two old ones. */
  lemma NamesDiffer(names: seq<string>, dir: Directory, i: nat, j: nat)
    requires Ready(names, dir) && i < j < |names|
    ensures Target(names[i], i).value != Target(names[j], j).value
    ensures names[i] != names[j]
  {
    TargetIsNext(names, dir, i);
    TargetIsNext(names, dir, j);
    VersionsLeaveRoom(names, dir, j);
  }

  /** A new name is a later old one exactly where the files collide. */
  lemma TargetHits(names: seq<string>, dir: Directory, i: nat, j: nat)
    requires Ready(names, dir) && i < j < |names|
    ensures Target(names[i], i).value == names[j] <==> j == i + 1 && CollidesAt(names, i)
  {
    TargetIsNext(names, dir, i);
    VersionsLeaveRoom(names, dir, j);
    var t := Target(names[i], i).value;
    if j == i + 1 && CollidesAt(names, i) {
      EqualNumbers(t[..5], names[j][..5]);
      assert t == t[..5] + t[5..] && names[j] == names[j][..5] + names[j][5..];
    }
  }

  lemma NamesStayApart(names: seq<string>, dir: Directory, i: nat, j: nat)
    requires Ready(names, dir) && i < j < |names| && !CollidesAt(names, i)
    ensures Target(names[i], i).value != Target(names[j], j).value
    ensures Target(names[i], i).value != names[j]
    ensures names[i] != names[j]
  {
    NamesDiffer(names, dir, i, j);
    TargetHits(names, dir, i, j);
  }

  lemma OthersAreNoMigrations(names: seq<string>, dir: Directory, i: nat)
    requires Ready(names, dir) && i < |names|
    ensures Target(names[i], i).value in dir ==> Target(names[i], i).value in names
  {
    TargetIsNext(names, dir, i);
  }

  /** A file that has to move finds its new name taken exactly when it collides. */
  lemma {:induction false} TargetIsFree(names: seq<string>, dir: Directory, now: Directory, i: nat)
    requires Ready(names, dir) && i < |names| && Clear(names, i)
    requires Moved(now, dir, names, i) && Target(names[i], i).value != names[i]
    ensures Target(names[i], i).value in now <==> CollidesAt(names, i)
  {
    var t := Target(names[i], i).value;
    OthersAreNoMigrations(names, dir, i);
    assert t in now <==> IsMoved(t, dir, names, i);
    if CollidesAt(names, i) {
      TargetHits(names, dir, i, i + 1);
      assert names[i..][1] == t;
    } else if t in now {
      if t in names[i..] {
        var j :| i <= j < |names| && names[j] == t;
        TargetHits(names, dir, i, j);
      } else {
        var j :| 0 <= j < i && t == Target(names[j], j).value;
        NamesDiffer(names, dir, j, i);
      }
    }
  }

  /** A file that collides has to move. */
  lemma CollisionMoves(names: seq<string>, dir: Directory, i: nat)
    requires Ready(names, dir) && CollidesAt(names, i)
    ensures Target(names[i], i).value != names[i]
  {
    TargetHits(names, dir, i, i + 1);
    NamesDiffer(names, dir, i, i + 1);
  }

  ghost function Next(now: Directory, name: string, target: string): Directory
    requires name in now
  {
    if target == name then now else (now - {name})[target := now[name]]
  }

  lemma MovedStep(names: seq<string>, dir: Directory, now: Directory, i: nat)
    requires Ready(names, dir) && Clear(names, i + 1) && i < |names| && Moved(now, dir, names, i) && names[i] in now
    ensures Moved(Next(now, names[i], Target(names[i], i).value), dir, names, i + 1)
  {
    var next := Next(now, names[i], Target(names[i], i).value);
    var k := i + 1;
    assert FileKept(now, dir, names, i, i);
    forall n ensures n in next <==> IsMoved(n, dir, names, i + 1) {
      NextMoved(names, dir, now, i, n);
    }
    forall j | 0 <= j < |names| ensures FileKept(next, dir, names, k, j) {
      FileStays(names, dir, now, i, j);
    }
    OthersStay(names, dir, now, i);
  }

  lemma FileStays(names: seq<string>, dir: Directory, now: Directory, i: nat, j: nat)
    requires Ready(names, dir) && Clear(names, i + 1) && i < |names| && j < |names|
    requires FileKept(now, dir, names, i, i) && FileKept(now, dir, names, i, j)
    ensures FileKept(Next(now, names[i], Target(names[i], i).value), dir, names, i + 1, j)
  {
    if j < i { NamesStayApart(names, dir, j, i); }
    if i < j { NamesStayApart(names, dir, i, j); }
  }

  lemma OthersStay(names: seq<string>, dir: Directory, now: Directory, i: nat)
    requires Ready(names, dir) && Clear(names, i + 1) && i < |names| && names[i] in now && OthersKept(now, dir, names)
    ensures OthersKept(Next(now, names[i], Target(names[i], i).value), dir, names)
  {
    OthersAreNoMigrations(names, dir, i);
    assert names[i] in names;
    var next := Next(now, names[i], Target(names[i], i).value);
    forall n ensures OtherKept(next, dir, names, n) {
      assert OtherKept(now, dir, names, n);
    }
  }

  lemma NextMoved(names: seq<string>, dir: Directory, now: Directory, i: nat, n: string)
    requires Ready(names, dir) && Clear(names, i + 1) && i < |names| && ExactNames(now, dir, names, i) && names[i] in now
    ensures n in Next(now, names[i], Target(names[i], i).value) <==> IsMoved(n, dir, names, i + 1)
  {
    var t := Target(names[i], i).value;
    assert n in now <==> IsMoved(n, dir, names, i);
    if n == t {
      assert IsMoved(n, dir, names, i + 1);
    } else if n == names[i] {
      LeavesItsName(names, dir, i);
    } else {
      BystanderMoves(names, dir, i, n);
    }
  }

  lemma BystanderMoves(names: seq<string>, dir: Directory, i: nat, n: string)
    requires Ready(names, dir) && Clear(names, i + 1) && i < |names| && n != names[i] && n != Target(names[i], i).value
    ensures IsMoved(n, dir, names, i) <==> IsMoved(n, dir, names, i + 1)
  {
    assert names[i..] == [names[i]] + names[i + 1..];
  }

  lemma LeavesItsName(names: seq<string>, dir: Directory, i: nat)
    requires Ready(names, dir) && Clear(names, i + 1) && i < |names| && Target(names[i], i).value != names[i]
    ensures !IsMoved(names[i], dir, names, i + 1)
  {
    assert names[i] in names;
    forall j | i + 1 <= j < |names| ensures names[j] != names[i] {
      NamesStayApart(names, dir, i, j);
    }
    forall j | 0 <= j < i ensures names[i] != Target(names[j], j).value {
      NamesStayApart(names, dir, j, i);
    }
  }

  // ---------------------------------------------------------------- the loop

  class Folder {
    var files: Directory
    /** Whether a rename can fail although its file is there. */
    const faulty: bool
    /** The names, in order, whose file was lost because another was renamed onto it. */
    ghost var lost: seq<string>

    /** os.Rename: replaces the target if there is one. */
    method Rename(from: string, to: string) returns (ok: bool)
      requires from != to
      modifies this
      ensures ok ==>
                && from in old(files)
                && files == (old(files) - {from})[to := old(files)[from]]
                && lost == old(lost) + (if to in old(files) then [to] else [])
      ensures !ok ==> files == old(files) && lost == old(lost)
      ensures !faulty && from in old(files) ==> ok
    {
      ok := true;
      if faulty { ok := *; }
      if from !in files { ok := false; }
      if ok {
        lost := lost + (if to in files then [to] else []);
        files := (files - {from})[to := files[from]];
      }
    }

    /** renumberMigrations, given the sorted names of the migrations; `done` of them have been
        dealt with when it returns. With distinct five-digit versions a run to the end loses a
        file if and only if two neighbours collide; without such neighbours no file is lost
        even if a rename fails half-way, and every file dealt with has its new name and its
        content. */
    method RenumberMigrations(names: seq<string>) returns (ok: bool, ghost done: nat)
      requires Listing(names, files)
      modifies this
      ensures done <= |names| && (ok ==> done == |names|)
      ensures WellPrefixed(names) ==> Ready(names, old(files)) && Progress(names, old(files), done, files, old(lost), lost)
      ensures WellPrefixed(names) && ok ==> (lost == old(lost) <==> Clear(names, |names|))
      ensures !faulty && WellPrefixed(names) && Clear(names, |names|) ==> ok
    {
      ghost var dir, start := files, lost;
      if WellPrefixed(names) { AllTargets(names, dir); StartsMoved(names, dir); }
      var i := 0;
      while i < |names|
        invariant 0 <= i <= |names|
        invariant WellPrefixed(names) ==> Ready(names, dir) && Progress(names, dir, i, files, start, lost)
      {
        ok := RenumberOne(names, i, dir, start);
        if !ok { return ok, i; }
        i := i + 1;
      }
      return true, i;
    }

    method RenumberOne(names: seq<string>, i: nat, ghost dir: Directory, ghost start: seq<string>) returns (ok: bool)
      requires i < |names|
      requires WellPrefixed(names) ==> Ready(names, dir) && Progress(names, dir, i, files, start, lost)
      modifies this
      ensures !ok ==> files == old(files) && lost == old(lost)
      ensures WellPrefixed(names) && ok ==> Progress(names, dir, i + 1, files, start, lost)
      ensures !faulty && WellPrefixed(names) && Clear(names, i) ==> ok
    {
      if WellPrefixed(names) && Clear(names, i) { assert FileKept(files, dir, names, i, i); }
      var name := names[i];
      var want := Target(name, i);
      ok := true;
      if want.Some? && want.value != name {
        ok := Rename(name, want.value);
      }
      if ok && WellPrefixed(names) { OneMoreFile(names, dir, i, old(files), files, start, old(lost), lost); }
    }
  }

  /** Until two files collide nothing is lost and the directory is as planned. */
  ghost predicate Progress(names: seq<string>, dir: Directory, i: nat, now: Directory, start: seq<string>, lost: seq<string>)
    requires i <= |names| && Ready(names, dir)
  {
    if Clear(names, i) then lost == start && Moved(now, dir, names, i) else |lost| > |start|
  }

  lemma OneMoreFile(names: seq<string>, dir: Directory, i: nat, now: Directory, next: Directory,
                    start: seq<string>, before: seq<string>, lost: seq<string>)
    requires i < |names| && Ready(names, dir) && Progress(names, dir, i, now, start, before)
    requires
      var t := Target(names[i], i).value;
      if t == names[i] then next == now && lost == before
      else
        names[i] in now && next == Next(now, names[i], t) && lost == before + (if t in now then [t] else [])
    ensures Progress(names, dir, i + 1, next, start, lost)
  {
    assert Clear(names, i + 1) <==> Clear(names, i) && !CollidesAt(names, i);
    if Clear(names, i) {
      assert FileKept(now, dir, names, i, i);
      if CollidesAt(names, i) { CollisionMoves(names, dir, i); } else { MovedStep(names, dir, now, i); }
      if Target(names[i], i).value != names[i] { TargetIsFree(names, dir, now, i); }
    }
  }

  lemma StartsMoved(names: seq<string>, dir: Directory)
    requires Ready(names, dir)
    ensures Moved(dir, dir, names, 0)
  {
    assert names[0..] == names;
    forall n ensures n in dir <==> IsMoved(n, dir, names, 0) { }
  }

  /** Every file is there under the next free version, with its own rest and content. */
  lemma RenumberedKeepsFiles(names: seq<string>, dir: Directory, now: Directory, i: nat)
    requires Ready(names, dir) && i < |names| && Moved(now, dir, names, |names|)
    ensures
      var t := Target(names[i], i).value;
      && t in now && now[t] == dir[names[i]]
      && t == FiveDigits(i + 1) + names[i][5..]
      && (i + 1 < 100000 ==> Numbered(t) && Version(t) == i + 1)
  {
    TargetIsNext(names, dir, i);
    assert FileKept(now, dir, names, |names|, i);
  }

  /** A migration of the result is one of those files, so versions are exactly 1 to n ... */
  lemma {:induction false} RenumberedIsExact(names: seq<string>, dir: Directory, now: Directory, n: string)
    requires Ready(names, dir) && Moved(now, dir, names, |names|)
    ensures n in now && HasSuffix(n) <==> exists i :: 0 <= i < |names| && n == Target(names[i], i).value
    ensures n in now && HasSuffix(n) && |names| < 100000 ==> Numbered(n) && 1 <= Version(n) <= |names|
  {
    assert n in now <==> IsMoved(n, dir, names, |names|);
    forall i | 0 <= i < |names|
      ensures var t := Target(names[i], i).value; HasSuffix(t) && (i + 1 < 100000 ==> Numbered(t) && Version(t) == i + 1)
    {
      TargetIsNext(names, dir, i);
    }
  }

  /** ... and sorting the result by name lists the files in the order they had before. */
  lemma RenumberedKeepsOrder(names: seq<string>, dir: Directory, i: nat, j: nat)
    requires Ready(names, dir) && i < j < |names| < 100000
    ensures Less(names[i], names[j])
    ensures Less(Target(names[i], i).value, Target(names[j], j).value)
  {
    TargetIsNext(names, dir, i);
    TargetIsNext(names, dir, j);
    SmallerVersionFirst(Target(names[i], i).value, Target(names[j], j).value, 5);
  }

  /** Of two names that start with digits, the one with the smaller number sorts first. */
  lemma {:induction false} SmallerVersionFirst(a: string, b: string, w: nat)
    requires w <= |a| && w <= |b| && Number(a[..w]) < Number(b[..w])
    requires forall i :: 0 <= i < w ==> IsDigit(a[i]) && IsDigit(b[i])
    ensures Less(a, b)
  {
    if w > 0 {
      assert a[..w][..w - 1] == a[..w - 1] && b[..w][..w - 1] == b[..w - 1];
      if Number(a[..w - 1]) < Number(b[..w - 1]) {
        SmallerVersionFirst(a, b, w - 1);
      } else {
        EqualNumbers(a[..w - 1], b[..w - 1]);
        assert LessAt(a, b, w - 1);
      }
    }
  }

  lemma {:induction false} EqualNumbers(a: string, b: string)
    requires |a| == |b| && Number(a) == Number(b)
    requires forall i :: 0 <= i < |a| ==> IsDigit(a[i]) && IsDigit(b[i])
    ensures a == b
  {
    if a != "" {
      var w := |a| - 1;
      EqualNumbers(a[..w], b[..w]);
      assert a == a[..w] + [a[w]] && b == b[..w] + [b[w]];
    }
  }

  /** A collision takes versions that run from zero without a gap up to the two files. */
  lemma {:induction false} CollisionsRunFromZero(names: seq<string>, dir: Directory, i: nat, j: nat)
    requires Ready(names, dir) && CollidesAt(names, i) && j <= i + 1
    ensures Version(names[j]) == j
    decreases i + 1 - j
  {
    if j <= i {
      CollisionsRunFromZero(names, dir, i, j + 1);
      VersionsLeaveRoom(names, dir, j);
      VersionsAscend(names, dir, j, j + 1);
    }
  }

  lemma NameOfVersion(k: nat, rest: string)
    requires k < 100000 && |rest| > 4 && rest[0] == '_' && HasSuffix(rest)
    ensures
      var name := Padded(k, 5) + rest;
      Prefixed(name) && HasSuffix(name) && Version(name) == k && name[5..] == rest
  {
    assert Pow10(5) == 100000;
    PaddedRoundTrip(k, 5);
    JoinedName(Padded(k, 5), rest);
  }

  /** Collisions exist: version zero before version one with the same rest. */
  lemma CollisionsExist(stem: string) returns (names: seq<string>, dir: Directory)
    ensures Listing(names, dir) && WellPrefixed(names) && CollidesAt(names, 0)
    ensures |names| == 2 && names[0][5..] == names[1][5..] == "_" + (stem + ".sql")
  {
    var rest := "_" + (stem + ".sql");
    assert rest[|rest| - 4..] == ".sql";
    var a, b := Padded(0, 5) + rest, Padded(1, 5) + rest;
    NameOfVersion(0, rest);
    NameOfVersion(1, rest);
    SmallerVersionFirst(a, b, 5);
    names, dir := [a, b], map[a := "", b := ""];
  }
}
