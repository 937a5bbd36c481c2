/** Fenced blocks of the scaffold's files and how dropping a slice removes them
    (cmd/forge/init.go). */
module Markers {
  import opened Options

  // ---------------------------------------------------------------- marker lines

  datatype Marker = Begin(name: string) | End(name: string)

  predicate IsWordChar(c: char) {
    c == '_' || 'a' <= c <= 'z' || 'A' <= c <= 'Z' || '0' <= c <= '9'
  }

  function LettersLen(s: string): (n: nat)
    ensures n <= |s|
  {
    if s == "" || !('a' <= s[0] <= 'z') then 0 else 1 + LettersLen(s[1..])
  }

  /** A run of lower-case letters that ends at a word boundary. */
  function WholeWord(s: string): Option<string> {
    var n := LettersLen(s);
    if n == 0 || (n < |s| && IsWordChar(s[n])) then None else Some(s[..n])
  }

  const BEGIN: string := "forge:begin "
  const END: string := "forge:end "

  function MarkerHere(s: string): Option<Marker> {
    if BEGIN <= s && WholeWord(s[|BEGIN|..]).Some? then Some(Begin(WholeWord(s[|BEGIN|..]).value))
    else if END <= s && WholeWord(s[|END|..]).Some? then Some(End(WholeWord(s[|END|..]).value))
    else None
  }

  /** The first marker of a line; `boundary` tells whether a word may begin at its start. */
  function FindMarker(s: string, boundary: bool): Option<Marker> {
    if s == "" then None
    else if boundary && MarkerHere(s).Some? then MarkerHere(s)
    else FindMarker(s[1..], !IsWordChar(s[0]))
  }

  function MarkerOf(line: string): Option<Marker> {
    FindMarker(line, true)
  }

  /** A marker that begins at `i`: one of the two words and a name in lower-case letters, with
      no letter, digit or underscore right before or after. */
  predicate MarkerAt(line: string, i: nat, m: Marker) {
    var mark := (if m.Begin? then "forge:begin " else "forge:end ") + m.name;
    && i + |mark| <= |line| && line[i..i + |mark|] == mark
    && m.name != "" && (forall k :: 0 <= k < |m.name| ==> 'a' <= m.name[k] <= 'z')
    && (i > 0 ==> Separates(line[i - 1]))
    && (i + |mark| < |line| ==> Separates(line[i + |mark|]))
  }

  predicate Separates(c: char) {
    !('a' <= c <= 'z') && !('A' <= c <= 'Z') && !('0' <= c <= '9') && c != '_'
  }

  lemma {:induction false} LettersReach(s: string)
    ensures forall k :: 0 <= k < LettersLen(s) ==> 'a' <= s[k] <= 'z'
  {
    if s != "" && 'a' <= s[0] <= 'z' {
      LettersReach(s[1..]);
      forall k | 0 <= k < LettersLen(s) ensures 'a' <= s[k] <= 'z' {
        if k > 0 { assert s[k] == s[1..][k - 1]; }
      }
    }
  }

  lemma {:induction false} LettersStop(s: string, n: nat)
    requires n <= |s| && (forall k :: 0 <= k < n ==> 'a' <= s[k] <= 'z')
    requires n < |s| ==> !('a' <= s[n] <= 'z')
    ensures LettersLen(s) == n
  {
    if n > 0 {
      LettersStop(s[1..], n - 1);
    }
  }

  /** WholeWord reads the name, if there is one. */
  lemma NameIsRead(s: string, name: string)
    ensures
      WholeWord(s) == Some(name) <==>
      && name != "" && name <= s && (forall k :: 0 <= k < |name| ==> 'a' <= name[k] <= 'z')
      && (|name| < |s| ==> Separates(s[|name|]))
  {
    LettersReach(s);
    if name <= s && (forall k :: 0 <= k < |name| ==> 'a' <= name[k] <= 'z') && (|name| < |s| ==> Separates(s[|name|])) {
      LettersStop(s, |name|);
      assert s[..|name|] == name;
    }
  }

  lemma {:induction false} MarkerIsRead(s: string, m: Marker)
    ensures MarkerHere(s) == Some(m) <==> MarkerAt(s, 0, m)
  {
    var word := if m.Begin? then BEGIN else END;
    if BEGIN <= s { assert s[6] == BEGIN[6] == 'b'; }
    if END <= s { assert s[6] == END[6] == 'e'; }
    PrefixInParts(s, word, m.name);
    if word <= s { NameIsRead(s[|word|..], m.name); }
  }

  lemma PrefixInParts(s: string, word: string, name: string)
    ensures |word + name| <= |s| && s[0..|word + name|] == word + name <==> word <= s && name <= s[|word|..]
  {
    var mark := word + name;
    if |mark| <= |s| && s[0..|mark|] == mark {
      assert forall i :: 0 <= i < |mark| ==> s[i] == s[0..|mark|][i] == mark[i];
    }
    if word <= s && name <= s[|word|..] {
      assert s == word + s[|word|..];
    }
  }

  lemma MarkerFurtherOn(line: string, i: nat, m: Marker)
    requires i <= |line|
    ensures MarkerAt(line, i, m) <==> MarkerAt(line[i..], 0, m) && (i > 0 ==> Separates(line[i - 1]))
  {
    var mark := (if m.Begin? then "forge:begin " else "forge:end ") + m.name;
    if i + |mark| <= |line| {
      assert line[i..][0..|mark|] == line[i..i + |mark|];
    }
  }

  /** `found` is the first marker of the line that begins at `i` or later. */
  ghost predicate FirstFrom(line: string, i: nat, found: Option<Marker>) {
    match found
    case None => forall j: nat, m :: i <= j ==> !MarkerAt(line, j, m)
    case Some(m) => exists j: nat :: i <= j && MarkerAt(line, j, m) && forall k: nat, n :: i <= k < j ==> !MarkerAt(line, k, n)
  }

  lemma {:induction false} FindsFirst(line: string, i: nat)
    requires i <= |line|
    ensures FirstFrom(line, i, FindMarker(line[i..], i > 0 ==> Separates(line[i - 1])))
    decreases |line| - i
  {
    var s, boundary := line[i..], i > 0 ==> Separates(line[i - 1]);
    if s != "" {
      forall m ensures MarkerAt(line, i, m) <==> boundary && MarkerHere(s) == Some(m) {
        MarkerFurtherOn(line, i, m);
        MarkerIsRead(s, m);
      }
      if boundary && MarkerHere(s).Some? {
        assert MarkerAt(line, i, MarkerHere(s).value);
      } else {
        assert s[1..] == line[i + 1..] && s[0] == line[i];
        FindsFirst(line, i + 1);
        FirstFromNext(line, i, FindMarker(s[1..], !IsWordChar(s[0])));
      }
    }
  }

  lemma FirstFromNext(line: string, i: nat, found: Option<Marker>)
    requires FirstFrom(line, i + 1, found) && forall m :: !MarkerAt(line, i, m)
    ensures FirstFrom(line, i, found)
  {
    if found.Some? {
      var j: nat :| i + 1 <= j && MarkerAt(line, j, found.value) && forall k: nat, n :: i + 1 <= k < j ==> !MarkerAt(line, k, n);
      forall k: nat, n | i <= k < j ensures !MarkerAt(line, k, n) { }
    }
  }

  /** A line's marker is the first one it holds. */
  lemma FirstMarker(line: string)
    ensures FirstFrom(line, 0, MarkerOf(line))
  {
    FindsFirst(line, 0);
    assert line[0..] == line;
  }

  // ---------------------------------------------------------------- lines

  /** strings.SplitAfter at newlines. */
  function SplitAfter(s: string): (r: seq<string>)
    ensures r != []
  {
    if s == "" then [""] else
      var r := SplitAfter(s[1..]);
      if s[0] == '\n' then ["\n"] + r else [[s[0]] + r[0]] + r[1..]
  }

  function Join(lines: seq<string>): string {
    if lines == [] then "" else lines[0] + Join(lines[1..])
  }

  lemma {:induction false} SplitThenJoin(s: string)
    ensures Join(SplitAfter(s)) == s
  {
    if s != "" {
      SplitThenJoin(s[1..]);
      var r := SplitAfter(s[1..]);
      assert s == [s[0]] + s[1..];
      if s[0] == '\n' {
        assert (["\n"] + r)[1..] == r;
      } else {
        assert ([[s[0]] + r[0]] + r[1..])[1..] == r[1..];
      }
    }
  }

  // ---------------------------------------------------------------- strip

  datatype Result<T> =
    | Ok(value: T)
    | UnknownMarker(name: string)
    | UnmatchedEnd(name: string)
    | UnmatchedBegin(name: string)

  /** The slices and derived markers of the scaffold, and the ones to remove. */
  datatype Plan = Plan(names: set<string>, dropped: set<string>)

  predicate Known(p: Plan, name: string) {
    name in p.names || name == "init"
  }

  predicate Drops(p: Plan, name: string) {
    name in p.dropped || name == "init"
  }

  function Skips(p: Plan, name: string): nat {
    if Drops(p, name) then 1 else 0
  }

  /** The loop of strip: `stack` are the open blocks, `skipping` how many of them are dropped. */
  function Filter(p: Plan, lines: seq<string>, stack: seq<string>, skipping: int, out: seq<string>): Result<seq<string>> {
    if lines == [] then
      if stack == [] then Ok(out) else UnmatchedBegin(stack[|stack| - 1])
    else
      var line, rest := lines[0], lines[1..];
      match MarkerOf(line)
      case None => Filter(p, rest, stack, skipping, if skipping == 0 then out + [line] else out)
      case Some(m) =>
        if !Known(p, m.name) then UnknownMarker(m.name)
        else if m.Begin? then Filter(p, rest, stack + [m.name], skipping + Skips(p, m.name), out)
        else if stack == [] || stack[|stack| - 1] != m.name then UnmatchedEnd(m.name)
        else Filter(p, rest, stack[..|stack| - 1], skipping - Skips(p, m.name), out)
  }

  /** How many newlines `s` begins with. */
  function RunLen(s: string): (n: nat)
    ensures n <= |s|
  {
    if s == "" || s[0] != '\n' then 0 else 1 + RunLen(s[1..])
  }

  /** collapseBlankLines: every longest run of three or more newlines becomes two. */
  function CollapseBlankLines(s: string): string
    decreases |s|
  {
    if s == "" then ""
    else if RunLen(s) >= 3 then "\n\n" + CollapseBlankLines(s[RunLen(s)..])
    else if RunLen(s) > 0 then s[..RunLen(s)] + CollapseBlankLines(s[RunLen(s)..])
    else [s[0]] + CollapseBlankLines(s[1..])
  }

  function TrimNewlines(s: string): string {
    if s != "" && s[0] == '\n' then TrimNewlines(s[1..]) else s
  }

  function Tidy(s: string): string {
    TrimNewlines(CollapseBlankLines(s))
  }

  function Stripped(p: Plan, src: string): Result<string> {
    match Filter(p, SplitAfter(src), [], 0, [])
    case Ok(lines) => Ok(Tidy(Join(lines)))
    case UnknownMarker(n) => UnknownMarker(n)
    case UnmatchedEnd(n) => UnmatchedEnd(n)
    case UnmatchedBegin(n) => UnmatchedBegin(n)
  }

  method Strip(p: Plan, src: string) returns (r: Result<string>)
    ensures r == Stripped(p, src)
  {
    var lines := SplitAfter(src);
    var out, stack, skipping := [], [], 0;
    var i := 0;
    while i < |lines|
      invariant 0 <= i <= |lines|
      invariant Filter(p, lines[i..], stack, skipping, out) == Filter(p, lines, [], 0, [])
    {
      var line := lines[i];
      assert lines[i..][1..] == lines[i + 1..];
      i := i + 1;
      var m := MarkerOf(line);
      if m.Some? {
        var name := m.value.name;
        if !Known(p, name) { return UnknownMarker(name); }
        match m.value {
          case Begin(_) =>
            stack := stack + [name];
            if Drops(p, name) {
              skipping := skipping + 1;
            }
          case End(_) =>
            if |stack| == 0 || stack[|stack| - 1] != name { return UnmatchedEnd(name); }
            stack := stack[..|stack| - 1];
            if Drops(p, name) {
              skipping := skipping - 1;
            }
        }
      } else if skipping == 0 {
        out := out + [line];
      }
    }
    assert lines[i..] == [];
    if |stack| != 0 { return UnmatchedBegin(stack[|stack| - 1]); }
    return Ok(Tidy(Join(out)));
  }

  // ---------------------------------------------------------------- the meaning of nested blocks

  /** A file as a tree: lines and blocks with their two marker lines. */
  datatype Doc =
    | Empty
    | Line(text: string, rest: Doc)
    | Block(open: string, name: string, body: Doc, close: string, rest: Doc)

  predicate WellFormed(p: Plan, d: Doc) {
    match d
    case Empty => true
    case Line(text, rest) => MarkerOf(text).None? && WellFormed(p, rest)
    case Block(open, name, body, close, rest) =>
      && MarkerOf(open) == Some(Begin(name)) && MarkerOf(close) == Some(End(name))
      && (name in p.names || name == "init")
      && WellFormed(p, body) && WellFormed(p, rest)
  }

  function Flat(d: Doc): seq<string> {
    match d
    case Empty => []
    case Line(text, rest) => [text] + Flat(rest)
    case Block(open, _, body, close, rest) => [open] + (Flat(body) + ([close] + Flat(rest)))
  }

  /** The lines all of whose enclosing blocks are kept, in order: a block goes if it is of a
      dropped slice, and blocks of the generator itself always go. */
  function Kept(p: Plan, d: Doc): seq<string> {
    match d
    case Empty => []
    case Line(text, rest) => [text] + Kept(p, rest)
    case Block(_, name, body, _, rest) => (if name in p.dropped || name == "init" then [] else Kept(p, body)) + Kept(p, rest)
  }

  /** Over the lines of a tree the loop adds what the tree keeps, and nothing in a dropped block. */
  lemma {:induction false} FilterOverDoc(p: Plan, d: Doc, more: seq<string>, stack: seq<string>, skipping: nat, out: seq<string>)
    requires WellFormed(p, d)
    ensures Filter(p, Flat(d) + more, stack, skipping, out) ==
      Filter(p, more, stack, skipping, if skipping == 0 then out + Kept(p, d) else out)
    decreases d, 1
  {
    match d
    case Empty =>
      assert Flat(d) + more == more && out + [] == out;
    case Line(text, rest) =>
      Append([text], Flat(rest), more);
      assert ([text] + (Flat(rest) + more))[1..] == Flat(rest) + more;
      var out' := if skipping == 0 then out + [text] else out;
      FilterOverDoc(p, rest, more, stack, skipping, out');
      Append(out, [text], Kept(p, rest));
    case Block(_, _, _, _, _) =>
      FilterOverBlock(p, d, more, stack, skipping, out);
  }

  lemma {:induction false} FilterOverBlock(p: Plan, d: Doc, more: seq<string>, stack: seq<string>, skipping: nat, out: seq<string>)
    requires d.Block? && WellFormed(p, d)
    ensures Filter(p, Flat(d) + more, stack, skipping, out) ==
      Filter(p, more, stack, skipping, if skipping == 0 then out + Kept(p, d) else out)
    decreases d, 0
  {
    var tail := Flat(d.rest) + more;
    BlockLines(d.open, Flat(d.body), d.close, Flat(d.rest), more);
    FilterBegin(p, d.open, d.name, Flat(d.body) + ([d.close] + tail), stack, skipping, out);
    var inner := skipping + Skips(p, d.name);
    FilterOverDoc(p, d.body, [d.close] + tail, stack + [d.name], inner, out);
    var out' := if inner == 0 then out + Kept(p, d.body) else out;
    FilterEnd(p, d.close, d.name, tail, stack, inner, out');
    FilterOverDoc(p, d.rest, more, stack, skipping, out');
    BlockKept(p, d, skipping, out);
  }

  /** What a block and the lines after it add. */
  lemma BlockKept(p: Plan, d: Doc, skipping: nat, out: seq<string>)
    requires d.Block?
    ensures
      var out' := if skipping + Skips(p, d.name) == 0 then out + Kept(p, d.body) else out;
      if skipping == 0 then out' + Kept(p, d.rest) == out + Kept(p, d) else out' == out
  {
    Append(out, if Drops(p, d.name) then [] else Kept(p, d.body), Kept(p, d.rest));
  }

  lemma FilterBegin(p: Plan, line: string, name: string, rest: seq<string>, stack: seq<string>, skipping: int, out: seq<string>)
    requires MarkerOf(line) == Some(Begin(name)) && Known(p, name)
    ensures Filter(p, [line] + rest, stack, skipping, out) == Filter(p, rest, stack + [name], skipping + Skips(p, name), out)
  {
    assert ([line] + rest)[1..] == rest;
  }

  lemma FilterEnd(p: Plan, line: string, name: string, rest: seq<string>, stack: seq<string>, skipping: int, out: seq<string>)
    requires MarkerOf(line) == Some(End(name)) && Known(p, name)
    ensures Filter(p, [line] + rest, stack + [name], skipping, out) == Filter(p, rest, stack, skipping - Skips(p, name), out)
  {
    assert ([line] + rest)[1..] == rest && (stack + [name])[..|stack|] == stack;
  }

  lemma Append(a: seq<string>, b: seq<string>, c: seq<string>)
    ensures a + b + c == a + (b + c)
  {
  }

  /** What the loop has accepted was a tree: up to the end of the innermost open block, and
      from there on the loop accepted the rest. */
  lemma {:induction false} ReadDoc(p: Plan, lines: seq<string>, stack: seq<string>, skipping: int, out: seq<string>)
    returns (d: Doc, close: string, more: seq<string>, skipping': int, out': seq<string>)
    requires Filter(p, lines, stack, skipping, out).Ok?
    ensures WellFormed(p, d)
    ensures stack == [] ==> lines == Flat(d)
    ensures stack != [] ==>
      && lines == Flat(d) + ([close] + more) && |more| < |lines|
      && MarkerOf(close) == Some(End(stack[|stack| - 1]))
      && Filter(p, more, stack[..|stack| - 1], skipping', out').Ok?
    decreases |lines|
  {
    d, close, more, skipping', out' := Empty, "", [], 0, [];
    if lines != [] {
      var line, rest := lines[0], lines[1..];
      assert lines == [line] + rest;
      match MarkerOf(line)
      case None =>
        var tail: Doc;
        tail, close, more, skipping', out' :=
          ReadDoc(p, rest, stack, skipping, if skipping == 0 then out + [line] else out);
        d := Line(line, tail);
        assert stack != [] ==> [line] + (Flat(tail) + ([close] + more)) == Flat(d) + ([close] + more);
      case Some(End(name)) =>
        close, more, skipping', out' := line, rest, skipping - Skips(p, name), out;
        assert Flat(Empty) + ([close] + more) == lines;
      case Some(Begin(name)) =>
        var body, last, after, k, o := ReadDoc(p, rest, stack + [name], skipping + Skips(p, name), out);
        assert (stack + [name])[..|stack|] == stack;
        var tail: Doc;
        tail, close, more, skipping', out' := ReadDoc(p, after, stack, k, o);
        d := Block(line, name, body, last, tail);
        ReadBlock(p, line, name, body, last, tail, if stack == [] then [] else [close] + more);
        if stack == [] { assert Flat(tail) + [] == Flat(tail) && Flat(d) + [] == Flat(d); }
    }
  }

  lemma ReadBlock(p: Plan, open: string, name: string, body: Doc, close: string, tail: Doc, more: seq<string>)
    requires MarkerOf(open) == Some(Begin(name)) && MarkerOf(close) == Some(End(name)) && Known(p, name)
    requires WellFormed(p, body) && WellFormed(p, tail)
    ensures
      var d := Block(open, name, body, close, tail);
      WellFormed(p, d) && [open] + (Flat(body) + ([close] + (Flat(tail) + more))) == Flat(d) + more
  {
    BlockLines(open, Flat(body), close, Flat(tail), more);
  }

  lemma BlockLines(a: string, b: seq<string>, c: string, d: seq<string>, e: seq<string>)
    ensures [a] + (b + ([c] + (d + e))) == ([a] + (b + ([c] + d))) + e
  {
  }

  /** strip succeeds exactly on files whose markers nest and are known. */
  lemma StripAcceptsNestedBlocks(p: Plan, src: string)
    ensures Stripped(p, src).Ok? <==> exists d :: WellFormed(p, d) && Flat(d) == SplitAfter(src)
  {
    var lines := SplitAfter(src);
    if Stripped(p, src).Ok? {
      var d, _, _, _, _ := ReadDoc(p, lines, [], 0, []);
    }
    if d :| WellFormed(p, d) && Flat(d) == lines {
      FilterOverDoc(p, d, [], [], 0, []);
      assert Flat(d) + [] == Flat(d);
    }
  }

  /** And then its text is that of the lines outside dropped blocks, in order, tidied. */
  lemma StripKeepsTheRest(p: Plan, src: string, d: Doc)
    requires WellFormed(p, d) && Flat(d) == SplitAfter(src)
    ensures Stripped(p, src) == Ok(Tidy(Join(Kept(p, d))))
  {
    FilterOverDoc(p, d, [], [], 0, []);
    assert Flat(d) + [] == Flat(d) && [] + Kept(p, d) == Kept(p, d);
  }

  /** The file without the generator's own blocks. */
  function WithoutInit(d: Doc): Doc {
    match d
    case Empty => Empty
    case Line(text, rest) => Line(text, WithoutInit(rest))
    case Block(open, name, body, close, rest) =>
      if name == "init" then WithoutInit(rest) else Block(open, name, WithoutInit(body), close, WithoutInit(rest))
  }

  predicate HasInit(d: Doc) {
    match d
    case Empty => false
    case Line(_, rest) => HasInit(rest)
    case Block(_, name, body, _, rest) => name == "init" || HasInit(body) || HasInit(rest)
  }

  /** Whatever is dropped, nothing of those blocks, however deep they stand, is kept. */
  lemma {:induction false} InitBlocksGo(p: Plan, d: Doc)
    ensures Kept(p, d) == Kept(p, WithoutInit(d)) && !HasInit(WithoutInit(d))
    ensures WellFormed(p, d) ==> WellFormed(p, WithoutInit(d))
    decreases d
  {
    match d
    case Empty =>
    case Line(_, rest) => InitBlocksGo(p, rest);
    case Block(_, _, body, _, rest) =>
      InitBlocksGo(p, body);
      InitBlocksGo(p, rest);
  }

  predicate Subsequence(a: seq<string>, b: seq<string>) {
    a == [] || (b != [] && (if a[0] == b[0] then Subsequence(a[1..], b[1..]) else Subsequence(a, b[1..])))
  }

  lemma {:induction false} SubsequenceSkips(a: seq<string>, b: seq<string>)
    requires a != [] && Subsequence(a, b)
    ensures Subsequence(a[1..], b)
    decreases |b|, 0
  {
    if a[0] == b[0] {
      SubsequenceOfMore(a[1..], b[0], b[1..]);
      assert [b[0]] + b[1..] == b;
    } else {
      SubsequenceSkips(a, b[1..]);
      SubsequenceOfMore(a[1..], b[0], b[1..]);
      assert [b[0]] + b[1..] == b;
    }
  }

  lemma {:induction false} SubsequenceOfMore(a: seq<string>, x: string, b: seq<string>)
    requires Subsequence(a, b)
    ensures Subsequence(a, [x] + b)
    decreases |b|, 1
  {
    assert ([x] + b)[1..] == b;
    if a != [] && a[0] == x {
      SubsequenceSkips(a, b);
    }
  }

  lemma {:induction false} SubsequenceConcat(a: seq<string>, b: seq<string>, c: seq<string>, d: seq<string>)
    requires Subsequence(a, b) && Subsequence(c, d)
    ensures Subsequence(a + c, b + d)
    decreases |b|
  {
    if b == [] {
      assert a + c == c && b + d == d;
    } else {
      assert (b + d)[1..] == b[1..] + d && [b[0]] + (b[1..] + d) == b + d;
      if a == [] {
        assert a + c == c;
        SubsequenceConcat([], b[1..], c, d);
        assert [] + c == c;
        SubsequenceOfMore(c, b[0], b[1..] + d);
      } else if a[0] == b[0] {
        assert (a + c)[1..] == a[1..] + c;
        SubsequenceConcat(a[1..], b[1..], c, d);
      } else {
        SubsequenceConcat(a, b[1..], c, d);
      }
    }
  }

  /** Dropping more slices only takes lines away. */
  lemma {:induction false} DroppingMoreKeepsLess(names: set<string>, few: set<string>, many: set<string>, d: Doc)
    requires few <= many
    ensures Subsequence(Kept(Plan(names, many), d), Kept(Plan(names, few), d))
    decreases d
  {
    var p, q := Plan(names, many), Plan(names, few);
    match d
    case Empty =>
    case Line(text, rest) =>
      DroppingMoreKeepsLess(names, few, many, rest);
      SubsequenceConcat([text], [text], Kept(p, rest), Kept(q, rest));
    case Block(_, name, body, _, rest) =>
      DroppingMoreKeepsLess(names, few, many, body);
      DroppingMoreKeepsLess(names, few, many, rest);
      SubsequenceConcat(if Drops(p, name) then [] else Kept(p, body), if Drops(q, name) then [] else Kept(q, body),
                        Kept(p, rest), Kept(q, rest));
  }

  // ---------------------------------------------------------------- the final text

  /** A newline after two others is dropped; `n` newlines stand just before. */
  function Cap(s: string, n: nat): string {
    if s == "" then ""
    else if s[0] != '\n' then [s[0]] + Cap(s[1..], 0)
    else if n < 2 then "\n" + Cap(s[1..], n + 1)
    else Cap(s[1..], n)
  }

  predicate RunAt(s: string, i: nat) {
    i + 2 < |s| && s[i] == s[i + 1] == s[i + 2] == '\n'
  }

  /** No more than two newlines stand together, `n` of which were just before. */
  predicate Capped(s: string, n: nat) {
    s == "" || (if s[0] == '\n' then n < 2 && Capped(s[1..], n + 1) else Capped(s[1..], 0))
  }

  lemma {:induction false} CapCaps(s: string, n: nat)
    ensures Capped(Cap(s, n), n)
  {
    if s != "" {
      if s[0] != '\n' {
        CapCaps(s[1..], 0);
        assert ([s[0]] + Cap(s[1..], 0))[1..] == Cap(s[1..], 0);
      } else if n < 2 {
        CapCaps(s[1..], n + 1);
        assert ("\n" + Cap(s[1..], n + 1))[1..] == Cap(s[1..], n + 1);
      } else {
        CapCaps(s[1..], n);
      }
    }
  }

  lemma {:induction false} CappedIsFixed(s: string, n: nat)
    requires Capped(s, n)
    ensures Cap(s, n) == s
  {
    if s != "" {
      CappedIsFixed(s[1..], if s[0] == '\n' then n + 1 else 0);
      assert s == [s[0]] + s[1..];
    }
  }

  lemma {:induction false} CappedHasNoRun(s: string, n: nat, i: nat)
    requires Capped(s, n) && i + 3 <= |s|
    ensures !RunAt(s, i)
  {
    if i == 0 {
      var t := s[1..];
      var u := t[1..];
      assert t[0] == s[1] && u[0] == s[2];
      assert !(s[0] == '\n' && s[1] == '\n' && s[2] == '\n') by {
        if s[0] == '\n' && t[0] == '\n' {
          assert Capped(t, n + 1) && Capped(u, n + 2);
        }
      }
    } else {
      CappedHasNoRun(s[1..], if s[0] == '\n' then n + 1 else 0, i - 1);
    }
  }

  lemma {:induction false} CappedWithFewer(s: string, n: nat, m: nat)
    requires Capped(s, n) && m <= n
    ensures Capped(s, m)
  {
    if s != "" && s[0] == '\n' {
      CappedWithFewer(s[1..], n + 1, m + 1);
    }
  }

  lemma {:induction false} TrimStaysCapped(s: string, n: nat)
    requires Capped(s, n)
    ensures Capped(TrimNewlines(s), 0)
    ensures TrimNewlines(s) != "" ==> TrimNewlines(s)[0] != '\n'
  {
    if s != "" && s[0] == '\n' {
      TrimStaysCapped(s[1..], n + 1);
    } else {
      CappedWithFewer(s, n, 0);
    }
  }

  lemma TidyIsIdempotent(s: string)
    ensures Tidy(Tidy(s)) == Tidy(s)
    ensures Tidy(s) != "" ==> Tidy(s)[0] != '\n'
    ensures forall i: nat :: !RunAt(Tidy(s), i)
  {
    CapIsCollapse(s);
    CapIsCollapse(Tidy(s));
    CapCaps(s, 0);
    TrimStaysCapped(Cap(s, 0), 0);
    CappedIsFixed(Tidy(s), 0);
    forall i: nat ensures !RunAt(Tidy(s), i) {
      if i + 3 <= |Tidy(s)| { CappedHasNoRun(Tidy(s), 0, i); }
    }
  }

  function Newlines(n: nat): string {
    if n == 0 then "" else "\n" + Newlines(n - 1)
  }

  lemma {:induction false} CapOverRun(s: string, n: nat)
    requires n <= 2
    ensures
      var k := RunLen(s);
      Cap(s, n) == Newlines(if n + k <= 2 then k else 2 - n) + Cap(s[k..], 0)
    decreases |s|
  {
    var k := RunLen(s);
    if k == 0 {
      assert s[0..] == s && Cap(s, n) == Cap(s, 0);
    } else {
      assert s[1..][k - 1..] == s[k..];
      CapOverRun(s[1..], if n < 2 then n + 1 else n);
    }
  }

  lemma {:induction false} RunIsNewlines(s: string)
    ensures s[..RunLen(s)] == Newlines(RunLen(s))
  {
    var k := RunLen(s);
    if k > 0 {
      RunIsNewlines(s[1..]);
      assert s[..k] == [s[0]] + s[1..][..k - 1];
    }
  }

  /** Capping newlines one at a time is collapsing whole runs. */
  lemma {:induction false} CapIsCollapse(s: string)
    ensures Cap(s, 0) == CollapseBlankLines(s)
    decreases |s|
  {
    if s != "" {
      var k := RunLen(s);
      if k > 0 {
        CapOverRun(s, 0);
        CapIsCollapse(s[k..]);
        RunIsNewlines(s);
        assert Newlines(2) == "\n" + ("\n" + Newlines(0));
      } else {
        CapIsCollapse(s[1..]);
      }
    }
  }

  // ---------------------------------------------------------------- stripping twice

  /** No line of `s` is a marker line, the first being continued from `acc`. */
  predicate MarkerFree(acc: string, s: string)
    decreases s
  {
    if s == "" then MarkerOf(acc).None?
    else if s[0] == '\n' then MarkerOf(acc + "\n").None? && MarkerFree("", s[1..])
    else MarkerFree(acc + [s[0]], s[1..])
  }

  lemma {:induction false} MarkerFreeLines(acc: string, s: string)
    ensures MarkerFree(acc, s) <==> FreeLines(acc, SplitAfter(s))
    decreases s
  {
    if s == "" {
      assert acc + "" == acc;
    } else if s[0] == '\n' {
      MarkerFreeLines("", s[1..]);
      LineEnds(acc, SplitAfter(s[1..]));
    } else {
      MarkerFreeLines(acc + [s[0]], s[1..]);
      LineGoesOn(acc, s[0], SplitAfter(s[1..]));
    }
  }

  /** No line is a marker, when `acc` stands before the first. */
  predicate FreeLines(acc: string, lines: seq<string>)
    requires lines != []
  {
    MarkerOf(acc + lines[0]).None? && forall l :: l in lines[1..] ==> MarkerOf(l).None?
  }

  lemma LineEnds(acc: string, lines: seq<string>)
    requires lines != []
    ensures FreeLines(acc, ["\n"] + lines) <==> MarkerOf(acc + "\n").None? && FreeLines("", lines)
  {
    assert (["\n"] + lines)[1..] == lines;
    assert "" + lines[0] == lines[0] && lines == [lines[0]] + lines[1..];
  }

  lemma LineGoesOn(acc: string, c: char, lines: seq<string>)
    requires lines != []
    ensures FreeLines(acc, [[c] + lines[0]] + lines[1..]) <==> FreeLines(acc + [c], lines)
  {
    assert acc + [c] + lines[0] == acc + ([c] + lines[0]);
    assert ([[c] + lines[0]] + lines[1..])[1..] == lines[1..];
  }

  lemma {:induction false} CapStaysFree(acc: string, s: string, n: nat)
    requires MarkerFree(acc, s) && (n > 0 ==> acc == "")
    ensures MarkerFree(acc, Cap(s, n))
    decreases s
  {
    if s != "" {
      if s[0] != '\n' {
        CapStaysFree(acc + [s[0]], s[1..], 0);
        assert ([s[0]] + Cap(s[1..], 0))[1..] == Cap(s[1..], 0);
      } else if n < 2 {
        CapStaysFree("", s[1..], n + 1);
        assert ("\n" + Cap(s[1..], n + 1))[1..] == Cap(s[1..], n + 1);
      } else {
        CapStaysFree("", s[1..], n);
      }
    }
  }

  lemma {:induction false} TrimStaysFree(s: string)
    requires MarkerFree("", s)
    ensures MarkerFree("", TrimNewlines(s))
  {
    if s != "" && s[0] == '\n' {
      TrimStaysFree(s[1..]);
    }
  }

  /** Lines as SplitAfter makes them: a newline at the end of each but perhaps the last. */
  predicate Proper(lines: seq<string>) {
    lines == [] || (
      && ProperLine(lines[0])
      && (|lines| > 1 ==> lines[0] != "" && lines[0][|lines[0]| - 1] == '\n')
      && Proper(lines[1..]))
  }

  predicate ProperLine(l: string) {
    l == "" || (if l[0] == '\n' then |l| == 1 else ProperLine(l[1..]))
  }

  lemma {:induction false} SplitIsProper(s: string)
    ensures Proper(SplitAfter(s))
  {
    if s != "" {
      SplitIsProper(s[1..]);
      var r := SplitAfter(s[1..]);
      if s[0] == '\n' {
        assert (["\n"] + r)[1..] == r;
      } else {
        var l := [s[0]] + r[0];
        assert ([l] + r[1..])[1..] == r[1..] && l[1..] == r[0];
      }
    }
  }

  /** Joining marker-free lines gives marker-free text. */
  lemma {:induction false} JoinIsFree(lines: seq<string>)
    requires Proper(lines) && forall l :: l in lines ==> MarkerOf(l).None?
    ensures MarkerFree("", Join(lines))
  {
    if lines != [] {
      assert lines[0] in lines;
      forall l | l in lines[1..] ensures MarkerOf(l).None? { assert l in lines; }
      JoinIsFree(lines[1..]);
      assert |lines| == 1 ==> Join(lines[1..]) == "";
      assert "" + lines[0] == lines[0];
      LineIsFree("", lines[0], Join(lines[1..]));
    }
  }

  lemma {:induction false} LineIsFree(acc: string, l: string, rest: string)
    requires ProperLine(l) && MarkerOf(acc + l).None? && MarkerFree("", rest)
    requires rest == "" || (l != "" && l[|l| - 1] == '\n')
    ensures MarkerFree(acc, l + rest)
    decreases l
  {
    if l == "" {
      assert l + rest == "" && acc + l == acc;
    } else {
      assert (l + rest)[1..] == l[1..] + rest;
      if l[0] == '\n' {
        assert l == "\n" && l[1..] + rest == rest;
      } else {
        assert acc + [l[0]] + l[1..] == acc + l;
        if |l| == 1 { assert l[1..] == ""; }
        LineIsFree(acc + [l[0]], l[1..], rest);
      }
    }
  }

  /** Leaving lines out keeps the rest proper; what the loop keeps is not a marker line. */
  lemma {:induction false} FilterIsProper(p: Plan, lines: seq<string>, stack: seq<string>, skipping: int, out: seq<string>)
    requires Filter(p, lines, stack, skipping, out).Ok? && Proper(out + lines)
    requires forall l :: l in out ==> MarkerOf(l).None?
    ensures
      var r := Filter(p, lines, stack, skipping, out).value;
      Proper(r) && forall l :: l in r ==> MarkerOf(l).None?
    decreases |lines|
  {
    if lines == [] {
      assert out + lines == out;
    } else {
      var line, rest := lines[0], lines[1..];
      assert out + lines == out + ([line] + rest);
      DropOne(out, line, rest);
      match MarkerOf(line)
      case None =>
        assert out + [line] + rest == out + lines;
        FilterIsProper(p, rest, stack, skipping, if skipping == 0 then out + [line] else out);
      case Some(Begin(name)) => FilterIsProper(p, rest, stack + [name], skipping + Skips(p, name), out);
      case Some(End(name)) => FilterIsProper(p, rest, stack[..|stack| - 1], skipping - Skips(p, name), out);
    }
  }

  lemma {:induction false} DropOne(a: seq<string>, line: string, b: seq<string>)
    requires Proper(a + ([line] + b))
    ensures Proper(a + b)
  {
    if a == [] {
      assert (a + ([line] + b))[1..] == b && a + b == b;
    } else {
      assert (a + ([line] + b))[1..] == a[1..] + ([line] + b);
      assert (a + b)[1..] == a[1..] + b;
      DropOne(a[1..], line, b);
    }
  }

  lemma {:induction false} FilterKeepsFreeLines(p: Plan, lines: seq<string>, out: seq<string>)
    requires forall l :: l in lines ==> MarkerOf(l).None?
    ensures Filter(p, lines, [], 0, out) == Ok(out + lines)
    decreases |lines|
  {
    if lines == [] {
      assert out + lines == out;
    } else {
      assert lines[0] in lines;
      forall l | l in lines[1..] ensures MarkerOf(l).None? { assert l in lines; }
      FilterKeepsFreeLines(p, lines[1..], out + [lines[0]]);
      assert out + [lines[0]] + lines[1..] == out + lines;
    }
  }

  /** The result has no leading newline and no run of three, and stripping it again, whatever
      is dropped then, changes nothing. */
  lemma StripIsFinal(p: Plan, src: string, again: Plan)
    requires Stripped(p, src).Ok?
    ensures
      var out := Stripped(p, src).value;
      && (out != "" ==> out[0] != '\n')
      && (forall i: nat :: !RunAt(out, i))
      && Stripped(again, out) == Ok(out)
  {
    var lines := SplitAfter(src);
    SplitIsProper(src);
    assert [] + lines == lines;
    FilterIsProper(p, lines, [], 0, []);
    var kept := Filter(p, lines, [], 0, []).value;
    var out := Tidy(Join(kept));
    TidyIsIdempotent(Join(kept));
    CapIsCollapse(Join(kept));
    JoinIsFree(kept);
    CapStaysFree("", Join(kept), 0);
    TrimStaysFree(Cap(Join(kept), 0));
    MarkerFreeLines("", out);
    var again' := SplitAfter(out);
    forall l | l in again' ensures MarkerOf(l).None? {
      assert again' == [again'[0]] + again'[1..] && "" + again'[0] == again'[0];
    }
    FilterKeepsFreeLines(again, again', []);
    assert [] + again' == again';
    SplitThenJoin(out);
  }
}
