/** The hand-written SQL lexer of the migration preflight (cmd/forge/resource_schema.go).
    Sources are byte strings; each character stands for one byte. */
module SqlTokens {
  import opened Options

  predicate IsTagChar(c: char) {
    c == '_' || 'a' <= c <= 'z' || 'A' <= c <= 'Z' || '0' <= c <= '9'
  }

  predicate IsWordChar(c: char) {
    c == '$' || IsTagChar(c)
  }

  predicate Starts(s: string, a: char, b: char) {
    |s| >= 2 && s[0] == a && s[1] == b
  }

  function LowerChar(c: char): char {
    if 'A' <= c <= 'Z' then c - 'A' + 'a' else c
  }

  function Lower(s: string): string {
    seq(|s|, i requires 0 <= i < |s| => LowerChar(s[i]))
  }

  /** How far a line comment reaches. */
  function LineLen(s: string): (n: nat)
    ensures n <= |s|
  {
    if s == "" || s[0] == '\n' then 0 else 1 + LineLen(s[1..])
  }

  /** How far a block comment reaches from inside `depth` open ones. */
  function BlockLen(s: string, depth: nat): (n: nat)
    ensures n <= |s|
  {
    if s == "" || depth == 0 then 0
    else if Starts(s, '/', '*') then 2 + BlockLen(s[2..], depth + 1)
    else if Starts(s, '*', '/') then 2 + BlockLen(s[2..], depth - 1)
    else 1 + BlockLen(s[1..], depth)
  }

  predicate BlockClosed(s: string, depth: nat) {
    depth == 0 || (s != "" &&
      if Starts(s, '/', '*') then BlockClosed(s[2..], depth + 1)
      else if Starts(s, '*', '/') then BlockClosed(s[2..], depth - 1)
      else BlockClosed(s[1..], depth))
  }

  datatype Quoted = Quoted(value: string, len: nat)

  /** The rest of a quoted token: a doubled quote stands for one, a single one ends it. */
  function Unquote(s: string, quote: char): (r: Quoted)
    ensures r.len <= |s|
  {
    if s == "" then Quoted("", 0)
    else if s[0] != quote then
      var r := Unquote(s[1..], quote);
      Quoted([s[0]] + r.value, 1 + r.len)
    else if |s| == 1 || s[1] != quote then Quoted("", 1)
    else
      var r := Unquote(s[2..], quote);
      Quoted([quote] + r.value, 2 + r.len)
  }

  predicate QuoteClosed(s: string, quote: char) {
    s != "" &&
    if s[0] != quote then QuoteClosed(s[1..], quote)
    else if |s| == 1 || s[1] != quote then true
    else QuoteClosed(s[2..], quote)
  }

  function TagLen(s: string): (n: nat)
    ensures n <= |s|
  {
    if s == "" || !IsTagChar(s[0]) then 0 else 1 + TagLen(s[1..])
  }

  function WordLen(s: string): (n: nat)
    ensures n <= |s|
    ensures s != "" && IsTagChar(s[0]) ==> n > 0
  {
    if s == "" || !IsWordChar(s[0]) then 0 else 1 + WordLen(s[1..])
  }

  /** strings.Index. */
  function IndexOf(s: string, t: string): (r: Option<nat>)
    ensures r.Some? ==> r.value + |t| <= |s|
  {
    if t <= s then Some(0)
    else if s == "" then None
    else
      match IndexOf(s[1..], t)
      case None => None
      case Some(i) => Some(1 + i)
  }

  /** Whether `s` begins with a dollar-quote delimiter, and how long that is. */
  function Delimiter(s: string): (r: Option<nat>)
    requires s != "" && s[0] == '$'
    ensures r.Some? ==> 2 <= r.value <= |s|
  {
    var n := TagLen(s[1..]);
    if 1 + n < |s| && s[1 + n] == '$' then Some(n + 2) else None
  }

  datatype Step = Step(tokens: seq<string>, len: nat)

  const PUNCTUATION: string := ".;,()"

  /** The first comment, literal, word or character of a non-empty source. */
  function Next(s: string): (r: Step)
    requires s != ""
    ensures 0 < r.len <= |s|
  {
    var c := s[0];
    if Starts(s, '-', '-') then
      assert LineLen(s) == 2 + LineLen(s[1..][1..]);
      Step([], LineLen(s))
    else if Starts(s, '/', '*') then Step([], 2 + BlockLen(s[2..], 1))
    else if c == '\'' || c == '"' then
      var q := Unquote(s[1..], c);
      Step(if c == '"' then [q.value] else [], 1 + q.len)
    else if c == '$' then
      match Delimiter(s)
      case None => Step([], 1)
      case Some(d) =>
        (match IndexOf(s[d..], s[..d])
         case None => Step([], 1)
         case Some(i) => Step([], d + i + d))
    else if IsTagChar(c) then Step([Lower(s[..WordLen(s)])], WordLen(s))
    else Step(if c in PUNCTUATION then [[c]] else [], 1)
  }

  function Tokens(s: string): seq<string> {
    if s == "" then [] else Next(s).tokens + Tokens(s[Next(s).len..])
  }

  // ---------------------------------------------------------------- the loops

  method SqlTokens(source: string) returns (tokens: seq<string>)
    ensures tokens == Tokens(source)
  {
    tokens := [];
    var i := 0;
    while i < |source|
      invariant 0 <= i <= |source|
      invariant tokens + Tokens(source[i..]) == Tokens(source)
      decreases |source| - i
    {
      var n, emitted := NextToken(source[i..]);
      TakeStep(tokens, source, i, Step(emitted, n));
      tokens := tokens + emitted;
      i := i + n;
    }
    assert source[i..] == "";
  }

  lemma TakeStep(tokens: seq<string>, source: string, i: nat, step: Step)
    requires i < |source| && step == Next(source[i..])
    ensures tokens + Tokens(source[i..]) == (tokens + step.tokens) + Tokens(source[i + step.len..])
  {
    assert source[i..][step.len..] == source[i + step.len..];
  }

  /** One turn of the outer loop, on the source that is left. */
  method NextToken(s: string) returns (n: nat, emitted: seq<string>)
    requires s != ""
    ensures Step(emitted, n) == Next(s)
  {
    emitted := [];
    if Starts(s, '-', '-') {
      n := ReadLine(s);
    } else if Starts(s, '/', '*') {
      n := ReadBlock(s);
    } else if s[0] == '\'' || s[0] == '"' {
      var value: string;
      n, value := ReadQuoted(s);
      if s[0] == '"' {
        emitted := [value];
      }
    } else if s[0] == '$' {
      n := ReadDollar(s);
    } else if IsTagChar(s[0]) {
      n := ReadWord(s);
      emitted := [Lower(s[..n])];
    } else {
      if s[0] in PUNCTUATION {
        emitted := [[s[0]]];
      }
      n := 1;
    }
  }

  method ReadLine(s: string) returns (n: nat)
    ensures n == LineLen(s)
  {
    n := 0;
    while n < |s| && s[n] != '\n'
      invariant 0 <= n <= |s| && n + LineLen(s[n..]) == LineLen(s)
    {
      assert s[n..][1..] == s[n + 1..];
      n := n + 1;
    }
  }

  method ReadWord(s: string) returns (n: nat)
    ensures n == WordLen(s)
  {
    n := 0;
    while n < |s| && IsWordChar(s[n])
      invariant 0 <= n <= |s| && n + WordLen(s[n..]) == WordLen(s)
    {
      assert s[n..][1..] == s[n + 1..];
      n := n + 1;
    }
  }

  method ReadBlock(s: string) returns (n: nat)
    requires |s| >= 2
    ensures n == 2 + BlockLen(s[2..], 1)
  {
    n := 2;
    var depth := 1;
    while n < |s| && depth > 0
      invariant 2 <= n <= |s| && 0 <= depth
      invariant n + BlockLen(s[n..], depth) == 2 + BlockLen(s[2..], 1)
    {
      var rest := s[n..];
      assert rest[1..] == s[n + 1..];
      if Starts(rest, '/', '*') {
        assert rest[2..] == s[n + 2..];
        depth := depth + 1;
        n := n + 2;
      } else if Starts(rest, '*', '/') {
        assert rest[2..] == s[n + 2..];
        depth := depth - 1;
        n := n + 2;
      } else {
        n := n + 1;
      }
    }
  }

  method ReadDollar(s: string) returns (n: nat)
    requires s != "" && s[0] == '$'
    ensures Step([], n) == Next(s)
  {
    var end := 1;
    while end < |s| && IsTagChar(s[end])
      invariant 1 <= end <= |s| && end + TagLen(s[end..]) == 1 + TagLen(s[1..])
    {
      assert s[end..][1..] == s[end + 1..];
      end := end + 1;
    }
    if end < |s| && s[end] == '$' {
      var tag := s[..end + 1];
      var closing := IndexOf(s[end + 1..], tag);
      if closing.Some? {
        return end + 1 + closing.value + |tag|;
      }
    }
    n := 1;
  }

  method ReadQuoted(s: string) returns (n: nat, value: string)
    requires s != ""
    ensures value == Unquote(s[1..], s[0]).value && n == 1 + Unquote(s[1..], s[0]).len
  {
    var quote := s[0];
    n, value := 1, "";
    ghost var all := Unquote(s[1..], quote);
    while n < |s|
      invariant 1 <= n <= |s|
      invariant all.value == value + Unquote(s[n..], quote).value
      invariant all.len + 1 == n + Unquote(s[n..], quote).len
    {
      var rest := s[n..];
      assert rest[1..] == s[n + 1..];
      if s[n] == quote {
        n := n + 1;
        if n >= |s| || s[n] != quote {
          assert value + "" == value;
          return;
        }
        assert rest[2..] == s[n + 1..];
      }
      value := value + [s[n]];
      n := n + 1;
    }
    assert value + "" == value;
  }
}
