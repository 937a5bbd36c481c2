/** What the lexer keeps and what it skips (cmd/forge/resource_schema.go; PostgreSQL manual,
    section 4.1). */
module SqlLexing {
  import opened Options
  import opened SqlTokens

  /** The first construct of `s` ends inside `s`, whatever follows. */
  predicate Complete(s: string)
    requires s != ""
  {
    if Starts(s, '-', '-') then LineLen(s) < |s|
    else if Starts(s, '/', '*') then BlockClosed(s[2..], 1)
    else if s[0] == '\'' || s[0] == '"' then QuoteClosed(s[1..], s[0])
    else if s[0] == '$' && Delimiter(s).Some? then IndexOf(s[Delimiter(s).value..], s[..Delimiter(s).value]).Some?
    else true
  }

  /** Lexing stops cleanly at the end of `s`: no comment, literal or body is left open. */
  predicate Closed(s: string) {
    s == "" || (Complete(s) && Closed(s[Next(s).len..]))
  }

  // ---------------------------------------------------------------- what follows does not matter

  lemma {:induction false} LineStable(s: string, t: string)
    requires LineLen(s) < |s|
    ensures LineLen(s + t) == LineLen(s)
  {
    if s[0] != '\n' {
      assert (s + t)[1..] == s[1..] + t;
      LineStable(s[1..], t);
    }
  }

  lemma {:induction false} BlockStable(s: string, t: string, depth: nat)
    requires BlockClosed(s, depth)
    ensures BlockLen(s + t, depth) == BlockLen(s, depth)
    decreases |s|
  {
    if depth != 0 {
      if |s| >= 2 { assert (s + t)[2..] == s[2..] + t; }
      assert (s + t)[1..] == s[1..] + t;
      if Starts(s, '/', '*') {
        BlockStable(s[2..], t, depth + 1);
      } else if Starts(s, '*', '/') {
        BlockStable(s[2..], t, depth - 1);
      } else {
        // A closed comment does not end with this character, so two of `s` decide.
        assert |s| >= 2;
        BlockStable(s[1..], t, depth);
      }
    }
  }

  lemma {:induction false} QuoteStable(s: string, t: string, quote: char)
    requires QuoteClosed(s, quote) && (t != "" ==> t[0] != quote)
    ensures Unquote(s + t, quote) == Unquote(s, quote)
    decreases |s|
  {
    assert (s + t)[1..] == s[1..] + t;
    if s[0] != quote {
      QuoteStable(s[1..], t, quote);
    } else if |s| > 1 && s[1] == quote {
      assert (s + t)[2..] == s[2..] + t;
      QuoteStable(s[2..], t, quote);
    }
  }

  lemma {:induction false} TagStable(s: string, t: string)
    requires t != "" ==> !IsTagChar(t[0])
    ensures TagLen(s + t) == TagLen(s)
  {
    if s == "" {
      assert s + t == t;
    } else if IsTagChar(s[0]) {
      assert (s + t)[1..] == s[1..] + t;
      TagStable(s[1..], t);
    }
  }

  lemma {:induction false} WordStable(s: string, t: string)
    requires t != "" ==> !IsWordChar(t[0])
    ensures WordLen(s + t) == WordLen(s)
  {
    if s == "" {
      assert s + t == t;
    } else if IsWordChar(s[0]) {
      assert (s + t)[1..] == s[1..] + t;
      WordStable(s[1..], t);
    }
  }

  lemma {:induction false} IndexStable(s: string, t: string, x: string)
    requires IndexOf(s, x).Some?
    ensures IndexOf(s + t, x) == IndexOf(s, x)
  {
    if x <= s {
      assert x <= s + t;
    } else {
      IndexNeedsRoom(s, x);
      assert (s + t)[..|x|] == s[..|x|];
      assert !(x <= s + t);
      assert (s + t)[1..] == s[1..] + t;
      IndexStable(s[1..], t, x);
    }
  }

  lemma IndexNeedsRoom(s: string, x: string)
    requires IndexOf(s, x).Some?
    ensures |x| <= |s|
  {
  }

  /** PostgreSQL's white space: blank, tab, newline, carriage return, vertical tab, form feed. */
  predicate IsWhite(c: char) {
    c == ' ' || c == '\t' || c == '\n' || c == '\r' || c == '\U{0B}' || c == '\U{0C}'
  }

  /** White space, or the end: every open word ends there, and no comment can begin. */
  predicate Separator(t: string) {
    t != "" ==> IsWhite(t[0])
  }

  lemma DelimiterStable(s: string, t: string)
    requires s != "" && s[0] == '$' && Separator(t)
    ensures Delimiter(s + t) == Delimiter(s)
  {
    assert (s + t)[1..] == s[1..] + t;
    TagStable(s[1..], t);
    var n := TagLen(s[1..]);
    if 1 + n < |s + t| {
      assert 1 + n < |s| || (s + t)[1 + n] == t[0];
    }
  }

  lemma DollarStable(s: string, t: string)
    requires s != "" && s[0] == '$' && Complete(s) && Separator(t)
    ensures Next(s + t) == Next(s)
  {
    DelimiterStable(s, t);
    match Delimiter(s)
    case None =>
    case Some(d) =>
      assert (s + t)[d..] == s[d..] + t && (s + t)[..d] == s[..d];
      IndexStable(s[d..], t, s[..d]);
  }

  lemma NextStable(s: string, t: string)
    requires s != "" && Complete(s) && Separator(t)
    ensures Next(s + t) == Next(s)
  {
    var u := s + t;
    assert u[0] == s[0];
    assert u[1..] == s[1..] + t;
    assert |s| == 1 && t != "" ==> IsWhite(u[1]);
    if Starts(s, '-', '-') {
      LineStable(s, t);
    } else if Starts(s, '/', '*') {
      assert u[2..] == s[2..] + t;
      BlockStable(s[2..], t, 1);
    } else if s[0] == '\'' || s[0] == '"' {
      QuoteStable(s[1..], t, s[0]);
    } else if s[0] == '$' {
      DollarStable(s, t);
    } else if IsTagChar(s[0]) {
      WordStable(s, t);
      assert u[..WordLen(s)] == s[..WordLen(s)];
    }
  }

  lemma Associative(a: seq<string>, b: seq<string>, c: seq<string>)
    ensures a + (b + c) == (a + b) + c
  {
  }

  /** At a whitespace-separated boundary where nothing is open, the tokens of the whole are
      the tokens of the two parts. */
  lemma {:induction false} TokensAtBoundary(s: string, t: string)
    requires Closed(s) && Separator(t)
    ensures Tokens(s + t) == Tokens(s) + Tokens(t)
    decreases |s|
  {
    if s == "" {
      assert s + t == t;
    } else {
      NextStable(s, t);
      var n := Next(s).len;
      assert (s + t)[n..] == s[n..] + t;
      TokensAtBoundary(s[n..], t);
      Associative(Next(s).tokens, Tokens(s[n..]), Tokens(t));
    }
  }

  lemma {:induction false} ClosedAtBoundary(s: string, t: string)
    requires Closed(s) && Closed(t) && Separator(t)
    ensures Closed(s + t)
    decreases |s|
  {
    if s == "" {
      assert s + t == t;
    } else {
      NextStable(s, t);
      CompleteStays(s, t);
      var n := Next(s).len;
      assert (s + t)[n..] == s[n..] + t;
      ClosedAtBoundary(s[n..], t);
    }
  }

  lemma {:induction false} BlockClosedStays(s: string, t: string, depth: nat)
    requires BlockClosed(s, depth)
    ensures BlockClosed(s + t, depth)
    decreases |s|
  {
    if depth != 0 {
      if |s| >= 2 { assert (s + t)[2..] == s[2..] + t; }
      assert (s + t)[1..] == s[1..] + t;
      if Starts(s, '/', '*') {
        BlockClosedStays(s[2..], t, depth + 1);
      } else if Starts(s, '*', '/') {
        BlockClosedStays(s[2..], t, depth - 1);
      } else {
        assert |s| >= 2;
        BlockClosedStays(s[1..], t, depth);
      }
    }
  }

  lemma {:induction false} QuoteClosedStays(s: string, t: string, quote: char)
    requires QuoteClosed(s, quote) && (t != "" ==> t[0] != quote)
    ensures QuoteClosed(s + t, quote)
    decreases |s|
  {
    assert (s + t)[1..] == s[1..] + t;
    if s[0] != quote {
      QuoteClosedStays(s[1..], t, quote);
    } else if |s| > 1 && s[1] == quote {
      assert (s + t)[2..] == s[2..] + t;
      QuoteClosedStays(s[2..], t, quote);
    }
  }

  lemma Tail(s: string, t: string, n: nat)
    requires n <= |s|
    ensures (s + t)[n..] == s[n..] + t && (s + t)[..n] == s[..n]
  {
  }

  lemma CompleteStays(s: string, t: string)
    requires s != "" && Complete(s) && Separator(t)
    ensures Complete(s + t)
  {
    var u := s + t;
    assert u[0] == s[0];
    Tail(s, t, 1);
    assert |s| == 1 && t != "" ==> IsWhite(u[1]);
    if Starts(s, '-', '-') {
      LineStable(s, t);
    } else if Starts(s, '/', '*') {
      Tail(s, t, 2);
      BlockClosedStays(s[2..], t, 1);
    } else if s[0] == '\'' || s[0] == '"' {
      QuoteClosedStays(s[1..], t, s[0]);
    } else if s[0] == '$' {
      DelimiterStable(s, t);
      match Delimiter(s)
      case None =>
      case Some(d) =>
        Tail(s, t, d);
        IndexStable(s[d..], t, s[..d]);
    }
  }

  // ---------------------------------------------------------------- quoted identifiers

  /** Every quote doubled, as a quoted identifier or a literal is written. */
  function Doubled(s: string, quote: char): string {
    if s == "" then "" else (if s[0] == quote then [quote, quote] else [s[0]]) + Doubled(s[1..], quote)
  }

  lemma {:induction false} UnquoteDoubled(s: string, quote: char)
    ensures
      var body := Doubled(s, quote) + [quote];
      Unquote(body, quote) == Quoted(s, |body|) && QuoteClosed(body, quote)
  {
    if s != "" {
      UnquoteDoubled(s[1..], quote);
      DoubledFirst(s, quote);
      var rest := Doubled(s[1..], quote) + [quote];
      assert s == [s[0]] + s[1..];
      if s[0] == quote {
        UnquotePair(rest, quote);
      } else {
        UnquotePlain(s[0], rest, quote);
      }
    }
  }

  lemma DoubledFirst(s: string, quote: char)
    requires s != ""
    ensures Doubled(s, quote) + [quote] ==
      (if s[0] == quote then [quote, quote] else [s[0]]) + (Doubled(s[1..], quote) + [quote])
  {
  }

  lemma UnquotePair(rest: string, quote: char)
    ensures
      var q := Unquote(rest, quote);
      Unquote([quote, quote] + rest, quote) == Quoted([quote] + q.value, 2 + q.len)
    ensures QuoteClosed([quote, quote] + rest, quote) <==> QuoteClosed(rest, quote)
  {
    assert ([quote, quote] + rest)[2..] == rest;
  }

  lemma UnquotePlain(c: char, rest: string, quote: char)
    requires c != quote
    ensures
      var q := Unquote(rest, quote);
      Unquote([c] + rest, quote) == Quoted([c] + q.value, 1 + q.len)
    ensures QuoteClosed([c] + rest, quote) <==> QuoteClosed(rest, quote)
  {
    assert ([c] + rest)[1..] == rest;
  }

  function Quote(s: string, quote: char): string {
    [quote] + (Doubled(s, quote) + [quote])
  }

  lemma QuotedToken(s: string, quote: char)
    requires quote == '"' || quote == '\''
    ensures Closed(Quote(s, quote))
    ensures Tokens(Quote(s, quote)) == if quote == '"' then [s] else []
  {
    var q := Quote(s, quote);
    UnquoteDoubled(s, quote);
    assert q[1..] == Doubled(s, quote) + [quote];
    assert q[Next(q).len..] == "";
  }

  /** Identifiers, quoted and separated by spaces. */
  function PrintNames(names: seq<string>): string {
    if names == [] then "" else Quote(names[0], '"') + PrintMore(names[1..])
  }

  function PrintMore(names: seq<string>): string {
    if names == [] then "" else " " + (Quote(names[0], '"') + PrintMore(names[1..]))
  }

  lemma {:induction false} MoreRoundTrip(names: seq<string>)
    ensures Tokens(PrintMore(names)) == names
  {
    if names != [] {
      MoreRoundTrip(names[1..]);
      QuotedToken(names[0], '"');
      SpacedText(Quote(names[0], '"'), PrintMore(names[1..]));
      assert names == [names[0]] + names[1..];
    }
  }

  lemma {:induction false} SpacedText(q: string, more: string)
    requires Closed(q) && Separator(more)
    ensures Tokens(" " + (q + more)) == Tokens(q) + Tokens(more)
  {
    WhiteIsSkipped(' ', q + more);
    TokensAtBoundary(q, more);
  }

  lemma {:induction false} WhiteIsSkipped(a: char, t: string)
    requires IsWhite(a)
    ensures Tokens([a] + t) == Tokens(t)
    ensures Closed([a] + t) <==> Closed(t)
  {
    var s := [a] + t;
    assert Next(s) == Step([], 1);
    assert s[1..] == t;
  }

  /** Any list of names, whatever characters they hold, is read back as it was written. */
  lemma NamesRoundTrip(names: seq<string>)
    ensures Tokens(PrintNames(names)) == names
  {
    if names != [] {
      MoreRoundTrip(names[1..]);
      QuotedToken(names[0], '"');
      TokensAtBoundary(Quote(names[0], '"'), PrintMore(names[1..]));
      assert names == [names[0]] + names[1..];
    }
  }

  // ---------------------------------------------------------------- what is skipped

  /** The inside of a block comment: characters and well-nested comments. */
  datatype Comment = End | Char(c: char, rest: Comment) | Nested(inner: Comment, rest: Comment)

  function Inside(b: Comment): string {
    match b
    case End => ""
    case Char(c, rest) => [c] + Inside(rest)
    case Nested(inner, rest) => "/*" + (Inside(inner) + ("*/" + Inside(rest)))
  }

  /** No two neighbouring characters spell a comment bracket that is not one of the tree's. */
  predicate WellNested(b: Comment, after: string) {
    match b
    case End => true
    case Char(c, rest) =>
      var next := Inside(rest) + after;
      && !Starts([c] + next, '/', '*') && !Starts([c] + next, '*', '/')
      && WellNested(rest, after)
    case Nested(inner, rest) => WellNested(inner, "*/" + (Inside(rest) + after)) && WellNested(rest, after)
  }

  lemma BlockOpens(s: string, depth: nat)
    requires depth > 0
    ensures BlockLen("/*" + s, depth) == 2 + BlockLen(s, depth + 1)
    ensures BlockClosed("/*" + s, depth) <==> BlockClosed(s, depth + 1)
  {
    assert ("/*" + s)[2..] == s;
  }

  lemma BlockPasses(c: char, s: string, depth: nat)
    requires depth > 0 && !Starts([c] + s, '/', '*') && !Starts([c] + s, '*', '/')
    ensures BlockLen([c] + s, depth) == 1 + BlockLen(s, depth)
    ensures BlockClosed([c] + s, depth) <==> BlockClosed(s, depth)
  {
    assert ([c] + s)[1..] == s;
  }

  lemma BlockCloses(s: string, depth: nat)
    requires depth > 0
    ensures BlockLen("*/" + s, depth) == 2 + BlockLen(s, depth - 1)
    ensures BlockClosed("*/" + s, depth) <==> BlockClosed(s, depth - 1)
  {
    assert ("*/" + s)[2..] == s;
  }

  lemma {:induction false} BlockOverComment(b: Comment, after: string, depth: nat)
    requires WellNested(b, after) && depth > 0 && after != ""
    ensures BlockLen(Inside(b) + after, depth) == |Inside(b)| + BlockLen(after, depth)
    ensures BlockClosed(Inside(b) + after, depth) <==> BlockClosed(after, depth)
    decreases b
  {
    var s := Inside(b) + after;
    match b
    case End =>
      assert s == after;
    case Char(c, rest) =>
      assert s == [c] + (Inside(rest) + after);
      BlockPasses(c, Inside(rest) + after, depth);
      BlockOverComment(rest, after, depth);
    case Nested(inner, rest) =>
      var close := "*/" + (Inside(rest) + after);
      assert s == "/*" + (Inside(inner) + close);
      BlockOpens(Inside(inner) + close, depth);
      BlockOverComment(inner, close, depth + 1);
      BlockCloses(Inside(rest) + after, depth + 1);
      BlockOverComment(rest, after, depth);
  }

  /** Source text that emits no token and leaves nothing open. */
  predicate Blank(x: string) {
    Closed(x) && Tokens(x) == []
  }

  /** Inserting skipped text at a whitespace-separated boundary changes no token. */
  lemma {:induction false} BlankInsertion(s: string, a: char, x: string, t: string)
    requires Closed(s) && IsWhite(a) && Blank(x) && Separator(t)
    ensures Tokens(s + ([a] + (x + t))) == Tokens(s + t)
  {
    TokensAtBoundary(s, [a] + (x + t));
    TokensAtBoundary(s, t);
    BlankBefore(a, x, t);
  }

  lemma {:induction false} BlankBefore(a: char, x: string, t: string)
    requires IsWhite(a) && Blank(x) && Separator(t)
    ensures Tokens([a] + (x + t)) == Tokens(t)
  {
    WhiteIsSkipped(a, x + t);
    TokensAtBoundary(x, t);
  }

  /** Any white space may stand between skipped texts, so any number of them can be inserted. */
  lemma {:induction false} BlanksJoin(x: string, a: char, y: string)
    requires Blank(x) && IsWhite(a) && Blank(y)
    ensures Blank(x + ([a] + y))
  {
    var more := [a] + y;
    WhiteIsSkipped(a, y);
    TokensAtBoundary(x, more);
    ClosedAtBoundary(x, more);
  }

  /** A line comment ends at its newline, whatever stands on the next line. */
  lemma {:induction false} LineCommentInsertion(s: string, a: char, text: string, t: string)
    requires Closed(s) && IsWhite(a) && '\n' !in text
    ensures Tokens(s + ([a] + ("--" + (text + ("\n" + t))))) == Tokens(s + ("\n" + t))
  {
    var next := "\n" + t;
    var comment := "--" + (text + next);
    var more := [a] + comment;
    TokensAtBoundary(s, more);
    TokensAtBoundary(s, next);
    WhiteIsSkipped(a, comment);
    LineCommentIsSkipped(text, t);
  }

  lemma {:induction false} LineCommentIsSkipped(text: string, t: string)
    requires '\n' !in text
    ensures Tokens("--" + (text + ("\n" + t))) == Tokens("\n" + t)
  {
    var next := "\n" + t;
    var comment := "--" + (text + next);
    LineReaches(text, t);
    assert comment[1..][1..] == text + next;
    assert LineLen(comment) == 2 + |text|;
    assert comment[2 + |text|..] == next;
  }

  lemma LineCommentIsBlank(text: string)
    requires '\n' !in text
    ensures Blank("--" + (text + "\n"))
  {
    var x := "--" + (text + "\n");
    assert "\n" + "" == "\n";
    LineReaches(text, "");
    assert x[1..][1..] == text + "\n";
    assert LineLen(x) == 2 + |text|;
    assert x[|text| + 2..] == "\n";
    assert Next("\n") == Step([], 1) && "\n"[1..] == "";
    assert Closed("\n") && Tokens("\n") == [];
  }

  lemma {:induction false} LineReaches(text: string, t: string)
    requires '\n' !in text
    ensures LineLen(text + ("\n" + t)) == |text|
  {
    if text != "" {
      assert (text + ("\n" + t))[1..] == text[1..] + ("\n" + t);
      LineReaches(text[1..], t);
    }
  }

  lemma {:induction false} BlockCommentIsBlank(b: Comment)
    requires WellNested(b, "*/")
    ensures Blank("/*" + (Inside(b) + "*/"))
  {
    var x := "/*" + (Inside(b) + "*/");
    assert x[2..] == Inside(b) + "*/";
    BlockOverComment(b, "*/", 1);
    assert "*/"[2..] == "" && BlockLen("", 0) == 0;
    assert BlockLen("*/", 1) == 2 && BlockClosed("*/", 1);
    assert x[|x|..] == "";
  }

  lemma LiteralIsBlank(text: string)
    ensures Blank(Quote(text, '\''))
  {
    QuotedToken(text, '\'');
  }

  predicate IsTag(tag: string) {
    forall c :: c in tag ==> IsTagChar(c)
  }

  function Dollar(tag: string): string {
    "$" + (tag + "$")
  }

  lemma {:induction false} TagReaches(tag: string, after: string)
    requires IsTag(tag)
    ensures TagLen(tag + ("$" + after)) == |tag|
  {
    var s := tag + ("$" + after);
    if tag == "" {
      assert s[0] == '$';
    } else {
      assert tag[0] in tag && s[1..] == tag[1..] + ("$" + after);
      TagReaches(tag[1..], after);
    }
  }

  lemma WholeBodyIsBlank(x: string, d: nat, i: nat)
    requires x != "" && x[0] == '$' && Delimiter(x) == Some(d)
    requires IndexOf(x[d..], x[..d]) == Some(i) && d + i + d == |x|
    ensures Blank(x)
  {
    assert Next(x) == Step([], |x|);
    assert x[|x|..] == "";
  }

  lemma DelimiterReaches(tag: string, after: string)
    requires IsTag(tag)
    ensures
      var x := Dollar(tag) + after;
      x[0] == '$' && Delimiter(x) == Some(|Dollar(tag)|) && x[..|Dollar(tag)|] == Dollar(tag) && x[|Dollar(tag)|..] == after
  {
    var x := Dollar(tag) + after;
    assert x[1..] == tag + ("$" + after);
    TagReaches(tag, after);
    assert x[1 + |tag|] == '$';
  }

  predicate OccursAt(s: string, x: string, i: nat) {
    i + |x| <= |s| && s[i..i + |x|] == x
  }

  lemma OccursLater(s: string, x: string, i: nat)
    requires s != ""
    ensures OccursAt(s, x, i + 1) <==> OccursAt(s[1..], x, i)
  {
    if i + 1 + |x| <= |s| { assert s[i + 1..i + 1 + |x|] == s[1..][i..i + |x|]; }
  }

  lemma OccursHere(s: string, x: string)
    ensures OccursAt(s, x, 0) <==> x <= s
  {
  }

  /** The first occurrence is at `found`, or there is none. */
  ghost predicate FirstAt(s: string, x: string, found: Option<nat>) {
    match found
    case None => forall i: nat :: !OccursAt(s, x, i)
    case Some(k) => OccursAt(s, x, k) && forall i: nat :: i < k ==> !OccursAt(s, x, i)
  }

  lemma FirstAtNext(s: string, x: string, found: Option<nat>)
    requires s != "" && !OccursAt(s, x, 0) && FirstAt(s[1..], x, found)
    ensures FirstAt(s, x, if found.Some? then Some(found.value + 1) else None)
  {
    if found.Some? { OccursLater(s, x, found.value); }
    forall i: nat | OccursAt(s, x, i) ensures OccursAt(s[1..], x, i - 1) {
      assert i != 0;
      OccursLater(s, x, i - 1);
    }
  }

  /** strings.Index finds the first occurrence. */
  lemma {:induction false} IndexIsFirst(s: string, x: string)
    ensures FirstAt(s, x, IndexOf(s, x))
  {
    OccursHere(s, x);
    if s != "" && !(x <= s) {
      IndexIsFirst(s[1..], x);
      FirstAtNext(s, x, IndexOf(s[1..], x));
    }
  }

  /** A body between dollar quotes in which the closing quote does not begin earlier. */
  lemma {:induction false} DollarBodyIsBlank(tag: string, body: string)
    requires forall c :: c in tag ==> c == '_' || 'a' <= c <= 'z' || 'A' <= c <= 'Z' || '0' <= c <= '9'
    requires forall i: nat :: i < |body| ==> !OccursAt(body + ("$" + (tag + "$")), "$" + (tag + "$"), i)
    ensures Blank(("$" + (tag + "$")) + (body + ("$" + (tag + "$"))))
  {
    var after := body + Dollar(tag);
    IndexIsFirst(after, Dollar(tag));
    assert OccursAt(after, Dollar(tag), |body|);
    DelimiterReaches(tag, after);
    WholeBodyIsBlank(Dollar(tag) + after, |Dollar(tag)|, |body|);
  }
}
