/** Source texts that spell a list of tokens: keywords and plain names in any letter case,
    other names in quotes, punctuation, and white space, operators, literals and comments
    between them (cmd/forge/resource_schema.go; PostgreSQL manual, section 4.1). */
module SqlTexts {
  import opened SqlTokens
  import opened SqlLexing

  /** The first three stand for a token. A symbol is white space or an operator character, a
      sign one that could begin a comment, and `Skipped` any other text without tokens. */
  datatype Piece =
    | Word(text: string)
    | QuotedName(name: string)
    | Mark(c: char)
    | Symbol(c: char)
    | Sign(c: char)
    | Literal(text: string)
    | Line(text: string)
    | Skipped(x: string)

  function Written(p: Piece): string {
    match p
    case Word(text) => text
    case QuotedName(name) => Quote(name, '"')
    case Mark(c) => [c]
    case Symbol(c) => [c]
    case Sign(c) => [c]
    case Literal(text) => Quote(text, '\'')
    case Line(text) => "--" + text
    case Skipped(x) => x
  }

  function Text(ps: seq<Piece>): string {
    if ps == [] then "" else Written(ps[0]) + Text(ps[1..])
  }

  /** A letter in either case, or another character of a plain name. */
  predicate Letter(written: char, c: char) {
    if 'a' <= c <= 'z' then written == c || written == c - 'a' + 'A'
    else written == c && (c == '_' || c == '$' || '0' <= c <= '9')
  }

  predicate IsPlain(c: char) {
    'a' <= c <= 'z' || 'A' <= c <= 'Z' || '0' <= c <= '9' || c == '_' || c == '$'
  }

  predicate IsMark(c: char) {
    c == '.' || c == ';' || c == ',' || c == '(' || c == ')'
  }

  /** Unquoted words fold to lower case, quoted names stand for themselves. */
  predicate Spells(p: Piece, tokens: seq<string>) {
    match p
    case Word(text) =>
      && |tokens| == 1 && |text| == |tokens[0]| && text != "" && text[0] != '$'
      && forall i :: 0 <= i < |text| ==> Letter(text[i], tokens[0][i])
    case QuotedName(name) => tokens == [name]
    case Mark(c) => IsMark(c) && tokens == [[c]]
    case _ => tokens == []
  }

  /** The piece is well-formed, and ends where this text begins. */
  predicate EndsBefore(p: Piece, t: string) {
    match p
    case Word(_) => t != "" ==> !IsPlain(t[0])
    case QuotedName(_) => t != "" ==> t[0] != '"'
    case Mark(_) => true
    case Symbol(c) => !IsPlain(c) && !IsMark(c) && c != '\'' && c != '"' && c != '-' && c != '/'
    case Sign(c) => (c == '-' && (t != "" ==> t[0] != '-')) || (c == '/' && (t != "" ==> t[0] != '*'))
    case Literal(_) => t != "" ==> t[0] != '\''
    case Line(text) => '\n' !in text && t != "" && t[0] == '\n'
    case Skipped(x) => Blank(x) && Separator(t)
  }

  /** Each piece ends where the next begins, and together they stand for these tokens. */
  predicate Spelling(ps: seq<Piece>, tokens: seq<string>) {
    if ps == [] then tokens == [] else
      var n := if ps[0].Word? || ps[0].QuotedName? || ps[0].Mark? then 1 else 0;
      && EndsBefore(ps[0], Text(ps[1..]))
      && n <= |tokens| && Spells(ps[0], tokens[..n])
      && Spelling(ps[1..], tokens[n..])
  }

  /** The text is a way to write these tokens. */
  ghost predicate Denotes(text: string, tokens: seq<string>) {
    exists ps :: text == Text(ps) && Spelling(ps, tokens)
  }

  // ---------------------------------------------------------------- one piece

  lemma FirstStep(s: string, step: Step, t: string)
    requires s != "" && Next(s) == step && s[step.len..] == t
    ensures Tokens(s) == step.tokens + Tokens(t)
  {
  }

  lemma {:induction false} WordReaches(text: string, t: string)
    requires t != "" ==> !IsPlain(t[0])
    requires forall i :: 0 <= i < |text| ==> IsWordChar(text[i])
    ensures WordLen(text + t) == |text|
  {
    if text == "" {
      assert text + t == t;
    } else {
      assert (text + t)[1..] == text[1..] + t;
      WordReaches(text[1..], t);
    }
  }

  lemma WordIsRead(text: string, token: string, t: string)
    requires Spells(Word(text), [token]) && (t != "" ==> !IsPlain(t[0]))
    ensures Tokens(text + t) == [token] + Tokens(t)
  {
    var s := text + t;
    assert Letter(text[0], token[0]);
    forall i | 0 <= i < |text| ensures IsWordChar(text[i]) && LowerChar(text[i]) == token[i] {
      assert Letter(text[i], token[i]);
    }
    WordReaches(text, t);
    assert s[..|text|] == text && Lower(text) == token;
    FirstStep(s, Step([token], |text|), t);
  }

  lemma NextQuoted(s: string)
    requires s != "" && (s[0] == '"' || s[0] == '\'')
    ensures
      var q := Unquote(s[1..], s[0]);
      Next(s) == Step(if s[0] == '"' then [q.value] else [], 1 + q.len)
  {
  }

  lemma QuoteIsRead(text: string, quote: char, t: string)
    requires (quote == '"' || quote == '\'') && (t != "" ==> t[0] != quote)
    ensures Tokens(Quote(text, quote) + t) == (if quote == '"' then [text] else []) + Tokens(t)
  {
    var body := Doubled(text, quote) + [quote];
    UnquoteDoubled(text, quote);
    QuoteStable(body, t, quote);
    QuotedStep(body, quote, t, text);
    QuoteAssociates(text, quote, body, t);
  }

  lemma QuoteAssociates(text: string, quote: char, body: string, t: string)
    requires body == Doubled(text, quote) + [quote]
    ensures Quote(text, quote) + t == [quote] + (body + t)
  {
  }

  lemma QuotedStep(body: string, quote: char, t: string, value: string)
    requires quote == '"' || quote == '\''
    requires Unquote(body + t, quote) == Quoted(value, |body|)
    ensures Tokens([quote] + (body + t)) == (if quote == '"' then [value] else []) + Tokens(t)
  {
    var s := [quote] + (body + t);
    assert s[1..] == body + t && s[1 + |body|..] == t;
    NextQuoted(s);
    FirstStep(s, Step(if quote == '"' then [value] else [], 1 + |body|), t);
  }

  lemma CharIsRead(p: Piece, t: string)
    requires p.Mark? || p.Symbol? || p.Sign?
    requires EndsBefore(p, t) && (p.Mark? ==> IsMark(p.c))
    ensures Tokens([p.c] + t) == (if p.Mark? then [[p.c]] else []) + Tokens(t)
  {
    var s := [p.c] + t;
    FirstStep(s, Step(if p.Mark? then [[p.c]] else [], 1), t);
  }

  lemma LineIsRead(text: string, t: string)
    requires '\n' !in text && t != "" && t[0] == '\n'
    ensures Tokens(("--" + text) + t) == Tokens(t)
  {
    assert t == "\n" + t[1..];
    assert ("--" + text) + t == "--" + (text + ("\n" + t[1..]));
    LineCommentIsSkipped(text, t[1..]);
  }

  lemma SkippedIsRead(x: string, t: string)
    requires Blank(x) && Separator(t)
    ensures Tokens(x + t) == Tokens(t)
  {
    TokensAtBoundary(x, t);
  }

  lemma TokenIsRead(p: Piece, tokens: seq<string>, t: string)
    requires p.Word? || p.QuotedName? || p.Mark?
    requires Spells(p, tokens) && EndsBefore(p, t)
    ensures Tokens(Written(p) + t) == tokens + Tokens(t)
  {
    match p
    case Word(text) =>
      assert tokens == [tokens[0]];
      WordIsRead(text, tokens[0], t);
    case QuotedName(name) => QuoteIsRead(name, '"', t);
    case Mark(_) => CharIsRead(p, t);
  }

  lemma OtherIsRead(p: Piece, t: string)
    requires !p.Word? && !p.QuotedName? && !p.Mark?
    requires EndsBefore(p, t)
    ensures Tokens(Written(p) + t) == Tokens(t)
  {
    match p
    case Symbol(_) => CharIsRead(p, t);
    case Sign(_) => CharIsRead(p, t);
    case Literal(text) => QuoteIsRead(text, '\'', t);
    case Line(text) => LineIsRead(text, t);
    case Skipped(x) => SkippedIsRead(x, t);
  }

  // ---------------------------------------------------------------- whole texts

  /** The lexer reads a text as the tokens it spells, whatever the letter case, the quotes, the
      white space, the literals and the comments. */
  lemma {:induction false} TextRoundTrip(ps: seq<Piece>, tokens: seq<string>)
    requires Spelling(ps, tokens)
    ensures Tokens(Text(ps)) == tokens
    decreases |ps|
  {
    if ps != [] {
      var n := if ps[0].Word? || ps[0].QuotedName? || ps[0].Mark? then 1 else 0;
      TextRoundTrip(ps[1..], tokens[n..]);
      if n == 1 {
        TokenIsRead(ps[0], tokens[..n], Text(ps[1..]));
      } else {
        OtherIsRead(ps[0], Text(ps[1..]));
      }
      assert tokens == tokens[..n] + tokens[n..];
    }
  }

  lemma TextsAreRead(text: string, tokens: seq<string>)
    requires Denotes(text, tokens)
    ensures Tokens(text) == tokens
  {
    var ps :| text == Text(ps) && Spelling(ps, tokens);
    TextRoundTrip(ps, tokens);
  }

  function QuotedPieces(tokens: seq<string>): seq<Piece> {
    if tokens == [] then [] else [Symbol(' ')] + ([QuotedName(tokens[0])] + QuotedPieces(tokens[1..]))
  }

  lemma {:induction false} QuotedSpelling(tokens: seq<string>)
    ensures Text(QuotedPieces(tokens)) == PrintMore(tokens) && Spelling(QuotedPieces(tokens), tokens)
    decreases |tokens|
  {
    if tokens != [] {
      var more := QuotedPieces(tokens[1..]);
      QuotedSpelling(tokens[1..]);
      InFront(QuotedName(tokens[0]), more, tokens);
      InFront(Symbol(' '), [QuotedName(tokens[0])] + more, tokens);
    }
  }

  lemma InFront(p: Piece, ps: seq<Piece>, tokens: seq<string>)
    requires p.QuotedName? || p == Symbol(' ')
    requires p.QuotedName? ==> tokens != [] && p.name == tokens[0] && Spelling(ps, tokens[1..]) && (Text(ps) != "" ==> Text(ps)[0] == ' ')
    requires p.Symbol? ==> Spelling(ps, tokens)
    ensures Text([p] + ps) == Written(p) + Text(ps) && Spelling([p] + ps, tokens)
  {
    assert ([p] + ps)[1..] == ps;
    assert tokens[0..] == tokens;
    if p.QuotedName? { assert tokens[..1] == [tokens[0]]; }
  }

  /** Every list of tokens can be written. */
  lemma EveryListHasAText(tokens: seq<string>)
    ensures exists text :: Denotes(text, tokens)
  {
    QuotedSpelling(tokens);
    assert Denotes(Text(QuotedPieces(tokens)), tokens);
  }
}
