/** The SQL tokenizer: a character state machine that walks backwards after bad numbers, against a lexer that reads one
    lexeme at a time. */
module Tokenizer {
  import opened Options
  import opened Characters
  import opened Tokens

  datatype State = Standard | SingleLineComment | MultiLineComment | QuotedIdentifier | StringLiteral | Keyword
                 | Numeric | Operator | DollarQuotedString

  /** What the tokenizer reports, in order: tokens, and the semicolons between statements. */
  datatype Item = Tok(token: Token) | Semi(pos: nat)

  // ----- scanning to the end of one lexeme -----

  /** The end of a quoted text whose body is read from i; a doubled quote is an escape. */
  function QuoteEnd(sql: string, q: char, i: nat): (r: Option<nat>)
    requires i <= |sql|
    ensures r.Some? ==> i < r.value <= |sql|
    decreases |sql| - i
  {
    if i == |sql| then None
    else if sql[i] != q then QuoteEnd(sql, q, i + 1)
    else if i + 1 < |sql| && sql[i + 1] == q then QuoteEnd(sql, q, i + 2)
    else Some(i + 1)
  }

  function LineEnd(sql: string, i: nat): (r: Option<nat>)
    requires i <= |sql|
    ensures r.Some? ==> i < r.value <= |sql|
    decreases |sql| - i
  {
    if i == |sql| then None else if sql[i] == '\n' || sql[i] == '\r' then Some(i + 1) else LineEnd(sql, i + 1)
  }

  function BlockEnd(sql: string, i: nat): (r: Option<nat>)
    requires i <= |sql|
    ensures r.Some? ==> i + 1 < r.value <= |sql|
    decreases |sql| - i
  {
    if i == |sql| then None
    else if sql[i] == '*' && i + 1 < |sql| && sql[i + 1] == '/' then Some(i + 2)
    else BlockEnd(sql, i + 1)
  }

  predicate NumberContinues(sql: string, i: nat)
    requires 0 < i < |sql|
  {
    || IsInitialNumber(sql[i])
    || (sql[i] == '_' && i + 1 < |sql| && IsInitialNumber(sql[i + 1]))
    || (IsScientific(sql[i]) && !IsScientific(sql[i - 1]))
    || ((sql[i] == '+' || sql[i] == '-') && IsScientific(sql[i - 1]))
  }

  function NumberStop(sql: string, i: nat): (r: nat)
    requires 0 < i <= |sql|
    ensures i <= r <= |sql|
    decreases |sql| - i
  {
    if i < |sql| && NumberContinues(sql, i) then NumberStop(sql, i + 1) else i
  }

  /** Back to just after the last digit or dot. */
  function BackTo(sql: string, start: nat, i: nat): (r: nat)
    requires start < i <= |sql| && IsInitialNumber(sql[start])
    ensures start < r <= i && IsInitialNumber(sql[r - 1])
  {
    if IsInitialNumber(sql[i - 1]) then i else BackTo(sql, start, i - 1)
  }

  function OperatorStop(sql: string, i: nat): (r: nat)
    requires i <= |sql|
    ensures i <= r <= |sql|
    ensures forall k :: i <= k < r ==> IsOperator(sql[k])
    ensures r < |sql| ==> !IsOperator(sql[r])
    decreases |sql| - i
  {
    if i < |sql| && IsOperator(sql[i]) then OperatorStop(sql, i + 1) else i
  }

  function KeywordStop(sql: string, i: nat): (r: nat)
    requires i <= |sql|
    ensures i <= r <= |sql|
    ensures forall k :: i <= k < r ==> IsKeyword(sql[k])
    ensures r < |sql| ==> !IsKeyword(sql[r])
    decreases |sql| - i
  {
    if i < |sql| && IsKeyword(sql[i]) then KeywordStop(sql, i + 1) else i
  }

  predicate HasSpecial(s: string) {
    exists k :: 0 <= k < |s| && IsOperatorSpecial(s[k])
  }

  function TrimPlus(sql: string, start: nat, end: nat): (r: nat)
    requires start <= end <= |sql|
    ensures start <= r <= end
    ensures r > start ==> sql[r - 1] != '+'
    ensures forall k :: r <= k < end ==> sql[k] == '+'
  {
    if end > start && sql[end - 1] == '+' then TrimPlus(sql, start, end - 1) else end
  }

  /** PostgreSQL's rule: an operator ends in '+' only if it holds one of the special characters. */
  function OperatorEnd(sql: string, start: nat, end: nat): (r: nat)
    requires start <= end <= |sql|
    ensures start <= r <= end
  {
    if HasSpecial(sql[start..end]) then end else TrimPlus(sql, start, end)
  }

  function Piece(sql: string, start: nat, end: nat): seq<Item>
    requires end <= |sql|
  {
    if start >= end then [] else [Tok(Token(sql[start..end], start))]
  }

  /** The characters from start to end, one token each. */
  function Singles(sql: string, start: nat, end: nat): (items: seq<Item>)
    requires start <= end <= |sql|
    ensures |items| == end - start
    ensures forall k :: 0 <= k < |items| ==> items[k] == Tok(Token([sql[start + k]], start + k))
    decreases end - start
  {
    if start == end then [] else [Tok(Token([sql[start]], start))] + Singles(sql, start + 1, end)
  }

  /** The length of the special operator at i, or 0. */
  function SpecialOperator(sql: string, i: nat): (n: nat)
    requires i < |sql|
    ensures i + n <= |sql|
  {
    if i + 2 < |sql| && sql[i..i + 3] == "->>" then 3
    else if i + 1 >= |sql| then 0
    else if sql[i..i + 2] in {"::", ":=", "->", "**", "//"} then 2
    else 0
  }

  /** The next '$' from idx when only tag characters come before it. */
  function TagDollar(sql: string, idx: nat): (r: Option<nat>)
    requires idx <= |sql|
    ensures r.Some? ==> idx <= r.value < |sql| && sql[r.value] == '$' && forall k ::
              idx <= k < r.value ==> sql[k] != '$'
    decreases |sql| - idx
  {
    if idx == |sql| then None
    else if sql[idx] == '$' then Some(idx)
    else if !IsDollarTag(sql[idx]) then None
    else TagDollar(sql, idx + 1)
  }

  function NextDollar(sql: string, i: nat): (r: nat)
    requires i <= |sql|
    ensures i <= r <= |sql| && (r < |sql| ==> sql[r] == '$') && forall k :: i <= k < r ==> sql[k] != '$'
    decreases |sql| - i
  {
    if i < |sql| && sql[i] != '$' then NextDollar(sql, i + 1) else i
  }

  predicate ClosesDollar(sql: string, marker: string, i: nat)
    requires i < |sql|
  {
    && sql[i] == '$' && i + 1 < |sql|
    && var end := NextDollar(sql, i + 1);
       end < |sql| && sql[i + 1..end] == marker
  }

  /** The place of the '$' that opens the closing marker. */
  function DollarClose(sql: string, marker: string, i: nat): (r: Option<nat>)
    requires i <= |sql|
    ensures r.Some? ==> i <= r.value < |sql| && ClosesDollar(sql, marker, r.value) && r.value + |marker| + 1 < |sql|
    decreases |sql| - i
  {
    if i == |sql| then None else if ClosesDollar(sql, marker, i) then Some(i) else DollarClose(sql, marker, i + 1)
  }

  /** `StringUtil::Replace`: every `from`, left to right, replaced by `to`. */
  function ReplaceAll(s: string, from: string, to: string): string
    requires from != ""
  {
    if |s| < |from| then s
    else if s[..|from|] == from then to + ReplaceAll(s[|from|..], from, to)
    else [s[0]] + ReplaceAll(s[1..], from, to)
  }

  // ----- one lexeme -----

  /** Closed: reported items, and where reading and the token start go on. Open: the text ends inside. */
  datatype Lexeme = Closed(items: seq<Item>, next: nat, last: nat) | Open(state: State, last: nat)

  /** Where the machine is: the character to read next, the token start, and the marker of a dollar quote. */
  datatype Config = Config(state: State, i: nat, last: nat, marker: string)

  ghost predicate WellPlaced(sql: string, c: Config) {
    && c.last <= c.i <= |sql|
    && (c.state in {Numeric, Operator, Keyword, StringLiteral, QuotedIdentifier} ==> c.last < c.i)
    && (c.state.Numeric? ==> IsInitialNumber(sql[c.last]))
    && (if c.state.DollarQuotedString? then c.last + |c.marker| + 2 <= c.i else c.marker == "")
  }

  function QuoteRest(sql: string, state: State, q: char, i: nat, last: nat): Lexeme
    requires last < i <= |sql|
  {
    match QuoteEnd(sql, q, i)
    case None => Open(state, last)
    case Some(e) => Closed(Piece(sql, last, e), e, e)
  }

  function NumberRest(sql: string, i: nat, last: nat): Lexeme
    requires last < i <= |sql| && IsInitialNumber(sql[last])
  {
    var j := NumberStop(sql, i);
    if j == |sql| then Open(Numeric, last) else var e := BackTo(sql, last, j); Closed(Piece(sql, last, e), e, e)
  }

  function OperatorRest(sql: string, i: nat, last: nat): Lexeme
    requires last < i <= |sql|
  {
    var j := OperatorStop(sql, i);
    if j == |sql| then Open(Operator, last)
    else var e := OperatorEnd(sql, last, j); Closed(Piece(sql, last, e) + Singles(sql, e, j), j, j)
  }

  function KeywordRest(sql: string, i: nat, last: nat): Lexeme
    requires last < i <= |sql|
  {
    var j := KeywordStop(sql, i);
    if j == |sql| then Open(Keyword, last) else Closed(Piece(sql, last, j), j, j)
  }

  function CommentRest(state: State, end: Option<nat>, last: nat): Lexeme {
    match end
    case None => Open(state, last)
    case Some(e) => Closed([], e, e)
  }

  /** The dollar-quoted text from last to its closing marker at k, as a plain string literal. */
  function Requoted(sql: string, last: nat, marker: string, k: nat): string
    requires last + |marker| + 2 <= k <= |sql|
  {
    "'" + ReplaceAll(sql[last + |marker| + 2..k], "'", "''") + "'"
  }

  function DollarRest(sql: string, i: nat, last: nat, marker: string): Lexeme
    requires last + |marker| + 2 <= i <= |sql|
  {
    match DollarClose(sql, marker, i)
    case None => Open(DollarQuotedString, last)
    case Some(k) =>
      Closed([Tok(Token(Requoted(sql, last, marker, k), |marker| + 2))], k + |marker| + 2, k + |marker| + 2)
  }

  /** The rest of a lexeme that has been entered. */
  function Rest(sql: string, c: Config): (x: Lexeme)
    requires WellPlaced(sql, c) && !c.state.Standard?
    ensures x.Closed? ==> c.last < x.next <= |sql| && x.last == x.next
    ensures x.Closed? && !c.state.Numeric? ==> c.i <= x.next
    ensures x.Open? ==> x.state == c.state && x.last == c.last
  {
    match c.state
    case StringLiteral => QuoteRest(sql, StringLiteral, '\'', c.i, c.last)
    case QuotedIdentifier => QuoteRest(sql, QuotedIdentifier, '"', c.i, c.last)
    case Numeric => NumberRest(sql, c.i, c.last)
    case Operator => OperatorRest(sql, c.i, c.last)
    case Keyword => KeywordRest(sql, c.i, c.last)
    case SingleLineComment => CommentRest(SingleLineComment, LineEnd(sql, c.i), c.last)
    case MultiLineComment => CommentRest(MultiLineComment, BlockEnd(sql, c.i), c.last)
    case DollarQuotedString => DollarRest(sql, c.i, c.last, c.marker)
  }

  function DollarFirst(sql: string, i: nat, last: nat): (x: Lexeme)
    requires last <= i < |sql|
    ensures x.Closed? ==> i < x.next <= |sql| && x.last <= x.next
    ensures x.Open? ==> !x.state.StringLiteral? && x.last <= i
  {
    if i + 1 >= |sql| then Closed([], i + 1, last)
    else if IsDigit(sql[i + 1]) then Closed([Tok(Token("$", i))], i + 1, last)
    else
      match TagDollar(sql, i + 1)
      case None => Closed([Tok(Token("$", i))], i + 1, i)
      case Some(d) => Rest(sql, Config(DollarQuotedString, d + 1, i, sql[i + 1..d]))
  }

  /** The lexeme that starts at i; last is i, except just after a lone '$'. */
  function First(sql: string, i: nat, last: nat): (x: Lexeme)
    requires last <= i < |sql|
    ensures x.Closed? ==> i < x.next <= |sql| && x.last <= x.next
    ensures x.Open? ==> x.last <= i
  {
    var c := sql[i];
    if c == '\'' then Rest(sql, Config(StringLiteral, i + 1, i, ""))
    else if c == '"' then Rest(sql, Config(QuotedIdentifier, i + 1, i, ""))
    else if c == ';' then Closed([Semi(i)], i + 1, i + 1)
    else if c == '$' then DollarFirst(sql, i, last)
    else if c == '-' && i + 1 < |sql| && sql[i + 1] == '-' then Rest(sql, Config(SingleLineComment, i + 2, last, ""))
    else if c == '/' && i + 1 < |sql| && sql[i + 1] == '*' then Rest(sql, Config(MultiLineComment, i + 2, last, ""))
    else if IsSpace(c) then Closed([], i + 1, i + 1)
    else if SpecialOperator(sql, i) > 0 then
      var n := SpecialOperator(sql, i);
      Closed([Tok(Token(sql[i..i + n], last))], i + n, i + n)
    else if IsSingleByteOperator(c) then Closed([Tok(Token([c], last))], i + 1, i + 1)
    else if IsInitialNumber(c) then Rest(sql, Config(Numeric, i + 1, i, ""))
    else if IsSpecialStringCharacter(c) && i + 1 < |sql| && sql[i + 1] == '\'' then
      Rest(sql, Config(StringLiteral, i + 2, i, ""))
    else if IsPunctuation(c) then Rest(sql, Config(Operator, i + 1, i, ""))
    else Rest(sql, Config(Keyword, i + 1, i, ""))
  }

  // ----- the whole text -----

  /** Everything reported, and the state and token start at the end of the text. */
  datatype Scan = Scan(items: seq<Item>, state: State, last: nat)

  function Lex(sql: string, i: nat, last: nat): (s: Scan)
    requires last <= i <= |sql|
    ensures s.last <= |sql|
    decreases |sql| - i, 0
  {
    if i == |sql| then Scan([], Standard, last) else After(sql, First(sql, i, last))
  }

  function After(sql: string, x: Lexeme): (s: Scan)
    requires x.Closed? ==> x.last <= x.next <= |sql|
    requires x.Open? ==> x.last <= |sql|
    ensures s.last <= |sql|
    decreases if x.Closed? then |sql| - x.next else 0, 1
  {
    match x
    case Open(state, last) => Scan([], state, last)
    case Closed(items, next, last) => Prepend(items, Lex(sql, next, last))
  }

  function Prepend(items: seq<Item>, s: Scan): Scan {
    Scan(items + s.items, s.state, s.last)
  }

  /** What a machine in configuration c still reports. */
  function Resume(sql: string, c: Config): Scan
    requires WellPlaced(sql, c)
  {
    if c.state.Standard? then Lex(sql, c.i, c.last) else After(sql, Rest(sql, c))
  }

  /** The last word: what is left from the token start, without the quote of an unfinished string literal. */
  function LastWord(sql: string, s: Scan): seq<Item>
    requires s.last <= |sql|
  {
    Piece(sql, if s.state.StringLiteral? then s.last + 1 else s.last, |sql|)
  }

  predicate EndsQuietly(state: State) {
    state !in {SingleLineComment, MultiLineComment, DollarQuotedString}
  }

  // ----- statements -----

  function Current(items: seq<Item>): seq<Token> {
    if items == [] then []
    else
      match items[|items| - 1]
      case Semi(_) => []
      case Tok(t) => Current(items[..|items| - 1]) + [t]
  }

  function Finished(items: seq<Item>): seq<seq<Token>> {
    if items == [] then []
    else
      var front := items[..|items| - 1];
      if items[|items| - 1].Semi? then Finished(front) + [Current(front)] else Finished(front)
  }

  // ----- the machine -----

  /** One turn of the loop keeps what the whole run reports, and moves the token start or the reading place on. */
  ghost predicate Stepped(sql: string, before: seq<Item>, c: Config, now: seq<Item>, d: Config)
    requires WellPlaced(sql, c)
  {
    && WellPlaced(sql, d)
    && Prepend(before, Resume(sql, c)) == Prepend(now, Resume(sql, d))
    && (c.last < d.last || (c.last == d.last && c.i < d.i))
  }

  /** From the standard state: the lexeme at c is reported whole, or it is entered. */
  ghost predicate Entered(sql: string, c: Config, pushed: seq<Item>, d: Config)
    requires WellPlaced(sql, c) && c.state.Standard? && c.i < |sql|
  {
    && WellPlaced(sql, d)
    && First(sql, c.i, c.last) == (if d.state.Standard? then Closed(pushed, d.i, d.last) else Rest(sql, d))
    && (!d.state.Standard? ==> pushed == [])
    && c.last <= d.last && c.i < d.i
  }

  lemma EnteredSteps(sql: string, before: seq<Item>, c: Config, pushed: seq<Item>, d: Config)
    requires WellPlaced(sql, c) && c.state.Standard? && c.i < |sql| && Entered(sql, c, pushed, d)
    ensures Stepped(sql, before, c, before + pushed, d)
  {
    hide First, Rest;
    assert Resume(sql, c) == After(sql, First(sql, c.i, c.last));
    if d.state.Standard? {
      assert Resume(sql, c) == Prepend(pushed, Lex(sql, d.i, d.last));
      assert before + (pushed + Lex(sql, d.i, d.last).items) == (before + pushed) + Lex(sql, d.i, d.last).items;
    } else {
      assert before + pushed == before;
    }
  }

  /** Inside a lexeme: it is reported and left, or its rest is still the same. */
  ghost predicate Continued(sql: string, c: Config, pushed: seq<Item>, d: Config)
    requires WellPlaced(sql, c) && !c.state.Standard?
  {
    && WellPlaced(sql, d)
    && Rest(sql, c) == (if d.state.Standard? then Closed(pushed, d.i, d.last) else Rest(sql, d))
    && (!d.state.Standard? ==> pushed == [] && c.last == d.last && c.i < d.i)
  }

  lemma ContinuedSteps(sql: string, before: seq<Item>, c: Config, pushed: seq<Item>, d: Config)
    requires WellPlaced(sql, c) && !c.state.Standard? && Continued(sql, c, pushed, d)
    ensures Stepped(sql, before, c, before + pushed, d)
  {
    hide Rest;
    if d.state.Standard? {
      assert Resume(sql, c) == Prepend(pushed, Lex(sql, d.i, d.last));
      assert before + (pushed + Lex(sql, d.i, d.last).items) == (before + pushed) + Lex(sql, d.i, d.last).items;
    } else {
      assert before + pushed == before;
    }
  }

  lemma SpecialIn(sql: string, start: nat, end: nat, found: bool)
    requires start <= end <= |sql|
    requires found ==> exists k :: start <= k < end && IsOperatorSpecial(sql[k])
    requires !found ==> forall k :: start <= k < end ==> !IsOperatorSpecial(sql[k])
    ensures HasSpecial(sql[start..end]) == found
  {
    var s := sql[start..end];
    if found {
      var k :| start <= k < end && IsOperatorSpecial(sql[k]);
      assert s[k - start] == sql[k];
    }
  }

  lemma DollarRests(sql: string, c: Config)
    requires WellPlaced(sql, c) && c.i < |sql| && c.state.DollarQuotedString?
    ensures !ClosesDollar(sql, c.marker, c.i) ==> Rest(sql, c) == Rest(sql, c.(i := c.i + 1))
    ensures ClosesDollar(sql, c.marker, c.i) ==>
              var e := c.i + |c.marker| + 2;
              e <= |sql| && Rest(sql, c) == Closed([Tok(Token(Requoted(sql, c.last, c.marker, c.i), |c.marker| + 2))],
                                                   e, e)
  {
  }

  lemma MarkersOff(sql: string, last: nat, full: nat, k: nat)
    requires last + full <= k && k + full <= |sql|
    ensures var quoted := sql[last..k + full]; quoted[full..|quoted| - full] == sql[last + full..k]
  {
    var head, body, tail := sql[last..last + full], sql[last + full..k], sql[k..k + full];
    assert sql[last..k + full] == head + body + tail;
  }

  /** At the end of the text nothing more is reported. */
  lemma AtEnd(sql: string, c: Config)
    requires WellPlaced(sql, c) && c.i == |sql|
    ensures Resume(sql, c) == Scan([], c.state, c.last)
  {
  }

  /** `ParserTokenizer`: the tokens of the current statement and the finished statements. */
  class ParserTokenizer {
    const sql: string
    var tokens: seq<Token>
    var statements: seq<seq<Token>>
    ghost var items: seq<Item>

    ghost predicate Valid()
      reads this
    {
      tokens == Current(items) && statements == Finished(items)
    }

    constructor (text: string)
      ensures sql == text && Valid() && items == []
    {
      sql, tokens, statements, items := text, [], [], [];
    }

    method Emplace(text: string, offset: nat)
      requires Valid()
      modifies this`tokens, this`items
      ensures Valid() && items == old(items) + [Tok(Token(text, offset))]
    {
      tokens := tokens + [Token(text, offset)];
      items := items + [Tok(Token(text, offset))];
    }

    method PushToken(start: nat, end: nat)
      requires Valid() && end <= |sql|
      modifies this`tokens, this`items
      ensures Valid() && items == old(items) + Piece(sql, start, end)
    {
      if start >= end {
        return;
      }
      var last_token := sql[start..end];
      Emplace(last_token, start);
    }

    method OnStatementEnd(pos: nat)
      requires Valid()
      modifies this`tokens, this`statements, this`items
      ensures Valid() && items == old(items) + [Semi(pos)]
    {
      statements := statements + [tokens];
      tokens := [];
      items := items + [Semi(pos)];
    }

    method OnLastToken(last_word: string, last_pos: nat)
      requires Valid() && last_pos <= |sql| && last_word == sql[last_pos..]
      modifies this`tokens, this`items
      ensures Valid() && items == old(items) + Piece(sql, last_pos, |sql|)
    {
      assert sql[last_pos..] == sql[last_pos..|sql|];
      if last_word == "" {
        return;
      }
      Emplace(last_word, last_pos);
    }

    method StandardStep(c: Config) returns (d: Config, ghost pushed: seq<Item>)
      requires Valid() && WellPlaced(sql, c) && c.state.Standard? && c.i < |sql|
      modifies this`tokens, this`statements, this`items
      ensures Valid() && items == old(items) + pushed && Entered(sql, c, pushed, d)
    {
      hide Rest, DollarFirst, SpecialOperator, Valid;
      var i, ch := c.i, sql[c.i];
      pushed := [];
      if ch == '\'' {
        d := Config(StringLiteral, i + 1, i, "");
      } else if ch == '"' {
        d := Config(QuotedIdentifier, i + 1, i, "");
      } else if ch == ';' {
        OnStatementEnd(i);
        d, pushed := Config(Standard, i + 1, i + 1, ""), [Semi(i)];
      } else if ch == '$' {
        d, pushed := DollarStep(c);
      } else if ch == '-' && i + 1 < |sql| && sql[i + 1] == '-' {
        d := Config(SingleLineComment, i + 2, c.last, "");
      } else if ch == '/' && i + 1 < |sql| && sql[i + 1] == '*' {
        d := Config(MultiLineComment, i + 2, c.last, "");
      } else if IsSpace(ch) {
        d := Config(Standard, i + 1, i + 1, "");
      } else {
        d, pushed := SymbolStep(c);
      }
    }

    method SymbolStep(c: Config) returns (d: Config, ghost pushed: seq<Item>)
      requires Valid() && WellPlaced(sql, c) && c.state.Standard? && c.i < |sql|
      requires sql[c.i] !in "'\";$" && !IsSpace(sql[c.i])
      requires !(sql[c.i] == '-' && c.i + 1 < |sql| && sql[c.i + 1] == '-')
      requires !(sql[c.i] == '/' && c.i + 1 < |sql| && sql[c.i + 1] == '*')
      modifies this`tokens, this`items
      ensures Valid() && items == old(items) + pushed && Entered(sql, c, pushed, d)
    {
      hide Rest, DollarFirst, SpecialOperator, Valid;
      var i, ch := c.i, sql[c.i];
      pushed := [];
      var op_len := SpecialOperator(sql, i);
      if op_len > 0 {
        Emplace(sql[i..i + op_len], c.last);
        d, pushed := Config(Standard, i + op_len, i + op_len, ""), [Tok(Token(sql[i..i + op_len], c.last))];
      } else if IsSingleByteOperator(ch) {
        Emplace([ch], c.last);
        d, pushed := Config(Standard, i + 1, i + 1, ""), [Tok(Token([ch], c.last))];
      } else if IsInitialNumber(ch) {
        d := Config(Numeric, i + 1, i, "");
      } else if IsSpecialStringCharacter(ch) && i + 1 < |sql| && sql[i + 1] == '\'' {
        d := Config(StringLiteral, i + 2, i, "");
      } else if IsPunctuation(ch) {
        d := Config(Operator, i + 1, i, "");
      } else {
        d := Config(Keyword, i + 1, i, "");
      }
    }

    method DollarStep(c: Config) returns (d: Config, ghost pushed: seq<Item>)
      requires Valid() && WellPlaced(sql, c) && c.state.Standard? && c.i < |sql| && sql[c.i] == '$'
      modifies this`tokens, this`items
      ensures Valid() && items == old(items) + pushed && Entered(sql, c, pushed, d)
    {
      hide Rest, Valid;
      var i := c.i;
      pushed := [];
      if i + 1 >= |sql| {
        d := c.(i := i + 1);
      } else if IsDigit(sql[i + 1]) {
        Emplace("$", i);
        d, pushed := c.(i := i + 1), [Tok(Token("$", i))];
      } else {
        var next_dollar, idx := 0, i + 1;
        while idx < |sql|
          invariant i < idx <= |sql| && next_dollar == 0 && TagDollar(sql, i + 1) == TagDollar(sql, idx)
        {
          if sql[idx] == '$' {
            next_dollar := idx;
            break;
          }
          if !IsDollarTag(sql[idx]) {
            break;
          }
          idx := idx + 1;
        }
        if next_dollar == 0 {
          Emplace("$", i);
          d, pushed := Config(Standard, i + 1, i, ""), [Tok(Token("$", i))];
        } else {
          d := Config(DollarQuotedString, next_dollar + 1, i, sql[i + 1..next_dollar]);
        }
      }
    }

    /** A quoted text: the closing quote, unless it is doubled. */
    method QuoteStep(c: Config, q: char) returns (d: Config, ghost pushed: seq<Item>)
      requires Valid() && WellPlaced(sql, c) && c.i < |sql|
      requires (c.state.StringLiteral? && q == '\'') || (c.state.QuotedIdentifier? && q == '"')
      modifies this`tokens, this`items
      ensures Valid() && items == old(items) + pushed && Continued(sql, c, pushed, d)
    {
      hide Valid, Piece;
      d, pushed := c.(i := c.i + 1), [];
      if sql[c.i] == q {
        if c.i + 1 < |sql| && sql[c.i + 1] == q {
          d := c.(i := c.i + 2);
        } else {
          PushToken(c.last, c.i + 1);
          d, pushed := Config(Standard, c.i + 1, c.i + 1, ""), Piece(sql, c.last, c.i + 1);
        }
      }
    }

    method NumericStep(c: Config) returns (d: Config, ghost pushed: seq<Item>)
      requires Valid() && WellPlaced(sql, c) && c.i < |sql| && c.state.Numeric?
      modifies this`tokens, this`items
      ensures Valid() && items == old(items) + pushed && Continued(sql, c, pushed, d)
    {
      hide Valid, Piece;
      var i, ch := c.i, sql[c.i];
      pushed := [];
      if NumberContinues(sql, i) {
        d := c.(i := i + 1);
      } else {
        while !IsInitialNumber(sql[i - 1])
          invariant c.last < i <= |sql| && BackTo(sql, c.last, i) == BackTo(sql, c.last, c.i)
          decreases i
        {
          i := i - 1;
        }
        PushToken(c.last, i);
        d, pushed := Config(Standard, i, i, ""), Piece(sql, c.last, i);
      }
    }

    /** Where the operator from start to i ends once the '+' characters it may not end in are trimmed. */
    method TrimOperator(start: nat, i: nat) returns (end_pos: nat)
      requires start <= i <= |sql|
      ensures end_pos == OperatorEnd(sql, start, i)
    {
      end_pos := i;
      var has_special := false;
      for j := start to end_pos
        invariant !has_special && forall k :: start <= k < j ==> !IsOperatorSpecial(sql[k])
      {
        if IsOperatorSpecial(sql[j]) {
          has_special := true;
          break;
        }
      }
      SpecialIn(sql, start, i, has_special);
      if !has_special {
        while end_pos > start && sql[end_pos - 1] == '+'
          invariant start <= end_pos <= i && TrimPlus(sql, start, end_pos) == TrimPlus(sql, start, i)
        {
          end_pos := end_pos - 1;
        }
      }
    }

    method PushSingles(start: nat, end: nat)
      requires Valid() && start <= end <= |sql|
      modifies this`tokens, this`items
      ensures Valid() && items == old(items) + Singles(sql, start, end)
    {
      hide Valid;
      for j := start to end
        invariant Valid() && items + Singles(sql, j, end) == old(items) + Singles(sql, start, end)
      {
        Emplace([sql[j]], j);
        assert Singles(sql, j, end) == [Tok(Token([sql[j]], j))] + Singles(sql, j + 1, end);
      }
      assert items + Singles(sql, end, end) == items;
    }

    method OperatorStep(c: Config) returns (d: Config, ghost pushed: seq<Item>)
      requires Valid() && WellPlaced(sql, c) && c.i < |sql| && c.state.Operator?
      modifies this`tokens, this`items
      ensures Valid() && items == old(items) + pushed && Continued(sql, c, pushed, d)
    {
      hide Valid, Piece, OperatorEnd, Singles;
      d, pushed := c.(i := c.i + 1), [];
      if !IsOperator(sql[c.i]) {
        var end_pos := TrimOperator(c.last, c.i);
        PushToken(c.last, end_pos);
        PushSingles(end_pos, c.i);
        pushed := Piece(sql, c.last, end_pos) + Singles(sql, end_pos, c.i);
        assert old(items) + pushed == (old(items) + Piece(sql, c.last, end_pos)) + Singles(sql, end_pos, c.i);
        d := Config(Standard, c.i, c.i, "");
      }
    }

    method KeywordStep(c: Config) returns (d: Config, ghost pushed: seq<Item>)
      requires Valid() && WellPlaced(sql, c) && c.i < |sql| && c.state.Keyword?
      modifies this`tokens, this`items
      ensures Valid() && items == old(items) + pushed && Continued(sql, c, pushed, d)
    {
      hide Valid, Piece;
      d, pushed := c.(i := c.i + 1), [];
      if !IsKeyword(sql[c.i]) {
        PushToken(c.last, c.i);
        d, pushed := Config(Standard, c.i, c.i, ""), Piece(sql, c.last, c.i);
      }
    }

    method CommentStep(c: Config) returns (d: Config, ghost pushed: seq<Item>)
      requires Valid() && WellPlaced(sql, c) && c.i < |sql| && (c.state.SingleLineComment? || c.state.MultiLineComment?)
      ensures Valid() && items == old(items) + pushed && Continued(sql, c, pushed, d)
    {
      hide Valid;
      d, pushed := c.(i := c.i + 1), [];
      if c.state.SingleLineComment? {
        if sql[c.i] == '\n' || sql[c.i] == '\r' {
          d := Config(Standard, c.i + 1, c.i + 1, "");
        }
      } else if sql[c.i] == '*' && c.i + 1 < |sql| && sql[c.i + 1] == '/' {
        d := Config(Standard, c.i + 2, c.i + 2, "");
      }
    }

    method DollarQuotedStep(c: Config) returns (d: Config, ghost pushed: seq<Item>)
      requires Valid() && WellPlaced(sql, c) && c.i < |sql| && c.state.DollarQuotedString?
      modifies this`tokens, this`items
      ensures Valid() && items == old(items) + pushed && Continued(sql, c, pushed, d)
    {
      hide Valid, ReplaceAll, Rest;
      d, pushed := c.(i := c.i + 1), [];
      DollarRests(sql, c);
      if sql[c.i] != '$' || c.i + 1 >= |sql| {
        return;
      }
      var start := c.i + 1;
      var end := start;
      while end < |sql| && sql[end] != '$'
        invariant start <= end <= |sql| && NextDollar(sql, start) == NextDollar(sql, end)
      {
        end := end + 1;
      }
      if end >= |sql| {
        return;
      }
      if end - start != |c.marker| {
        return;
      }
      if sql[start..start + |c.marker|] != c.marker {
        return;
      }
      var full_marker_len := |c.marker| + 2;
      var quoted := sql[c.last..start + |c.marker| + 1];
      var content := quoted[full_marker_len..|quoted| - full_marker_len];
      MarkersOff(sql, c.last, full_marker_len, c.i);
      content := ReplaceAll(content, "'", "''");
      quoted := "'" + content + "'";
      Emplace(quoted, full_marker_len);
      d, pushed := Config(Standard, end + 1, end + 1, ""), [Tok(Token(quoted, full_marker_len))];
    }

    method TokenizeInput() returns (ok: bool)
      requires Valid() && items == []
      modifies this
      ensures Valid() && ok == EndsQuietly(Lex(sql, 0, 0).state)
      ensures items == Lex(sql, 0, 0).items + if ok then LastWord(sql, Lex(sql, 0, 0)) else []
    {
      hide Valid, Lex, Piece, Entered, Continued;
      var c := Config(Standard, 0, 0, "");
      while c.i < |sql|
        invariant Valid() && WellPlaced(sql, c)
        invariant Prepend(items, Resume(sql, c)) == Lex(sql, 0, 0)
        decreases |sql| - c.last, |sql| - c.i
      {
        ghost var before, pushed := items, [];
        var d;
        match c.state {
          case Standard => d, pushed := StandardStep(c);
          case StringLiteral => d, pushed := QuoteStep(c, '\'');
          case QuotedIdentifier => d, pushed := QuoteStep(c, '"');
          case Numeric => d, pushed := NumericStep(c);
          case Operator => d, pushed := OperatorStep(c);
          case Keyword => d, pushed := KeywordStep(c);
          case SingleLineComment => d, pushed := CommentStep(c);
          case MultiLineComment => d, pushed := CommentStep(c);
          case DollarQuotedString => d, pushed := DollarQuotedStep(c);
        }
        if c.state.Standard? {
          EnteredSteps(sql, before, c, pushed, d);
        } else {
          ContinuedSteps(sql, before, c, pushed, d);
        }
        c := d;
      }
      AtEnd(sql, c);
      if !EndsQuietly(c.state) {
        return false;
      }
      var last_pos := c.last;
      if c.state.StringLiteral? {
        last_pos := last_pos + 1;
      }
      OnLastToken(sql[last_pos..], last_pos);
      return true;
    }
  }
}
