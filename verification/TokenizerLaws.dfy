/** Coverage and stable re-lexing of text without '$'. */
module TokenizerLaws {
  import opened Options
  import opened Characters
  import opened Tokenizer
  import opened Tokens

  predicate DollarFree(s: string) {
    forall k :: 0 <= k < |s| ==> s[k] != '$'
  }

  // ----- coverage -----

  /** White space and closed comments only. */
  ghost predicate Blank(sql: string, a: nat, b: nat)
    requires a <= b <= |sql|
    decreases b - a
  {
    || a == b
    || (IsSpace(sql[a]) && Blank(sql, a + 1, b))
    || (a + 1 < |sql| && sql[a] == '-' && sql[a + 1] == '-' && LineEnd(sql, a + 2).Some?
        && LineEnd(sql, a + 2).value <= b
        && Blank(sql, LineEnd(sql, a + 2).value, b))
    || (a + 1 < |sql| && sql[a] == '/' && sql[a + 1] == '*' && BlockEnd(sql, a + 2).Some?
        && BlockEnd(sql, a + 2).value <= b
        && Blank(sql, BlockEnd(sql, a + 2).value, b))
  }

  function StartOf(item: Item): nat {
    match item case Tok(t) => t.offset case Semi(p) => p
  }

  function EndOf(item: Item): nat {
    match item case Tok(t) => t.offset + |t.text| case Semi(p) => p + 1
  }

  /** The item is what the text says at its place. */
  predicate Faithful(sql: string, item: Item) {
    && StartOf(item) < EndOf(item) <= |sql|
    && sql[StartOf(item)..EndOf(item)] == match item case Tok(t) => t.text case Semi(_) => ";"
  }

  /** From p on, the text is the items in order, with only blanks before, between and after them. */
  ghost predicate Covers(sql: string, p: nat, items: seq<Item>)
    requires p <= |sql|
    decreases |items|
  {
    if items == [] then Blank(sql, p, |sql|)
    else
      && Faithful(sql, items[0]) && p <= StartOf(items[0]) && Blank(sql, p, StartOf(items[0]))
      && Covers(sql, EndOf(items[0]), items[1..])
  }

  /** The items follow each other without a gap from p to q. */
  predicate Adjoining(sql: string, p: nat, q: nat, items: seq<Item>)
    decreases |items|
  {
    if items == [] then p == q
    else Faithful(sql, items[0]) && p == StartOf(items[0]) && Adjoining(sql, EndOf(items[0]), q, items[1..])
  }

  lemma NothingBlank(sql: string, p: nat)
    requires p <= |sql|
    ensures Blank(sql, p, p)
  {
  }

  lemma {:induction false} AdjoiningCovers(sql: string, p: nat, q: nat, items: seq<Item>, rest: seq<Item>)
    requires p <= |sql| && q <= |sql| && Adjoining(sql, p, q, items) && Covers(sql, q, rest)
    ensures Covers(sql, p, items + rest)
    decreases |items|
  {
    hide Blank;
    NothingBlank(sql, p);
    if items == [] {
      assert items + rest == rest;
    } else {
      AdjoiningCovers(sql, EndOf(items[0]), q, items[1..], rest);
      assert (items + rest)[1..] == items[1..] + rest;
    }
  }

  /** A single blank: one white-space character or one closed comment. */
  ghost predicate OneBlank(sql: string, a: nat, b: nat) {
    a < b <= |sql| && (forall c :: b <= c <= |sql| && Blank(sql, b, c) ==> Blank(sql, a, c))
  }

  lemma OneBlankCovers(sql: string, a: nat, b: nat, items: seq<Item>)
    requires OneBlank(sql, a, b) && Covers(sql, b, items)
    ensures Covers(sql, a, items)
  {
  }

  lemma SinglesAdjoin(sql: string, p: nat, q: nat)
    requires p <= q <= |sql|
    ensures Adjoining(sql, p, q, Singles(sql, p, q))
    decreases q - p
  {
    if p < q {
      SinglesAdjoin(sql, p + 1, q);
      var x := Tok(Token([sql[p]], p));
      assert sql[p..p + 1] == [sql[p]];
      assert Faithful(sql, x);
      assert Singles(sql, p, q)[0] == x && Singles(sql, p, q)[1..] == Singles(sql, p + 1, q);
    }
  }

  lemma PieceAdjoins(sql: string, p: nat, q: nat)
    requires p <= q <= |sql|
    ensures Adjoining(sql, p, q, Piece(sql, p, q))
  {
  }

  lemma {:induction false} AdjoiningConcat(sql: string, p: nat, q: nat, r: nat, xs: seq<Item>, ys: seq<Item>)
    requires Adjoining(sql, p, q, xs) && Adjoining(sql, q, r, ys)
    ensures Adjoining(sql, p, r, xs + ys)
    decreases |xs|
  {
    hide Faithful, EndOf, StartOf;
    if xs == [] {
      assert xs + ys == ys;
    } else {
      AdjoiningConcat(sql, EndOf(xs[0]), q, r, xs[1..], ys);
      assert (xs + ys)[1..] == xs[1..] + ys;
    }
  }

  /** What the lexeme at i covers. */
  ghost predicate CoveredBy(sql: string, i: nat, x: Lexeme) {
    match x
    case Closed(items, next, last) => next == last
        && (Adjoining(sql, i, next, items) || (items == [] && OneBlank(sql, i, next)))
    case Open(state, last) => EndsQuietly(state) ==> last == i
  }

  lemma RestCovers(sql: string, c: Config)
    requires WellPlaced(sql, c) && !c.state.Standard? && EndsQuietly(c.state)
    ensures CoveredBy(sql, c.last, Rest(sql, c))
  {
    hide Singles, Piece, Adjoining;
    match Rest(sql, c) {
      case Open(_, _) =>
      case Closed(items, next, _) =>
        PieceAdjoins(sql, c.last, next);
        if c.state.Operator? {
          var e := OperatorEnd(sql, c.last, next);
          PieceAdjoins(sql, c.last, e);
          SinglesAdjoin(sql, e, next);
          AdjoiningConcat(sql, c.last, e, next, Piece(sql, c.last, e), Singles(sql, e, next));
        }
    }
  }

  lemma CommentCovers(sql: string, i: nat, state: State)
    requires i + 1 < |sql|
    requires (state.SingleLineComment? && sql[i] == '-' && sql[i + 1] == '-')
             || (state.MultiLineComment? && sql[i] == '/' && sql[i + 1] == '*')
    ensures CoveredBy(sql, i, Rest(sql, Config(state, i + 2, i, "")))
  {
  }

  lemma FirstCovers(sql: string, i: nat)
    requires DollarFree(sql) && i < |sql|
    ensures CoveredBy(sql, i, First(sql, i, i))
  {
    hide Rest;
    var c := sql[i];
    if c == '\'' {
      RestCovers(sql, Config(StringLiteral, i + 1, i, ""));
    } else if c == '"' {
      RestCovers(sql, Config(QuotedIdentifier, i + 1, i, ""));
    } else if c == '-' && i + 1 < |sql| && sql[i + 1] == '-' {
      CommentCovers(sql, i, SingleLineComment);
    } else if c == '/' && i + 1 < |sql| && sql[i + 1] == '*' {
      CommentCovers(sql, i, MultiLineComment);
    } else if IsInitialNumber(c) {
      RestCovers(sql, Config(Numeric, i + 1, i, ""));
    } else if IsSpecialStringCharacter(c) && i + 1 < |sql| && sql[i + 1] == '\'' {
      RestCovers(sql, Config(StringLiteral, i + 2, i, ""));
    } else if First(sql, i, i) == Rest(sql, Config(Operator, i + 1, i, "")) {
      RestCovers(sql, Config(Operator, i + 1, i, ""));
    } else if First(sql, i, i) == Rest(sql, Config(Keyword, i + 1, i, "")) {
      RestCovers(sql, Config(Keyword, i + 1, i, ""));
    } else {
      SymbolCovers(sql, i);
    }
  }

  lemma SymbolCovers(sql: string, i: nat)
    requires DollarFree(sql) && i < |sql| && First(sql, i, i).Closed?
    requires sql[i] == ';' || IsSpace(sql[i]) || SpecialOperator(sql, i) > 0 || IsSingleByteOperator(sql[i])
    requires sql[i] !in "'\"" && !(sql[i] == '-' && i + 1 < |sql| && sql[i + 1] == '-')
    requires !(sql[i] == '/' && i + 1 < |sql| && sql[i + 1] == '*')
    ensures CoveredBy(sql, i, First(sql, i, i))
  {
    hide Rest, SpecialOperator;
    if IsSpace(sql[i]) {
      assert First(sql, i, i) == Closed([], i + 1, i + 1);
    } else if sql[i] == ';' {
      assert First(sql, i, i) == Closed([Semi(i)], i + 1, i + 1);
      var x := Semi(i);
      assert sql[i..i + 1] == [sql[i]] == ";";
      assert Faithful(sql, x);
      assert Adjoining(sql, i, i + 1, [x]);
    } else {
      var n := if SpecialOperator(sql, i) > 0 then SpecialOperator(sql, i) else 1;
      assert sql[i..i + 1] == [sql[i]];
      var x := Tok(Token(sql[i..i + n], i));
      assert First(sql, i, i) == Closed([x], i + n, i + n);
      assert Faithful(sql, x);
      assert Adjoining(sql, i, i + n, [x]);
    }
  }

  lemma {:induction false} LexCovers(sql: string, i: nat)
    requires DollarFree(sql) && i <= |sql|
    requires EndsQuietly(Lex(sql, i, i).state) && !Lex(sql, i, i).state.StringLiteral?
    ensures Covers(sql, i, Lex(sql, i, i).items + LastWord(sql, Lex(sql, i, i)))
    decreases |sql| - i
  {
    hide First, Adjoining, OneBlank;
    var s := Lex(sql, i, i);
    if i < |sql| {
      FirstCovers(sql, i);
      match First(sql, i, i) {
        case Open(state, last) =>
          assert s.items + LastWord(sql, s) == Piece(sql, i, |sql|);
          PieceAdjoins(sql, i, |sql|);
          AdjoiningCovers(sql, i, |sql|, Piece(sql, i, |sql|), []);
          assert Piece(sql, i, |sql|) + [] == Piece(sql, i, |sql|);
        case Closed(items, next, last) =>
          LexCovers(sql, next);
          var rest := Lex(sql, next, next);
          var after := rest.items + LastWord(sql, rest);
          assert s.items + LastWord(sql, s) == items + after;
          if items == [] && OneBlank(sql, i, next) {
            OneBlankCovers(sql, i, next, after);
            assert items + after == after;
          } else {
            AdjoiningCovers(sql, i, next, items, after);
          }
      }
    }
  }

  /** Coverage: every token is the text at its offset, the tokens are in order and disjoint, a statement ends exactly at
      a ';' outside them, and all the rest is white space and comments. */
  lemma Coverage(sql: string)
    requires DollarFree(sql)
    requires var s := Lex(sql, 0, 0); EndsQuietly(s.state) && !s.state.StringLiteral?
    ensures Covers(sql, 0, Lex(sql, 0, 0).items + LastWord(sql, Lex(sql, 0, 0)))
  {
    LexCovers(sql, 0);
  }

  // ----- the texts that lex to themselves -----

  predicate AllOperator(t: string) {
    forall k :: 0 <= k < |t| ==> IsOperator(t[k])
  }

  predicate AllKeyword(t: string) {
    forall k :: 0 <= k < |t| ==> IsKeyword(t[k])
  }

  predicate StringText(t: string) {
    || (|t| > 0 && t[0] == '\'' && QuoteEnd(t, '\'', 1) == Some(|t|))
    || (|t| > 1 && IsSpecialStringCharacter(t[0]) && t[1] == '\'' && QuoteEnd(t, '\'', 2) == Some(|t|))
  }

  predicate IdentifierText(t: string) {
    |t| > 0 && t[0] == '"' && QuoteEnd(t, '"', 1) == Some(|t|)
  }

  predicate SymbolText(t: string) {
    t in {"->>", "::", ":=", "->", "**", "//"} || (|t| == 1 && IsSingleByteOperator(t[0]))
  }

  /** A number that may still go on. */
  predicate NumberOpen(t: string) {
    |t| > 0 && IsInitialNumber(t[0]) && NumberStop(t, 1) == |t|
  }

  /** An operator that may still go on. */
  predicate OperatorOpen(t: string) {
    |t| > 0 && AllOperator(t) && SpecialOperator(t, 0) == 0 && !(|t| > 1 && t[0] == '/' && t[1] == '*')
  }

  predicate KeywordText(t: string) {
    |t| > 0 && AllKeyword(t) && !IsDigit(t[0])
  }

  /** The texts of tokens that have been closed. */
  predicate Stable(t: string) {
    || StringText(t) || IdentifierText(t) || SymbolText(t) || KeywordText(t)
    || (NumberOpen(t) && IsInitialNumber(t[|t| - 1]))
    || (OperatorOpen(t) && (HasSpecial(t) || t[|t| - 1] != '+' || t == "+"))
  }

  /** The texts the last token of a run may have. */
  predicate StableLast(t: string) {
    Stable(t) || NumberOpen(t) || OperatorOpen(t)
  }

  // ----- moving a lexeme to another text -----

  /** sql2 has at i2 the n characters that sql has at i. */
  predicate Same(sql: string, i: nat, sql2: string, i2: nat, n: nat) {
    i + n <= |sql| && i2 + n <= |sql2| && sql[i..i + n] == sql2[i2..i2 + n]
  }

  lemma SameAt(sql: string, i: nat, sql2: string, i2: nat, n: nat, k: nat)
    requires Same(sql, i, sql2, i2, n) && k < n
    ensures i + n <= |sql| && i2 + n <= |sql2| && sql[i + k] == sql2[i2 + k]
  {
    assert sql[i..i + n][k] == sql2[i2..i2 + n][k];
  }

  /** A quoted text keeps its end unless the character after it is a quote. */
  lemma {:induction false} QuoteMoves(sql: string, i: nat, sql2: string, i2: nat, q: char, e: nat)
    requires i <= |sql| && QuoteEnd(sql, q, i) == Some(e) && Same(sql, i, sql2, i2, e - i)
    requires i2 + (e - i) < |sql2| ==> sql2[i2 + (e - i)] != q
    ensures QuoteEnd(sql2, q, i2) == Some(i2 + (e - i))
    decreases |sql| - i
  {
    hide Same;
    if i < |sql| {
      SameAt(sql, i, sql2, i2, e - i, 0);
      if sql[i] != q {
        SameTail(sql, i, sql2, i2, e - i, 1);
        QuoteMoves(sql, i + 1, sql2, i2 + 1, q, e);
      } else if i + 1 < |sql| && sql[i + 1] == q {
        SameAt(sql, i, sql2, i2, e - i, 1);
        SameTail(sql, i, sql2, i2, e - i, 2);
        QuoteMoves(sql, i + 2, sql2, i2 + 2, q, e);
      }
    }
  }

  lemma SameTail(sql: string, i: nat, sql2: string, i2: nat, n: nat, k: nat)
    requires Same(sql, i, sql2, i2, n) && k <= n
    ensures Same(sql, i + k, sql2, i2 + k, n - k)
  {
    assert sql[i + k..i + n] == sql[i..i + n][k..] && sql2[i2 + k..i2 + n] == sql2[i2..i2 + n][k..];
  }

  lemma {:induction false} NumberStopRuns(sql: string, i: nat)
    requires 0 < i <= |sql|
    ensures forall k :: i <= k < NumberStop(sql, i) ==> NumberContinues(sql, k)
    ensures NumberStop(sql, i) < |sql| ==> !NumberContinues(sql, NumberStop(sql, i))
    decreases |sql| - i
  {
    if i < |sql| && NumberContinues(sql, i) { NumberStopRuns(sql, i + 1); }
  }

  lemma {:induction false} NumberStopIs(sql: string, i: nat, e: nat)
    requires 0 < i <= e <= |sql|
    requires forall k :: i <= k < e ==> NumberContinues(sql, k)
    requires e < |sql| ==> !NumberContinues(sql, e)
    ensures NumberStop(sql, i) == e
    decreases e - i
  {
    if i < e { NumberStopIs(sql, i + 1, e); }
  }

  /** A number's characters still continue it where the same characters stand, as long as none of them is a last '_'. */
  lemma NumberMoves(sql: string, i: nat, sql2: string, i2: nat, n: nat)
    requires n > 0 && Same(sql, i, sql2, i2, n)
    requires forall k :: i + 1 <= k < i + n ==> NumberContinues(sql, k)
    requires IsInitialNumber(sql[i + n - 1]) || (i + n == |sql| && i2 + n == |sql2|)
    ensures forall k :: i2 + 1 <= k < i2 + n ==> NumberContinues(sql2, k)
  {
    forall k | i2 + 1 <= k < i2 + n ensures NumberContinues(sql2, k) {
      var j := k - i2;
      assert NumberContinues(sql, i + j);
      SameAt(sql, i, sql2, i2, n, j);
      SameAt(sql, i, sql2, i2, n, j - 1);
      if j + 1 < n { SameAt(sql, i, sql2, i2, n, j + 1); }
    }
  }

  lemma {:induction false} OperatorStopIs(sql: string, i: nat, e: nat)
    requires i <= e <= |sql|
    requires forall k :: i <= k < e ==> IsOperator(sql[k])
    requires e < |sql| ==> !IsOperator(sql[e])
    ensures OperatorStop(sql, i) == e
    decreases e - i
  {
    if i < e { OperatorStopIs(sql, i + 1, e); }
  }

  lemma {:induction false} KeywordStopIs(sql: string, i: nat, e: nat)
    requires i <= e <= |sql|
    requires forall k :: i <= k < e ==> IsKeyword(sql[k])
    requires e < |sql| ==> !IsKeyword(sql[e])
    ensures KeywordStop(sql, i) == e
    decreases e - i
  {
    if i < e { KeywordStopIs(sql, i + 1, e); }
  }

  // ----- every reported token is stable -----

  predicate AllStable(items: seq<Item>) {
    forall k :: 0 <= k < |items| && items[k].Tok? ==> Stable(items[k].token.text)
  }

  lemma QuoteStable(sql: string, i: nat, skip: nat, q: char, e: nat)
    requires i + skip <= |sql| && skip > 0 && QuoteEnd(sql, q, i + skip) == Some(e)
    ensures QuoteEnd(sql[i..e], q, skip) == Some(e - i)
  {
    var t := sql[i..e];
    assert t[skip..skip + (e - (i + skip))] == sql[i + skip..i + skip + (e - (i + skip))];
    QuoteMoves(sql, i + skip, t, skip, q, e);
  }

  lemma NumberStable(sql: string, i: nat, j: nat)
    requires i < |sql| && IsInitialNumber(sql[i]) && j == NumberStop(sql, i + 1)
    ensures NumberOpen(sql[i..BackTo(sql, i, j)])
    ensures j == |sql| ==> NumberOpen(sql[i..])
  {
    NumberStopRuns(sql, i + 1);
    var e := BackTo(sql, i, j);
    NumberMoves(sql, i, sql[i..e], 0, e - i);
    NumberStopIs(sql[i..e], 1, e - i);
    if j == |sql| {
      NumberMoves(sql, i, sql[i..], 0, |sql| - i);
      NumberStopIs(sql[i..], 1, |sql| - i);
    }
  }

  lemma OperatorStable(sql: string, i: nat, e: nat)
    requires i < e <= |sql| && (forall k :: i <= k < e ==> IsOperator(sql[k]))
    requires SpecialOperator(sql, i) == 0 && !(i + 1 < |sql| && sql[i] == '/' && sql[i + 1] == '*')
    ensures OperatorOpen(sql[i..e])
  {
    var t := sql[i..e];
    if |t| > 1 {
      assert t[0..2] == sql[i..i + 2];
    }
    if |t| > 2 {
      assert t[0..3] == sql[i..i + 3];
    }
  }

  /** What the lexeme at i reports is stable, and so is what it leaves as a last word. */
  ghost predicate LexemeStable(sql: string, x: Lexeme) {
    match x
    case Closed(items, _, _) => AllStable(items)
    case Open(state, last) => state in {Numeric, Operator, Keyword} ==> last < |sql| && StableLast(sql[last..])
  }

  lemma QuoteRestStable(sql: string, i: nat, skip: nat, state: State)
    requires i + skip <= |sql| && skip > 0 && state in {StringLiteral, QuotedIdentifier}
    requires sql[i + skip - 1] == if state.StringLiteral? then '\'' else '"'
    requires skip > 1 ==> skip == 2 && IsSpecialStringCharacter(sql[i]) && state.StringLiteral?
    ensures LexemeStable(sql, Rest(sql, Config(state, i + skip, i, "")))
  {
    hide QuoteEnd, NumberOpen, OperatorOpen, KeywordText, SymbolText;
    var q := if state.StringLiteral? then '\'' else '"';
    match QuoteEnd(sql, q, i + skip) {
      case None =>
      case Some(e) => QuoteStable(sql, i, skip, q, e);
    }
  }

  lemma NumberRestStable(sql: string, i: nat)
    requires i < |sql| && IsInitialNumber(sql[i])
    ensures LexemeStable(sql, Rest(sql, Config(Numeric, i + 1, i, "")))
  {
    hide NumberOpen;
    NumberStable(sql, i, NumberStop(sql, i + 1));
  }

  lemma KeywordRestStable(sql: string, i: nat)
    requires i < |sql| && IsKeyword(sql[i]) && !IsDigit(sql[i])
    ensures LexemeStable(sql, Rest(sql, Config(Keyword, i + 1, i, "")))
  {
    var j := KeywordStop(sql, i + 1);
    assert KeywordText(sql[i..j]);
    assert j == |sql| ==> sql[i..] == sql[i..j];
  }

  lemma OperatorRestStable(sql: string, i: nat)
    requires i < |sql| && IsOperator(sql[i])
    requires SpecialOperator(sql, i) == 0 && !(i + 1 < |sql| && sql[i] == '/' && sql[i + 1] == '*')
    ensures LexemeStable(sql, Rest(sql, Config(Operator, i + 1, i, "")))
  {
    hide OperatorOpen, HasSpecial;
    var j := OperatorStop(sql, i + 1);
    if j == |sql| {
      OperatorStable(sql, i, j);
      assert sql[i..] == sql[i..j];
    } else {
      var e := OperatorEnd(sql, i, j);
      if i < e { OperatorStable(sql, i, e); }
      assert AllStable(Piece(sql, i, e)) by {
        assert i < e ==> sql[i..e][|sql[i..e]| - 1] == sql[e - 1];
      }
      PlusStable(sql, e, j);
    }
  }

  lemma PlusStable(sql: string, e: nat, j: nat)
    requires e <= j <= |sql| && forall k :: e <= k < j ==> sql[k] == '+'
    ensures AllStable(Singles(sql, e, j))
  {
    assert OperatorOpen("+");
  }

  lemma FirstStable(sql: string, i: nat)
    requires DollarFree(sql) && i < |sql|
    ensures LexemeStable(sql, First(sql, i, i))
  {
    hide Rest, StringText, IdentifierText, NumberOpen, OperatorOpen, KeywordText;
    var c := sql[i];
    if c == '\'' {
      QuoteRestStable(sql, i, 1, StringLiteral);
    } else if c == '"' {
      QuoteRestStable(sql, i, 1, QuotedIdentifier);
    } else if c == '-' && i + 1 < |sql| && sql[i + 1] == '-' {
      CommentStable(sql, Config(SingleLineComment, i + 2, i, ""));
    } else if c == '/' && i + 1 < |sql| && sql[i + 1] == '*' {
      CommentStable(sql, Config(MultiLineComment, i + 2, i, ""));
    } else if c == ';' || IsSpace(c) || SpecialOperator(sql, i) > 0 || IsSingleByteOperator(c) {
    } else if IsInitialNumber(c) {
      NumberRestStable(sql, i);
    } else if IsSpecialStringCharacter(c) && i + 1 < |sql| && sql[i + 1] == '\'' {
      QuoteRestStable(sql, i, 2, StringLiteral);
    } else if IsPunctuation(c) {
      OperatorRestStable(sql, i);
    } else {
      KeywordRestStable(sql, i);
    }
  }

  lemma CommentStable(sql: string, c: Config)
    requires WellPlaced(sql, c) && (c.state.SingleLineComment? || c.state.MultiLineComment?)
    ensures LexemeStable(sql, Rest(sql, c))
  {
  }

  lemma {:induction false} LexStable(sql: string, i: nat)
    requires DollarFree(sql) && i <= |sql|
    ensures AllStable(Lex(sql, i, i).items)
    ensures Lex(sql, i, i).state.Standard? ==> Lex(sql, i, i).last == |sql|
    ensures Lex(sql, i, i).state in {Numeric, Operator, Keyword} ==>
              Lex(sql, i, i).last < |sql| && StableLast(sql[Lex(sql, i, i).last..])
    decreases |sql| - i
  {
    hide First, Stable, StableLast;
    if i < |sql| {
      FirstStable(sql, i);
      FirstCovers(sql, i);
      match First(sql, i, i) {
        case Open(state, last) => NeverOpenStandard(sql, i);
        case Closed(items, next, last) => LexStable(sql, next);
      }
    }
  }

  lemma NeverOpenStandard(sql: string, i: nat)
    requires i < |sql| && First(sql, i, i).Open?
    ensures !First(sql, i, i).state.Standard?
  {
    hide Rest;
  }

  // ----- a stable text lexes to itself -----

  /** t stands at p, and a space or the end of the text comes after it. */
  predicate Stands(sql: string, p: nat, t: string) {
    p + |t| <= |sql| && sql[p..p + |t|] == t && (p + |t| < |sql| ==> sql[p + |t|] == ' ')
  }

  /** The lexeme at p is t: closed right after it, or open to the end of the text. */
  ghost predicate Is(sql: string, p: nat, t: string, x: Lexeme) {
    || x == Closed([Tok(Token(t, p))], p + |t|, p + |t|)
    || (p + |t| == |sql| && x.Open? && x.state in {Numeric, Operator, Keyword} && x.last == p)
  }

  lemma StandsAt(sql: string, p: nat, t: string)
    requires Stands(sql, p, t)
    ensures Same(t, 0, sql, p, |t|)
    ensures forall k :: 0 <= k < |t| ==> sql[p + k] == t[k]
  {
    assert t[0..|t|] == t;
    forall k {:trigger t[k]} | 0 <= k < |t| ensures sql[p + k] == t[k] {
      assert sql[p..p + |t|][k] == t[k];
    }
  }

  lemma StringStands(sql: string, p: nat, t: string)
    requires Stands(sql, p, t) && (StringText(t) || IdentifierText(t))
    ensures Is(sql, p, t, First(sql, p, p))
  {
    hide First, Rest, StringText, IdentifierText, Is, QuoteEnd;
    QuotedHead(t);
    var skip := if t[0] == '\'' || t[0] == '"' then 1 else 2;
    var q := if t[0] == '"' then '"' else '\'';
    StandsAt(sql, p, t);
    SameTail(t, 0, sql, p, |t|, skip);
    QuoteMoves(t, skip, sql, p + skip, q, |t|);
    QuoteRestIs(sql, p, t, if t[0] == '"' then QuotedIdentifier else StringLiteral, skip);
    assert sql[p] == t[0] && sql[p + 1] == t[1];
    QuoteEntered(sql, p);
  }

  lemma QuoteEntered(sql: string, p: nat)
    requires p + 1 < |sql|
    requires sql[p] == '"' || sql[p] == '\'' || (IsSpecialStringCharacter(sql[p]) && sql[p + 1] == '\'')
    ensures First(sql, p, p) ==
              Rest(sql, Config(if sql[p] == '"' then QuotedIdentifier else StringLiteral,
                               if sql[p] == '"' || sql[p] == '\'' then p + 1 else p + 2, p, ""))
  {
    hide Rest;
    assert sql[p..p + 2][0] == sql[p];
    if p + 2 < |sql| { assert sql[p..p + 3][0] == sql[p]; }
    assert sql[p] != ':' && sql[p] != '-' && sql[p] != '*' && sql[p] != '/';
  }

  lemma QuotedHead(t: string)
    requires StringText(t) || IdentifierText(t)
    ensures |t| > 1
    ensures t[0] == '"' || t[0] == '\'' || (IsSpecialStringCharacter(t[0]) && t[1] == '\'')
    ensures QuoteEnd(t, if t[0] == '"' then '"' else '\'', if t[0] == '\'' || t[0] == '"' then 1 else 2) == Some(|t|)
  {
  }

  lemma QuoteRestIs(sql: string, p: nat, t: string, state: State, skip: nat)
    requires state in {StringLiteral, QuotedIdentifier} && 0 < skip <= |t| && Stands(sql, p, t)
    requires QuoteEnd(sql, if state.StringLiteral? then '\'' else '"', p + skip) == Some(p + |t|)
    ensures Is(sql, p, t, Rest(sql, Config(state, p + skip, p, "")))
  {
  }

  lemma NumberEntered(sql: string, p: nat)
    requires p < |sql| && IsInitialNumber(sql[p])
    ensures First(sql, p, p) == Rest(sql, Config(Numeric, p + 1, p, ""))
  {
    hide Rest, DollarFirst;
    assert SpecialOperator(sql, p) == 0;
  }

  lemma NumberStands(sql: string, p: nat, t: string)
    requires Stands(sql, p, t) && NumberOpen(t) && (IsInitialNumber(t[|t| - 1]) || p + |t| == |sql|)
    ensures Is(sql, p, t, First(sql, p, p))
  {
    hide First;
    StandsAt(sql, p, t);
    NumberStopRuns(t, 1);
    NumberMoves(t, 0, sql, p, |t|);
    NumberStopIs(sql, p + 1, p + |t|);
    assert sql[p] == t[0];
    NumberEntered(sql, p);
    if p + |t| < |sql| {
      assert sql[p + (|t| - 1)] == t[|t| - 1];
      assert BackTo(sql, p, p + |t|) == p + |t|;
    }
  }

  lemma KeywordStands(sql: string, p: nat, t: string)
    requires Stands(sql, p, t) && KeywordText(t)
    ensures Is(sql, p, t, First(sql, p, p))
  {
    StandsAt(sql, p, t);
    forall k | p <= k < p + |t| ensures IsKeyword(sql[k]) { assert sql[p + (k - p)] == t[k - p]; }
    KeywordStopIs(sql, p + 1, p + |t|);
    assert sql[p] == t[0];
    assert SpecialOperator(sql, p) == 0;
    if |t| > 1 { assert sql[p + 1] == t[1]; }
    assert First(sql, p, p) == Rest(sql, Config(Keyword, p + 1, p, ""));
  }

  lemma SymbolStands(sql: string, p: nat, t: string)
    requires Stands(sql, p, t) && SymbolText(t) && DollarFree(t)
    ensures Is(sql, p, t, First(sql, p, p))
  {
    hide SpecialOperator, First, Same, Lex;
    StandsAt(sql, p, t);
    SymbolAt(sql, p, t);
    assert sql[p] == t[0];
    if |t| == 1 {
      assert t == [sql[p]];
    } else {
      assert sql[p + 1] == t[1];
    }
    SymbolFirst(sql, p);
  }

  lemma SymbolFirst(sql: string, p: nat)
    requires p < |sql| && sql[p] !in "'\";$" && !IsSpace(sql[p])
    requires p + 1 < |sql| ==> !(sql[p] == '-' && sql[p + 1] == '-') && !(sql[p] == '/' && sql[p + 1] == '*')
    ensures var n := SpecialOperator(sql, p);
            if n > 0 then First(sql, p, p) == Closed([Tok(Token(sql[p..p + n], p))], p + n, p + n)
            else IsSingleByteOperator(sql[p]) ==> First(sql, p, p) == Closed([Tok(Token([sql[p]], p))], p + 1, p + 1)
  {
    hide SpecialOperator, Rest, DollarFirst;
  }

  lemma SymbolAt(sql: string, p: nat, t: string)
    requires Stands(sql, p, t) && SymbolText(t)
    ensures SpecialOperator(sql, p) == if |t| == 1 then 0 else |t|
    ensures |t| == 1 && p + 1 < |sql| ==> sql[p + 1] == ' '
  {
    if |t| == 3 {
      assert sql[p..p + 3] == t;
    } else if |t| == 2 {
      assert sql[p..p + 2] == t;
      if p + 2 < |sql| { assert sql[p..p + 3][2] == ' '; }
    } else if p + 1 < |sql| {
      assert sql[p..p + 2][1] == ' ';
      if p + 2 < |sql| { assert sql[p..p + 3][1] == ' '; }
    }
  }

  lemma OperatorStands(sql: string, p: nat, t: string)
    requires Stands(sql, p, t) && OperatorOpen(t)
    requires p + |t| == |sql| || HasSpecial(t) || t[|t| - 1] != '+' || t == "+"
    ensures Is(sql, p, t, First(sql, p, p))
  {
    StandsAt(sql, p, t);
    forall k | p <= k < p + |t| ensures IsOperator(sql[k]) { assert sql[p + (k - p)] == t[k - p]; }
    OperatorStopIs(sql, p + 1, p + |t|);
    OperatorHead(sql, p, t);
    OperatorRestIs(sql, p, t);
  }

  lemma OperatorHead(sql: string, p: nat, t: string)
    requires Stands(sql, p, t) && OperatorOpen(t)
    ensures First(sql, p, p) == Rest(sql, Config(Operator, p + 1, p, ""))
  {
    hide Rest;
    StandsAt(sql, p, t);
    assert sql[p] == t[0];
    assert SpecialOperator(sql, p) == 0 by {
      if |t| > 1 {
        assert sql[p + 1] == t[1];
        assert t[0..2] == sql[p..p + 2];
      } else if p + 1 < |sql| {
        assert sql[p..p + 2][1] == ' ';
      }
    }
  }

  lemma OperatorRestIs(sql: string, p: nat, t: string)
    requires Stands(sql, p, t) && |t| > 0 && OperatorStop(sql, p + 1) == p + |t|
    requires p + |t| == |sql| || HasSpecial(t) || t[|t| - 1] != '+' || t == "+"
    ensures Is(sql, p, t, Rest(sql, Config(Operator, p + 1, p, "")))
  {
    hide HasSpecial, IsOperator;
    var j := p + |t|;
    StandsAt(sql, p, t);
    assert sql[p + (|t| - 1)] == t[|t| - 1];
    if j < |sql| && !HasSpecial(t) {
      if t == "+" {
        assert TrimPlus(sql, p, j) == p;
        assert Singles(sql, p, j) == [Tok(Token(t, p))];
        assert OperatorRest(sql, p + 1, p) == Closed(Piece(sql, p, OperatorEnd(sql, p, j))
                                                     + Singles(sql, OperatorEnd(sql, p, j), j), j, j);
      } else {
        assert TrimPlus(sql, p, j) == j;
      }
    }
  }

  lemma StableStands(sql: string, p: nat, t: string)
    requires DollarFree(t) && Stands(sql, p, t) && (Stable(t) || (StableLast(t) && p + |t| == |sql|))
    ensures |t| > 0 && Is(sql, p, t, First(sql, p, p))
  {
    hide First, StringText, IdentifierText, NumberOpen, OperatorOpen, KeywordText, Is;
    if StringText(t) || IdentifierText(t) {
      QuotedHead(t);
      StringStands(sql, p, t);
    } else if SymbolText(t) {
      SymbolStands(sql, p, t);
    } else if KeywordText(t) {
      NotEmpty(t);
      KeywordStands(sql, p, t);
    } else if NumberOpen(t) {
      NotEmpty(t);
      NumberIsNoOperator(t);
      NumberStands(sql, p, t);
    } else {
      NotEmpty(t);
      OperatorStands(sql, p, t);
    }
  }

  lemma NotEmpty(t: string)
    requires KeywordText(t) || NumberOpen(t) || OperatorOpen(t)
    ensures |t| > 0
  {
  }

  lemma NumberIsNoOperator(t: string)
    requires NumberOpen(t)
    ensures !OperatorOpen(t)
  {
  }

  // ----- joining -----

  function Joined(texts: seq<string>): string {
    if texts == [] then "" else if |texts| == 1 then texts[0] else texts[0] + " " + Joined(texts[1..])
  }

  /** The tokens of a statement: all closed, but for the last one of the text. */
  predicate StatementTexts(texts: seq<string>) {
    && (forall k :: 0 <= k < |texts| ==> DollarFree(texts[k]))
    && (forall k :: 0 <= k < |texts| ==> if k == |texts| - 1 then StableLast(texts[k]) else Stable(texts[k]))
  }

  function Texts(tokens: seq<Token>): (texts: seq<string>)
    ensures |texts| == |tokens| && forall k :: 0 <= k < |texts| ==> texts[k] == tokens[k].text
  {
    seq(|tokens|, k requires 0 <= k < |tokens| => tokens[k].text)
  }

  /** The tokens of a run over sql from p, last word included. */
  ghost predicate LexesTo(sql: string, p: nat, texts: seq<string>)
    requires p <= |sql|
  {
    var s := Lex(sql, p, p);
    EndsQuietly(s.state) && OneStatement(s.items + LastWord(sql, s), texts)
  }

  /** The items are the tokens of one statement, with these texts. */
  predicate OneStatement(items: seq<Item>, texts: seq<string>) {
    (forall k :: 0 <= k < |items| ==> items[k].Tok?) && Finished(items) == [] && Texts(Current(items)) == texts
  }

  lemma OneMore(t: Token, items: seq<Item>, texts: seq<string>)
    requires OneStatement(items, texts)
    ensures OneStatement([Tok(t)] + items, [t.text] + texts)
  {
    hide Current, Finished;
    CurrentPrepend(t, items);
    assert Texts([t] + Current(items)) == [t.text] + Texts(Current(items));
  }

  lemma {:induction false} CurrentPrepend(t: Token, items: seq<Item>)
    requires forall k :: 0 <= k < |items| ==> items[k].Tok?
    ensures Current([Tok(t)] + items) == [t] + Current(items)
    ensures Finished([Tok(t)] + items) == []
  {
    var xs := [Tok(t)] + items;
    if items == [] {
      assert xs == [Tok(t)];
      assert xs[..0] == [];
      assert Current(xs) == Current([]) + [t];
    } else {
      var front := items[..|items| - 1];
      assert xs[..|xs| - 1] == [Tok(t)] + front;
      CurrentPrepend(t, front);
    }
  }

  lemma {:induction false} JoinedLexes(sql: string, p: nat, texts: seq<string>)
    requires p <= |sql| && sql[p..] == Joined(texts) && StatementTexts(texts)
    ensures LexesTo(sql, p, texts)
    decreases |texts|
  {
    hide First, Is, Stands, Stable, StableLast;
    if texts == [] {
      assert p == |sql|;
    } else {
      var t := texts[0];
      var e := p + |t|;
      JoinedStands(sql, p, texts);
      StableStands(sql, p, t);
      if |texts| == 1 {
        LastLexes(sql, p, t);
        assert texts == [t];
      } else {
        JoinedLexes(sql, e + 1, texts[1..]);
        NextLexes(sql, p, t, texts[1..]);
        assert texts == [t] + texts[1..];
      }
    }
  }

  lemma JoinedStands(sql: string, p: nat, texts: seq<string>)
    requires p <= |sql| && texts != [] && sql[p..] == Joined(texts)
    ensures Stands(sql, p, texts[0])
    ensures |texts| == 1 ==> p + |texts[0]| == |sql|
    ensures |texts| > 1 ==>
              p + |texts[0]| + 1 <= |sql| && sql[p + |texts[0]|] == ' ' && sql[p + |texts[0]| + 1..]
              == Joined(texts[1..])
  {
    var t := texts[0];
    var e := p + |t|;
    assert sql[p..][..|t|] == sql[p..e] == t;
    if |texts| > 1 {
      assert sql[p..][|t|] == ' ';
      assert sql[p..][|t| + 1..] == sql[e + 1..];
    }
  }

  lemma LastLexes(sql: string, p: nat, t: string)
    requires p + |t| == |sql| && |t| > 0 && Stands(sql, p, t) && Is(sql, p, t, First(sql, p, p))
    ensures LexesTo(sql, p, [t])
  {
    hide First, Lex, OneStatement;
    assert sql[p..|sql|] == t;
    LexIs(sql, p, t);
    NothingRead();
    OneMore(Token(t, p), [], []);
    assert [t] + [] == [t];
    var s := Lex(sql, p, p);
    assert s.items + LastWord(sql, s) == [Tok(Token(t, p))] + [];
  }

  lemma NothingRead()
    ensures OneStatement([], [])
  {
  }

  lemma NextLexes(sql: string, p: nat, t: string, texts: seq<string>)
    requires p + |t| + 1 <= |sql| && |t| > 0 && Is(sql, p, t, First(sql, p, p)) && sql[p + |t|] == ' '
    requires LexesTo(sql, p + |t| + 1, texts)
    ensures LexesTo(sql, p, [t] + texts)
  {
    hide First, Lex, OneStatement;
    var e := p + |t|;
    SpaceLexes(sql, e);
    LexIs(sql, p, t);
    var s, rest := Lex(sql, p, p), Lex(sql, e + 1, e + 1);
    var items := rest.items + LastWord(sql, rest);
    assert s == Scan([Tok(Token(t, p))] + rest.items, rest.state, rest.last);
    assert s.items + LastWord(sql, s) == [Tok(Token(t, p))] + items;
    OneMore(Token(t, p), items, texts);
  }

  lemma LexIs(sql: string, p: nat, t: string)
    requires p < |sql| && p + |t| <= |sql| && Is(sql, p, t, First(sql, p, p))
    ensures var x, s := First(sql, p, p), Lex(sql, p, p);
            if x.Closed? then s == Prepend([Tok(Token(t, p))], Lex(sql, p + |t|, p + |t|)) else
              s == Scan([], x.state, p)
    ensures p + |t| == |sql| ==> Lex(sql, p + |t|, p + |t|) == Scan([], Standard, |sql|)
  {
    hide First;
  }

  lemma SpaceLexes(sql: string, e: nat)
    requires e < |sql| && sql[e] == ' '
    ensures Lex(sql, e, e) == Lex(sql, e + 1, e + 1)
  {
    assert First(sql, e, e) == Closed([], e + 1, e + 1);
    assert [] + Lex(sql, e + 1, e + 1).items == Lex(sql, e + 1, e + 1).items;
  }

  // ----- re-lexing -----

  lemma {:induction false} CoversFaithful(sql: string, p: nat, items: seq<Item>, k: nat)
    requires p <= |sql| && Covers(sql, p, items) && k < |items|
    ensures Faithful(sql, items[k])
    decreases |items|
  {
    if k > 0 {
      CoversFaithful(sql, EndOf(items[0]), items[1..], k - 1);
      assert items[1..][k - 1] == items[k];
    }
  }

  predicate GoodToken(t: Token) {
    DollarFree(t.text) && Stable(t.text)
  }

  predicate GoodItems(items: seq<Item>) {
    forall k :: 0 <= k < |items| && items[k].Tok? ==> GoodToken(items[k].token)
  }

  predicate GoodTokens(ts: seq<Token>) {
    forall k :: 0 <= k < |ts| ==> GoodToken(ts[k])
  }

  lemma {:induction false} GoodStatements(items: seq<Item>)
    requires GoodItems(items)
    ensures GoodTokens(Current(items))
    ensures forall k :: 0 <= k < |Finished(items)| ==> GoodTokens(Finished(items)[k])
  {
    if items != [] { GoodStatements(items[..|items| - 1]); }
  }

  /** The statements of a run: the finished ones, and the tokens after the last ';'. */
  function Statements(sql: string): seq<seq<Token>> {
    var s := Lex(sql, 0, 0);
    var items := s.items + LastWord(sql, s);
    Finished(items) + [Current(items)]
  }

  /** Re-lexing is stable: a statement's token texts, joined by single spaces, lex to the same texts. */
  lemma RelexingStable(sql: string, k: nat)
    requires DollarFree(sql) && Lex(sql, 0, 0).state in {Standard, Numeric, Operator, Keyword}
    requires k < |Statements(sql)|
    ensures LexesTo(Joined(Texts(Statements(sql)[k])), 0, Texts(Statements(sql)[k]))
  {
    hide Lex, Stable, StableLast, LexesTo, Joined, Covers;
    var s := Lex(sql, 0, 0);
    var last := LastWord(sql, s);
    var items := s.items + last;
    LexStable(sql, 0);
    Coverage(sql);
    forall j | 0 <= j < |items| && items[j].Tok? ensures DollarFree(items[j].token.text) {
      CoversFaithful(sql, 0, items, j);
    }
    forall j | 0 <= j < |s.items| && s.items[j].Tok? ensures GoodToken(s.items[j].token) {
      assert items[j] == s.items[j];
    }
    GoodStatements(s.items);
    var ts := Statements(sql)[k];
    if last == [] {
      assert items == s.items;
      StatementGood(ts);
    } else {
      assert items[..|items| - 1] == s.items && items[|items| - 1] == last[0];
      assert sql[s.last..] == sql[s.last..|sql|];
      assert Finished(items) == Finished(s.items) && Current(items) == Current(s.items) + [last[0].token];
      if k < |Finished(items)| {
        StatementGood(ts);
      } else {
        StatementEnds(Current(s.items), last[0].token);
      }
    }
    JoinedLexes(Joined(Texts(ts)), 0, Texts(ts));
  }

  lemma StatementGood(ts: seq<Token>)
    requires GoodTokens(ts)
    ensures StatementTexts(Texts(ts))
  {
    forall k | 0 <= k < |ts| ensures DollarFree(Texts(ts)[k]) && Stable(Texts(ts)[k]) { assert GoodToken(ts[k]); }
  }

  lemma StatementEnds(ts: seq<Token>, t: Token)
    requires GoodTokens(ts) && DollarFree(t.text) && StableLast(t.text)
    ensures StatementTexts(Texts(ts + [t]))
  {
    forall k | 0 <= k < |ts| ensures DollarFree(Texts(ts + [t])[k])
        && Stable(Texts(ts + [t])[k]) { assert GoodToken(ts[k]); }
  }
}
