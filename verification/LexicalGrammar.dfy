/** The lexemes of the tokenizer over plain characters: which texts they are, where they end, and what is reported. */
module LexicalGrammar {
  import opened Options
  import opened Characters
  import opened Tokens
  import opened Tokenizer
  import opened Quoting

  /** The text t stands at i. */
  predicate At(sql: string, i: nat, t: string) {
    i + |t| <= |sql| && sql[i..i + |t|] == t
  }

  lemma CharAt(sql: string, i: nat, t: string, k: nat)
    requires At(sql, i, t) && k < |t|
    ensures sql[i + k] == t[k]
  {
    assert sql[i..i + |t|][k] == sql[i + k];
  }

  lemma AtConcat(sql: string, i: nat, a: string, b: string)
    ensures At(sql, i, a + b) <==> At(sql, i, a) && At(sql, i + |a|, b)
  {
    var t := a + b;
    if At(sql, i, t) {
      assert sql[i..i + |t|][..|a|] == sql[i..i + |a|] && sql[i..i + |t|][|a|..] == sql[i + |a|..i + |t|];
      assert t[..|a|] == a && t[|a|..] == b;
    }
    if At(sql, i, a) && At(sql, i + |a|, b) {
      assert sql[i..i + |t|] == sql[i..i + |a|] + sql[i + |a|..i + |t|];
    }
  }

  lemma AtOne(sql: string, i: nat, c: char)
    ensures At(sql, i, [c]) <==> i < |sql| && sql[i] == c
  {
  }

  lemma AtTwo(sql: string, i: nat, t: string)
    requires |t| == 2
    ensures At(sql, i, t) <==> i + 1 < |sql| && sql[i] == t[0] && sql[i + 1] == t[1]
  {
    if i + 1 < |sql| { assert sql[i..i + 2] == [sql[i], sql[i + 1]]; }
  }

  lemma AtThree(sql: string, i: nat, t: string)
    requires |t| == 3
    ensures At(sql, i, t) <==> i + 2 < |sql| && sql[i] == t[0] && sql[i + 1] == t[1] && sql[i + 2] == t[2]
  {
    if i + 2 < |sql| { assert sql[i..i + 3] == [sql[i], sql[i + 1], sql[i + 2]]; }
  }

  lemma AtLength(sql: string, i: nat, t: string)
    requires At(sql, i, t)
    ensures i + |t| <= |sql|
  {
  }

  // ----- characters -----

  predicate WhiteSpace(c: char) {
    c in " \t\n\r\U{0B}\U{0C}"
  }

  predicate Letter(c: char) {
    'a' <= c <= 'z' || 'A' <= c <= 'Z'
  }

  /** The characters of words: letters, digits, underscores, all beyond ASCII, and control characters. */
  predicate WordChar(c: char) {
    Letter(c) || '0' <= c <= '9' || c == '_' || c > '~' || (c < ' ' && !WhiteSpace(c))
  }

  predicate OperatorChar(c: char) {
    c in "!%&*+/:<=>@\\^`|~"
  }

  predicate SingleChar(c: char) {
    c in "(){}[],?-#"
  }

  predicate Figure(c: char) {
    c in "0123456789."
  }

  /** Every character starts lexemes of one kind. */
  lemma CharacterKinds(c: char)
    ensures WhiteSpace(c) || WordChar(c) || OperatorChar(c) || SingleChar(c) || c in ".'\";$"
    ensures WhiteSpace(c) ==> !WordChar(c) && !OperatorChar(c) && !SingleChar(c) && c !in ".'\";$"
    ensures WordChar(c) ==> !OperatorChar(c) && !SingleChar(c) && c !in ".'\";$"
    ensures OperatorChar(c) ==> !SingleChar(c) && c !in ".'\";$"
    ensures SingleChar(c) ==> c !in ".'\";$"
  {
  }

  /** The tokenizer's classes are these. */
  lemma Classes(c: char)
    ensures IsSpace(c) <==> WhiteSpace(c)
    ensures IsKeyword(c) <==> WordChar(c)
    ensures IsOperator(c) <==> OperatorChar(c)
    ensures IsSingleByteOperator(c) <==> SingleChar(c) || c == '$'
    ensures IsInitialNumber(c) <==> Figure(c)
    ensures !SingleChar(c) && c !in ".'\";$" ==> (IsPunctuation(c) <==> OperatorChar(c))
  {
    hide IsPunctuation, IsSpace, IsSingleByteOperator, IsControlFlow, IsInitialNumber;
    hide WhiteSpace, WordChar, OperatorChar, SingleChar, Figure;
    CharacterKinds(c);
    SimpleClasses(c);
    Punctuation(c);
  }

  lemma SimpleClasses(c: char)
    ensures IsSpace(c) <==> WhiteSpace(c)
    ensures IsSingleByteOperator(c) <==> SingleChar(c) || c == '$'
    ensures IsInitialNumber(c) <==> Figure(c)
    ensures IsControlFlow(c) <==> c == '-' || c in ".'\";"
    ensures c == '-' ==> SingleChar(c)
  {
  }

  lemma Punctuation(c: char)
    ensures OperatorChar(c) ==> IsPunctuation(c)
    ensures IsPunctuation(c) ==> OperatorChar(c) || SingleChar(c) || c in ".'\";$"
  {
  }

  // ----- blanks, semicolons and comments -----

  lemma BlankSkipped(sql: string, i: nat, last: nat)
    requires last <= i < |sql| && WhiteSpace(sql[i])
    ensures First(sql, i, last) == Closed([], i + 1, i + 1)
  {
    CharacterKinds(sql[i]);
    Classes(sql[i]);
  }

  lemma SemicolonReported(sql: string, i: nat, last: nat)
    requires last <= i < |sql| && sql[i] == ';'
    ensures First(sql, i, last) == Closed([Semi(i)], i + 1, i + 1)
  {
  }

  predicate LineBreak(c: char) {
    c == '\n' || c == '\r'
  }

  lemma {:induction false} LineEndIs(sql: string, i: nat, e: nat)
    requires i <= e <= |sql| && (forall k :: i <= k < e ==> !LineBreak(sql[k])) && (e < |sql| ==> LineBreak(sql[e]))
    ensures LineEnd(sql, i) == if e < |sql| then Some(e + 1) else None
    decreases e - i
  {
    if i < e { LineEndIs(sql, i + 1, e); }
  }

  /** From two dashes to the end of the line, or of the text. */
  lemma LineCommentSkipped(sql: string, i: nat, last: nat, e: nat)
    requires last <= i && i + 2 <= e <= |sql| && sql[i] == sql[i + 1] == '-'
    requires (forall k :: i + 2 <= k < e ==> !LineBreak(sql[k])) && (e < |sql| ==> LineBreak(sql[e]))
    ensures First(sql, i, last) == if e < |sql| then Closed([], e + 1, e + 1) else Open(SingleLineComment, last)
  {
    LineEndIs(sql, i + 2, e);
  }

  predicate BlockStops(sql: string, k: nat) {
    k + 1 < |sql| && sql[k] == '*' && sql[k + 1] == '/'
  }

  lemma {:induction false} BlockEndIs(sql: string, i: nat, e: nat)
    requires i <= e <= |sql| && (forall k :: i <= k < e ==> !BlockStops(sql, k)) && (e < |sql| ==> BlockStops(sql, e))
    ensures BlockEnd(sql, i) == if e < |sql| then Some(e + 2) else None
    decreases e - i
  {
    if i < e {
      assert !BlockStops(sql, i);
      BlockEndIs(sql, i + 1, e);
    }
  }

  /** From a slash and a star to the first star and slash. */
  lemma BlockCommentSkipped(sql: string, i: nat, last: nat, e: nat)
    requires last <= i && i + 2 <= e <= |sql| && sql[i] == '/' && sql[i + 1] == '*'
    requires (forall k :: i + 2 <= k < e ==> !BlockStops(sql, k)) && (e < |sql| ==> BlockStops(sql, e))
    ensures First(sql, i, last) == if e < |sql| then Closed([], e + 2, e + 2) else Open(MultiLineComment, last)
  {
    BlockEndIs(sql, i + 2, e);
  }

  // ----- words -----

  lemma {:induction false} WordStops(sql: string, i: nat, e: nat)
    requires i <= e <= |sql| && (forall k :: i <= k < e ==> WordChar(sql[k])) && (e < |sql| ==> !WordChar(sql[e]))
    ensures KeywordStop(sql, i) == e
    decreases e - i
  {
    if i < |sql| { Classes(sql[i]); }
    if i < e { WordStops(sql, i + 1, e); }
  }

  /** A word is reported whole, unless it starts like a number or like a string literal with a prefix. */
  lemma WordLexes(sql: string, i: nat, last: nat, e: nat)
    requires last <= i < e <= |sql| && (forall k :: i <= k < e ==> WordChar(sql[k]))
             && (e < |sql| ==> !WordChar(sql[e]))
    requires !Figure(sql[i]) && (sql[i] in "NnXxEeBb" && i + 1 < |sql| ==> sql[i + 1] != '\'')
    ensures First(sql, i, last) ==
            if e < |sql| then Closed([Tok(Token(sql[i..e], i))], e, e) else Open(State.Keyword, i)
  {
    hide IsPunctuation;
    CharacterKinds(sql[i]);
    Classes(sql[i]);
    NoSpecial(sql, i);
    WordStops(sql, i + 1, e);
  }

  /** The operators of two and three characters. */
  predicate LongOperator(t: string) {
    t == "::" || t == ":=" || t == "->" || t == "**" || t == "//" || t == "->>"
  }

  lemma NoSpecial(sql: string, i: nat)
    requires i < |sql| && sql[i] !in ":-*/"
    ensures SpecialOperator(sql, i) == 0
  {
    if i + 2 < |sql| { assert sql[i..i + 3][0] == sql[i]; }
    if i + 1 < |sql| { assert sql[i..i + 2][0] == sql[i]; }
  }

  // ----- operators -----

  /** The long operators stand for themselves, the longest one first. */
  lemma LongOperatorLexes(sql: string, i: nat, last: nat, t: string)
    requires last <= i && At(sql, i, t) && LongOperator(t) && (t == "->" ==> !At(sql, i, "->>"))
    ensures First(sql, i, last) == Closed([Tok(Token(t, last))], i + |t|, i + |t|)
  {
    hide IsPunctuation, Rest, DollarFirst;
    CharAt(sql, i, t, 0);
    CharAt(sql, i, t, 1);
    LongIsSpecial(sql, i, t);
  }

  /** The test for long operators, character by character. */
  lemma SpecialIs(sql: string, i: nat)
    requires i < |sql|
    ensures At(sql, i, "->>") <==> i + 2 < |sql| && sql[i..i + 3] == "->>"
    ensures forall t :: |t| == 2 ==> (At(sql, i, t) <==> i + 1 < |sql| && sql[i..i + 2] == t)
    ensures At(sql, i, "->>") ==> At(sql, i, "->")
  {
    AtTwo(sql, i, "->");
    AtThree(sql, i, "->>");
  }

  lemma LongIsSpecial(sql: string, i: nat, t: string)
    requires At(sql, i, t) && LongOperator(t) && (t == "->" ==> !At(sql, i, "->>"))
    ensures i < |sql| && SpecialOperator(sql, i) == |t|
  {
    AtLength(sql, i, t);
    SpecialIs(sql, i);
    hide At;
    if t != "->>" && t != "->" && At(sql, i, "->>") { TwoDiffer(sql, i, t); }
  }

  lemma TwoDiffer(sql: string, i: nat, t: string)
    requires |t| == 2 && At(sql, i, "->") && At(sql, i, t)
    ensures t == "->"
  {
  }

  predicate NoLongOperator(sql: string, i: nat) {
    && !At(sql, i, "::") && !At(sql, i, ":=") && !At(sql, i, "->") && !At(sql, i, "**") && !At(sql, i, "//")
  }

  lemma NotSpecial(sql: string, i: nat)
    requires i < |sql| && NoLongOperator(sql, i)
    ensures SpecialOperator(sql, i) == 0
  {
    SpecialIs(sql, i);
    hide At;
  }

  lemma SingleLexes(sql: string, i: nat, last: nat)
    requires last <= i < |sql| && SingleChar(sql[i]) && NoLongOperator(sql, i) && !At(sql, i, "--")
    ensures First(sql, i, last) == Closed([Tok(Token([sql[i]], last))], i + 1, i + 1)
  {
    hide IsPunctuation, Rest, DollarFirst, At;
    CharacterKinds(sql[i]);
    Classes(sql[i]);
    NotSpecial(sql, i);
    AtTwo(sql, i, "--");
  }

  lemma {:induction false} RunStops(sql: string, i: nat, e: nat)
    requires i <= e <= |sql| && (forall k :: i <= k < e ==> OperatorChar(sql[k]))
             && (e < |sql| ==> !OperatorChar(sql[e]))
    ensures OperatorStop(sql, i) == e
    decreases e - i
  {
    if i < |sql| { Classes(sql[i]); }
    if i < e { RunStops(sql, i + 1, e); }
  }

  lemma {:induction false} PlusTrimmed(sql: string, start: nat, mid: nat, end: nat)
    requires start <= mid <= end <= |sql| && (forall k :: mid <= k < end ==> sql[k] == '+')
             && (mid > start ==> sql[mid - 1] != '+')
    ensures TrimPlus(sql, start, end) == mid
    decreases end
  {
    if mid < end { PlusTrimmed(sql, start, mid, end - 1); }
  }

  predicate AllowsPlus(c: char) {
    c in "~!@#%^&|`?"
  }

  /** A run of operator characters is one operator, but for the plus signs at its end when nothing in it allows them:
      these are reported one by one. */
  lemma OperatorLexes(sql: string, i: nat, last: nat, mid: nat, e: nat)
    requires last <= i < e < |sql| && (forall k :: i <= k < e ==> OperatorChar(sql[k])) && !OperatorChar(sql[e])
    requires NoLongOperator(sql, i) && !At(sql, i, "/*")
    requires i <= mid <= e
             && if exists k :: i <= k < e && AllowsPlus(sql[k]) then mid == e
                else (forall k :: mid <= k < e ==> sql[k] == '+') && (mid > i ==> sql[mid - 1] != '+')
    ensures First(sql, i, last) ==
            Closed((if i < mid then [Tok(Token(sql[i..mid], i))] else [])
                     + seq(e - mid, k requires 0 <= k < e - mid => Tok(Token("+", mid + k))), e, e)
  {
    hide First, Singles, OperatorStop, OperatorEnd, NoLongOperator, At, OperatorChar;
    OperatorEntered(sql, i, last);
    RunStops(sql, i + 1, e);
    OperatorEndIs(sql, i, mid, e);
    PlusesAre(sql, mid, e);
  }

  lemma PlusesAre(sql: string, mid: nat, e: nat)
    requires mid <= e <= |sql| && forall k :: mid <= k < e ==> sql[k] == '+'
    ensures Singles(sql, mid, e) == seq(e - mid, k requires 0 <= k < e - mid => Tok(Token("+", mid + k)))
  {
    var pluses := seq(e - mid, k requires 0 <= k < e - mid => Tok(Token("+", mid + k)));
    forall k | 0 <= k < e - mid ensures Singles(sql, mid, e)[k] == pluses[k] {
      assert [sql[mid + k]] == "+";
    }
  }

  lemma OperatorEndIs(sql: string, i: nat, mid: nat, e: nat)
    requires i <= mid <= e <= |sql|
    requires if exists k :: i <= k < e && AllowsPlus(sql[k]) then mid == e
             else (forall k :: mid <= k < e ==> sql[k] == '+') && (mid > i ==> sql[mid - 1] != '+')
    ensures OperatorEnd(sql, i, e) == mid
  {
    forall c ensures IsOperatorSpecial(c) <==> AllowsPlus(c) { }
    SpecialIn(sql, i, e, exists k :: i <= k < e && AllowsPlus(sql[k]));
    if !exists k :: i <= k < e && AllowsPlus(sql[k]) { PlusTrimmed(sql, i, mid, e); }
  }

  lemma OperatorEntered(sql: string, i: nat, last: nat)
    requires last <= i < |sql| && OperatorChar(sql[i]) && NoLongOperator(sql, i) && !At(sql, i, "/*")
    ensures First(sql, i, last) == OperatorRest(sql, i + 1, i)
  {
    hide IsPunctuation, DollarFirst, OperatorRest, At;
    CharacterKinds(sql[i]);
    Classes(sql[i]);
    NotSpecial(sql, i);
    AtTwo(sql, i, "/*");
  }

  /** At the end of the text a run stays whole. */
  lemma OperatorLeft(sql: string, i: nat, last: nat)
    requires last <= i < |sql| && (forall k :: i <= k < |sql| ==> OperatorChar(sql[k]))
    requires NoLongOperator(sql, i) && !At(sql, i, "/*")
    ensures First(sql, i, last) == Open(State.Operator, i)
  {
    OperatorEntered(sql, i, last);
    RunStops(sql, i + 1, |sql|);
  }

  // ----- quotes -----

  /** A body with its quotes doubled. */
  function Doubled(body: string, q: char): string {
    if body == "" then "" else (if body[0] == q then [q, q] else [body[0]]) + Doubled(body[1..], q)
  }

  lemma {:induction false} BodyEnds(sql: string, q: char, i: nat, body: string)
    requires At(sql, i, Doubled(body, q))
    requires var e := i + |Doubled(body, q)|; e < |sql| ==> sql[e] == q && (e + 1 < |sql| ==> sql[e + 1] != q)
    ensures var e := i + |Doubled(body, q)|; QuoteEnd(sql, q, i) == if e < |sql| then Some(e + 1) else None
    decreases |body|
  {
    if body != "" {
      hide At;
      var head := if body[0] == q then [q, q] else [body[0]];
      AtConcat(sql, i, head, Doubled(body[1..], q));
      CharAt(sql, i, head, 0);
      if body[0] == q { CharAt(sql, i, head, 1); }
      AtLength(sql, i, head);
      BodyEnds(sql, q, i + |head|, body[1..]);
    }
  }

  /** A string literal, plain or with a prefix, is one token from its prefix to its closing quote. */
  lemma StringLexes(sql: string, i: nat, last: nat, prefix: string, body: string)
    requires last <= i && (prefix == "" || (|prefix| == 1 && prefix[0] in "NnXxEeBb"))
    requires var t := prefix + "'" + Doubled(body, '\'') + "'";
             At(sql, i, t) && (i + |t| < |sql| ==> sql[i + |t|] != '\'')
    ensures var t := prefix + "'" + Doubled(body, '\'') + "'";
            First(sql, i, last) == Closed([Tok(Token(t, i))], i + |t|, i + |t|)
  {
    hide IsPunctuation, DollarFirst, Doubled, At, SpecialOperator, QuoteEnd;
    var d := Doubled(body, '\'');
    var t, n := prefix + "'" + d + "'", |prefix|;
    AtConcat(sql, i, prefix + "'" + d, "'");
    AtConcat(sql, i, prefix + "'", d);
    AtConcat(sql, i, prefix, "'");
    AtOne(sql, i + n, '\'');
    AtOne(sql, i + n + 1 + |d|, '\'');
    BodyEnds(sql, '\'', i + n + 1, body);
    StringEntered(sql, i, last, prefix);
    assert sql[i..i + |t|] == t by { AtIs(sql, i, t); }
  }

  lemma AtIs(sql: string, i: nat, t: string)
    requires At(sql, i, t)
    ensures i + |t| <= |sql| && sql[i..i + |t|] == t
  {
  }

  lemma StringEntered(sql: string, i: nat, last: nat, prefix: string)
    requires last <= i && (prefix == "" || (|prefix| == 1 && prefix[0] in "NnXxEeBb"))
    requires At(sql, i, prefix) && i + |prefix| < |sql| && sql[i + |prefix|] == '\''
    ensures First(sql, i, last) == QuoteRest(sql, StringLiteral, '\'', i + |prefix| + 1, i)
  {
    hide IsPunctuation, DollarFirst, QuoteRest, SpecialOperator;
    if prefix != "" {
      CharAt(sql, i, prefix, 0);
      CharacterKinds(prefix[0]);
      Classes(prefix[0]);
      NoSpecial(sql, i);
    }
  }

  /** A text that ends inside a string literal. */
  lemma StringLeft(sql: string, i: nat, last: nat, prefix: string, body: string)
    requires last <= i && (prefix == "" || (|prefix| == 1 && prefix[0] in "NnXxEeBb"))
    requires i < |sql| && sql[i..] == prefix + "'" + Doubled(body, '\'')
    ensures First(sql, i, last) == Open(StringLiteral, i)
  {
    hide IsPunctuation, DollarFirst, Doubled, At, SpecialOperator, QuoteEnd;
    var d := Doubled(body, '\'');
    WholeRest(sql, i, prefix + "'" + d);
    AtConcat(sql, i, prefix + "'", d);
    AtConcat(sql, i, prefix, "'");
    AtOne(sql, i + |prefix|, '\'');
    BodyEnds(sql, '\'', i + |prefix| + 1, body);
    StringEntered(sql, i, last, prefix);
  }

  lemma WholeRest(sql: string, i: nat, t: string)
    requires i <= |sql| && sql[i..] == t
    ensures At(sql, i, t) && i + |t| == |sql|
  {
    assert sql[i..i + |t|] == sql[i..];
  }

  lemma IdentifierLexes(sql: string, i: nat, last: nat, body: string)
    requires last <= i
    requires var t := "\"" + Doubled(body, '"') + "\"";
             At(sql, i, t) && (i + |t| < |sql| ==> sql[i + |t|] != '"')
    ensures var t := "\"" + Doubled(body, '"') + "\"";
            First(sql, i, last) == Closed([Tok(Token(t, i))], i + |t|, i + |t|)
  {
    hide DollarFirst, Doubled, At, QuoteEnd;
    var d := Doubled(body, '"');
    var t := "\"" + d + "\"";
    AtConcat(sql, i, "\"" + d, "\"");
    AtConcat(sql, i, "\"", d);
    AtOne(sql, i, '"');
    AtOne(sql, i + 1 + |d|, '"');
    BodyEnds(sql, '"', i + 1, body);
    AtIs(sql, i, t);
  }

  lemma IdentifierLeft(sql: string, i: nat, last: nat, body: string)
    requires last <= i < |sql| && sql[i..] == "\"" + Doubled(body, '"')
    ensures First(sql, i, last) == Open(QuotedIdentifier, i)
  {
    hide DollarFirst, Doubled, At, QuoteEnd;
    var d := Doubled(body, '"');
    WholeRest(sql, i, "\"" + d);
    AtConcat(sql, i, "\"", d);
    AtOne(sql, i, '"');
    BodyEnds(sql, '"', i + 1, body);
  }

  // ----- numbers -----

  /** A part of a number: a figure, which is a digit or a dot; a figure after an underscore; or an exponent sign. */
  datatype Unit = Digit(c: char) | Spaced(c: char) | Exponent(e: char, sign: string)

  predicate UnitOk(u: Unit) {
    match u
    case Digit(c) => Figure(c)
    case Spaced(c) => Figure(c)
    case Exponent(e, sign) => (e == 'e' || e == 'E') && (sign == "" || sign == "+" || sign == "-")
  }

  function UnitText(u: Unit): string {
    match u case Digit(c) => [c] case Spaced(c) => ['_', c] case Exponent(e, sign) => [e] + sign
  }

  function UnitsText(us: seq<Unit>): string {
    if us == [] then "" else UnitsText(us[..|us| - 1]) + UnitText(us[|us| - 1])
  }

  predicate Bare(u: Unit) {
    u.Exponent? && u.sign == ""
  }

  /** A number starts with a figure, and no exponent follows one without a sign. */
  predicate IsNumber(us: seq<Unit>) {
    && us != [] && us[0].Digit? && (forall k :: 0 <= k < |us| ==> UnitOk(us[k]))
    && (forall k :: 0 < k < |us| && us[k].Exponent? ==> !Bare(us[k - 1]))
  }

  /** No further unit can be read at j. */
  predicate Ends(sql: string, j: nat, us: seq<Unit>)
    requires j < |sql| && us != []
  {
    var c, after := sql[j], us[|us| - 1];
    && !Figure(c)
    && !(c == '_' && j + 1 < |sql| && Figure(sql[j + 1]))
    && !((c == 'e' || c == 'E') && !Bare(after))
    && !((c == '+' || c == '-') && Bare(after))
  }

  /** The number without exponent signs at its end. */
  function Cut(us: seq<Unit>): seq<Unit> {
    if us != [] && us[|us| - 1].Exponent? then Cut(us[..|us| - 1]) else us
  }

  lemma {:induction false} UnitsAt(sql: string, i: nat, us: seq<Unit>)
    requires us != [] && At(sql, i, UnitsText(us))
    ensures At(sql, i, UnitsText(us[..|us| - 1]))
    ensures At(sql, i + |UnitsText(us[..|us| - 1])|, UnitText(us[|us| - 1]))
  {
    TextSplits(us);
    hide At, UnitsText, UnitText;
    var a, b := UnitsText(us[..|us| - 1]), UnitText(us[|us| - 1]);
    assert At(sql, i, a + b);
    AtConcat(sql, i, a, b);
  }

  lemma TextSplits(us: seq<Unit>)
    requires us != []
    ensures UnitsText(us) == UnitsText(us[..|us| - 1]) + UnitText(us[|us| - 1])
  {
  }

  /** The character before a place in a number. */
  lemma {:induction false} BeforeIs(sql: string, i: nat, us: seq<Unit>)
    requires IsNumber(us) && At(sql, i, UnitsText(us))
    ensures var j := i + |UnitsText(us)|;
            && i < j <= |sql|
            && (IsScientific(sql[j - 1]) <==> Bare(us[|us| - 1]))
            && (IsInitialNumber(sql[j - 1]) <==> !us[|us| - 1].Exponent?)
  {
    hide At, UnitsText, IsInitialNumber, IsScientific;
    var n := |us| - 1;
    var a, u := i + |UnitsText(us[..n])|, us[n];
    assert UnitOk(u);
    UnitsAt(sql, i, us);
    TextSplits(us);
    CharAt(sql, a, UnitText(u), |UnitText(u)| - 1);
    AtLength(sql, a, UnitText(u));
    LastOf(u);
  }

  lemma LastOf(u: Unit)
    requires UnitOk(u)
    ensures |UnitText(u)| > 0
    ensures IsScientific(UnitText(u)[|UnitText(u)| - 1]) <==> Bare(u)
    ensures IsInitialNumber(UnitText(u)[|UnitText(u)| - 1]) <==> !u.Exponent?
  {
  }

  lemma NumberFront(us: seq<Unit>)
    requires IsNumber(us) && |us| > 1
    ensures IsNumber(us[..|us| - 1])
  {
  }

  lemma ContinuesOver(sql: string, a: nat, j: nat)
    requires 0 < a <= j <= |sql| && forall k :: a <= k < j ==> NumberContinues(sql, k)
    ensures NumberStop(sql, a) == NumberStop(sql, j)
    decreases j - a
  {
    if a < j { ContinuesOver(sql, a + 1, j); }
  }

  lemma {:induction false} UnitsContinue(sql: string, i: nat, us: seq<Unit>)
    requires IsNumber(us) && At(sql, i, UnitsText(us))
    ensures i + 1 <= i + |UnitsText(us)| <= |sql|
    ensures NumberStop(sql, i + 1) == NumberStop(sql, i + |UnitsText(us)|)
    decreases |us|
  {
    hide NumberStop, NumberContinues, At, IsNumber, UnitOk, UnitsText;
    NotEmptyUnits(us);
    TextSplits(us);
    var n := |us| - 1;
    var front, u := us[..n], us[n];
    UnitsAt(sql, i, us);
    if n == 0 {
      SingleUnit(us);
      AtLength(sql, i, UnitsText(us));
    } else {
      NumberFront(us);
      UnitsContinue(sql, i, front);
      BeforeIs(sql, i, front);
      var a := i + |UnitsText(front)|;
      LastUnit(us);
      UnitContinues(sql, a, u, front[n - 1]);
      AtLength(sql, a, UnitText(u));
      ContinuesOver(sql, a, a + |UnitText(u)|);
    }
  }

  lemma SingleUnit(us: seq<Unit>)
    requires IsNumber(us) && |us| == 1
    ensures |UnitsText(us)| == 1
  {
    assert us[..0] == [];
  }

  lemma LastUnit(us: seq<Unit>)
    requires IsNumber(us) && |us| > 1
    ensures UnitOk(us[|us| - 1]) && (us[|us| - 1].Exponent? ==> !Bare(us[|us| - 2]))
  {
  }

  lemma UnitContinues(sql: string, a: nat, u: Unit, before: Unit)
    requires 0 < a && UnitOk(u) && At(sql, a, UnitText(u)) && (u.Exponent? ==> !Bare(before))
    requires IsScientific(sql[a - 1]) <==> Bare(before)
    ensures forall k :: a <= k < a + |UnitText(u)| ==> NumberContinues(sql, k)
  {
    var t := UnitText(u);
    CharAt(sql, a, t, 0);
    if |t| > 1 { CharAt(sql, a, t, 1); }
  }

  lemma {:induction false} CutBack(sql: string, i: nat, us: seq<Unit>)
    requires IsNumber(us) && At(sql, i, UnitsText(us)) && IsInitialNumber(sql[i])
    ensures IsNumber(Cut(us)) && At(sql, i, UnitsText(Cut(us))) && |Cut(us)| > 0
    ensures i < i + |UnitsText(us)| <= |sql|
    ensures BackTo(sql, i, i + |UnitsText(us)|) == i + |UnitsText(Cut(us))|
    decreases |us|
  {
    hide BackTo, At, IsNumber, UnitOk, UnitsText;
    NotEmptyUnits(us);
    var n := |us| - 1;
    BeforeIs(sql, i, us);
    UnitsAt(sql, i, us);
    if us[n].Exponent? {
      MoreThanOne(us);
      NumberFront(us);
      LastUnit(us);
      CutBack(sql, i, us[..n]);
      TextGrows(us);
      BackOver(sql, i, i + |UnitsText(us[..n])|, us[n]);
    } else {
      BackHere(sql, i, i + |UnitsText(us)|);
    }
  }

  lemma MoreThanOne(us: seq<Unit>)
    requires IsNumber(us) && us[|us| - 1].Exponent?
    ensures |us| > 1
  {
  }

  lemma TextGrows(us: seq<Unit>)
    requires us != []
    ensures |UnitsText(us)| == |UnitsText(us[..|us| - 1])| + |UnitText(us[|us| - 1])|
  {
  }

  lemma BackHere(sql: string, i: nat, j: nat)
    requires i < j <= |sql| && IsInitialNumber(sql[i]) && IsInitialNumber(sql[j - 1])
    ensures BackTo(sql, i, j) == j
  {
  }

  lemma BackOver(sql: string, i: nat, a: nat, u: Unit)
    requires i < a && At(sql, a, UnitText(u)) && u.Exponent? && UnitOk(u) && IsInitialNumber(sql[i])
    ensures BackTo(sql, i, a + |UnitText(u)|) == BackTo(sql, i, a)
  {
    var t := UnitText(u);
    CharAt(sql, a, t, 0);
    if |t| > 1 {
      CharAt(sql, a, t, 1);
      assert BackTo(sql, i, a + 2) == BackTo(sql, i, a + 1);
    }
  }

  /** A number that cannot be read on is one token, but for exponent signs at its end, which are read again; a number
      that reaches the end of the text is its last word. */
  lemma NumberLexes(sql: string, i: nat, last: nat, us: seq<Unit>)
    requires last <= i && IsNumber(us) && At(sql, i, UnitsText(us))
    requires var j := i + |UnitsText(us)|; j < |sql| ==> Ends(sql, j, us)
    ensures IsNumber(Cut(us)) && At(sql, i, UnitsText(Cut(us)))
    ensures var t := UnitsText(Cut(us));
            First(sql, i, last) ==
            if i + |UnitsText(us)| < |sql| then Closed([Tok(Token(t, i))], i + |t|, i + |t|) else Open(Numeric, i)
  {
    hide IsPunctuation, DollarFirst, NumberStop, BackTo, UnitsText, At, IsNumber, First, Ends, Cut;
    NotEmptyUnits(us);
    NumberStarts(sql, i, us);
    CharacterKinds(sql[i]);
    Classes(sql[i]);
    NumberEntered(sql, i, last);
    UnitsContinue(sql, i, us);
    CutBack(sql, i, us);
    var j := i + |UnitsText(us)|;
    BeforeIs(sql, i, us);
    if j < |sql| {
      NumberEnds(sql, j, us);
      AtIs(sql, i, UnitsText(Cut(us)));
    } else {
      StopsAtEnd(sql);
    }
  }

  lemma StopsAtEnd(sql: string)
    requires sql != ""
    ensures NumberStop(sql, |sql|) == |sql|
  {
  }

  lemma NumberEnds(sql: string, j: nat, us: seq<Unit>)
    requires 0 < j < |sql| && us != [] && Ends(sql, j, us) && (IsScientific(sql[j - 1]) <==> Bare(us[|us| - 1]))
    ensures NumberStop(sql, j) == j
  {
  }

  lemma {:induction false} NumberStarts(sql: string, i: nat, us: seq<Unit>)
    requires IsNumber(us) && At(sql, i, UnitsText(us))
    ensures i < |sql| && Figure(sql[i])
    decreases |us|
  {
    UnitsAt(sql, i, us);
    if |us| == 1 {
      assert us[..0] == [] && UnitOk(us[0]);
      CharAt(sql, i, UnitText(us[0]), 0);
    } else {
      NumberFront(us);
      NumberStarts(sql, i, us[..|us| - 1]);
    }
  }

  lemma NumberEntered(sql: string, i: nat, last: nat)
    requires last <= i < |sql| && Figure(sql[i])
    ensures First(sql, i, last) == NumberRest(sql, i + 1, i)
  {
    hide IsPunctuation, DollarFirst, NumberRest;
    CharacterKinds(sql[i]);
    Classes(sql[i]);
    NoSpecial(sql, i);
  }

  /** Wherever a figure starts a lexeme there is such a number. */
  lemma NumberFound(sql: string, i: nat) returns (us: seq<Unit>)
    requires i < |sql| && Figure(sql[i])
    ensures IsNumber(us) && At(sql, i, UnitsText(us))
    ensures var j := i + |UnitsText(us)|; j < |sql| ==> Ends(sql, j, us)
  {
    hide At, UnitsText, IsNumber;
    us := [Digit(sql[i])];
    FirstUnit(sql, i);
    while i + |UnitsText(us)| < |sql| && !Ends(sql, i + |UnitsText(us)|, us)
      invariant us != [] && IsNumber(us) && At(sql, i, UnitsText(us))
      decreases |sql| - |UnitsText(us)|
    {
      us := NextUnit(sql, i, us);
      NotEmptyUnits(us);
    }
  }

  lemma NextUnit(sql: string, i: nat, us: seq<Unit>) returns (more: seq<Unit>)
    requires us != [] && IsNumber(us) && At(sql, i, UnitsText(us))
    requires var j := i + |UnitsText(us)|; j < |sql| && !Ends(sql, j, us)
    ensures IsNumber(more) && At(sql, i, UnitsText(more)) && |UnitsText(more)| > |UnitsText(us)|
  {
    hide At, UnitsText, IsNumber;
    var j := i + |UnitsText(us)|;
    var c := sql[j];
    if c == '+' || c == '-' {
      more := Signed(sql, i, us, c);
    } else {
      var u := if Figure(c) then Digit(c) else if c == '_' then Spaced(sql[j + 1]) else Exponent(c, "");
      UnitHere(sql, j, u);
      OneMoreUnit(sql, i, us, u);
      more := us + [u];
    }
  }

  lemma NotEmptyUnits(us: seq<Unit>)
    requires IsNumber(us)
    ensures us != []
  {
  }

  lemma FirstUnit(sql: string, i: nat)
    requires i < |sql| && Figure(sql[i])
    ensures IsNumber([Digit(sql[i])]) && At(sql, i, UnitsText([Digit(sql[i])]))
    ensures |UnitsText([Digit(sql[i])])| == 1
  {
    var us := [Digit(sql[i])];
    assert us[..0] == [] && UnitsText(us) == [sql[i]];
    AtOne(sql, i, sql[i]);
  }

  lemma UnitHere(sql: string, j: nat, u: Unit)
    requires j < |sql|
    requires match u
             case Digit(c) => sql[j] == c
             case Spaced(c) => j + 1 < |sql| && sql[j] == '_' && sql[j + 1] == c
             case Exponent(e, sign) => sql[j] == e && sign == ""
    ensures At(sql, j, UnitText(u))
  {
    assert sql[j..j + 1] == [sql[j]];
    if u.Spaced? { assert sql[j..j + 2] == [sql[j], sql[j + 1]]; }
  }

  lemma {:induction false} OneMoreUnit(sql: string, i: nat, us: seq<Unit>, u: Unit)
    requires IsNumber(us) && At(sql, i, UnitsText(us)) && UnitOk(u) && (u.Exponent? ==> !Bare(us[|us| - 1]))
    requires At(sql, i + |UnitsText(us)|, UnitText(u))
    ensures IsNumber(us + [u]) && At(sql, i, UnitsText(us + [u])) && |UnitsText(us + [u])| > |UnitsText(us)|
  {
    hide At, UnitsText, IsNumber;
    var all := us + [u];
    assert all[..|us|] == us;
    StillNumber(us, u);
    TextSplits(all);
    LastOf(u);
    AtConcat(sql, i, UnitsText(us), UnitText(u));
  }

  lemma StillNumber(us: seq<Unit>, u: Unit)
    requires IsNumber(us) && UnitOk(u) && (u.Exponent? ==> !Bare(us[|us| - 1]))
    ensures IsNumber(us + [u])
  {
  }

  /** The sign after an exponent. */
  lemma Signed(sql: string, i: nat, us: seq<Unit>, c: char) returns (more: seq<Unit>)
    requires IsNumber(us) && At(sql, i, UnitsText(us)) && Bare(us[|us| - 1]) && (c == '+' || c == '-')
    requires var j := i + |UnitsText(us)|; j < |sql| && sql[j] == c
    ensures IsNumber(more) && At(sql, i, UnitsText(more)) && |UnitsText(more)| > |UnitsText(us)|
  {
    hide At, UnitsText, IsNumber;
    NotEmptyUnits(us);
    var n := |us| - 1;
    var u, front := us[n], us[..n];
    var v := Exponent(u.e, [c]);
    UnitsAt(sql, i, us);
    TextSplits(us);
    MoreThanOne(us);
    NumberFront(us);
    LastUnit(us);
    var a := i + |UnitsText(front)|;
    CharAt(sql, a, UnitText(u), 0);
    AtTwo(sql, a, UnitText(v));
    OneMoreUnit(sql, i, front, v);
    more := front + [v];
    assert more[..n] == front;
    TextSplits(more);
  }

  // ----- dollar signs -----

  predicate TagChar(c: char) {
    Letter(c) || '0' <= c <= '9' || c == '_' || c >= '\U{80}'
  }

  /** Before a digit, a dollar sign is reported for a parameter; at the end of the text it is left over. */
  lemma DollarParameter(sql: string, i: nat, last: nat)
    requires last <= i < |sql| && sql[i] == '$'
    ensures i + 1 == |sql| ==> First(sql, i, last) == Closed([], i + 1, last)
    ensures i + 1 < |sql| && '0' <= sql[i + 1] <= '9' ==>
              First(sql, i, last) == Closed([Tok(Token("$", i))], i + 1, last)
  {
  }

  lemma {:induction false} NoTagDollar(sql: string, i: nat, e: nat)
    requires i <= e <= |sql| && (forall k :: i <= k < e ==> TagChar(sql[k]))
             && (e < |sql| ==> !TagChar(sql[e]) && sql[e] != '$')
    ensures TagDollar(sql, i) == None
    decreases e - i
  {
    if i < e { NoTagDollar(sql, i + 1, e); }
  }

  /** A dollar sign whose tag is not closed by another one is a token of its own. */
  lemma DollarAlone(sql: string, i: nat, last: nat, e: nat)
    requires last <= i < |sql| && sql[i] == '$' && i + 1 < |sql| && !('0' <= sql[i + 1] <= '9') && i + 1 <= e <= |sql|
    requires (forall k :: i + 1 <= k < e ==> TagChar(sql[k])) && (e < |sql| ==> !TagChar(sql[e]) && sql[e] != '$')
    ensures First(sql, i, last) == Closed([Tok(Token("$", i))], i + 1, i)
  {
    NoTagDollar(sql, i + 1, e);
  }

  lemma {:induction false} DoublingIs(s: string, c: char)
    ensures ReplaceAll(s, [c], [c, c]) == Doubled(s, c)
  {
    ReplaceHead(s, c);
    if s != "" { DoublingIs(s[1..], c); }
  }

  /** A dollar-quoted text up to its first closing marker is reported as a plain string literal. */
  lemma DollarQuoteLexes(sql: string, i: nat, tag: string, k: nat)
    requires (forall m :: 0 <= m < |tag| ==> TagChar(tag[m])) && (tag != "" ==> !('0' <= tag[0] <= '9'))
    requires At(sql, i, "$" + tag + "$") && i + |tag| + 2 <= k && At(sql, k, "$" + tag + "$")
    requires forall j :: i + |tag| + 2 <= j < k ==> !At(sql, j, "$" + tag + "$")
    ensures First(sql, i, i) ==
            Closed([Tok(Token("'" + Doubled(sql[i + |tag| + 2..k], '\'') + "'", |tag| + 2))],
                   k + |tag| + 2, k + |tag| + 2)
  {
    hide First, DollarClose, DollarRest, Requoted, ReplaceAll, Doubled;
    MarkersAre(sql, tag);
    forall j: nat | i + |tag| + 2 <= j < k ensures !MarkerAt(sql, tag, j) { assert !At(sql, j, "$" + tag + "$"); }
    DollarEntered(sql, i, tag);
    DollarCloseIs(sql, tag, i + |tag| + 2, k);
    DollarRestIs(sql, i + |tag| + 2, i, tag, k);
    RequotedIs(sql, i, tag, k);
    DoublingIs(sql[i + |tag| + 2..k], '\'');
  }

  lemma {:induction false} NeverCloses(sql: string, tag: string, i: nat)
    requires IsTag(tag) && i <= |sql| && forall j: nat :: i <= j ==> !MarkerAt(sql, tag, j)
    ensures DollarClose(sql, tag, i) == None
    decreases |sql| - i
  {
    hide ClosesDollar, MarkerAt;
    if i < |sql| {
      Quoting.ClosesAtMarker(sql, tag, i);
      NeverCloses(sql, tag, i + 1);
    }
  }

  /** Without a closing marker the rest of the text is dollar-quoted. */
  lemma DollarQuoteLeft(sql: string, i: nat, tag: string)
    requires (forall m :: 0 <= m < |tag| ==> TagChar(tag[m])) && (tag != "" ==> !('0' <= tag[0] <= '9'))
    requires At(sql, i, "$" + tag + "$") && forall j: nat :: i + |tag| + 2 <= j ==> !At(sql, j, "$" + tag + "$")
    ensures First(sql, i, i) == Open(DollarQuotedString, i)
  {
    hide First, DollarClose, At, MarkerAt;
    AtLength(sql, i, "$" + tag + "$");
    MarkersAre(sql, tag);
    DollarEntered(sql, i, tag);
    NeverCloses(sql, tag, i + |tag| + 2);
  }

  lemma MarkersAre(sql: string, tag: string)
    ensures forall j: nat :: MarkerAt(sql, tag, j) <==> At(sql, j, "$" + tag + "$")
  {
    assert |"$" + tag + "$"| == |tag| + 2;
  }

  // ----- statements and the last word -----

  function TokensOf(items: seq<Item>): seq<Token> {
    if items == [] then []
    else (if items[0].Tok? then [items[0].token] else []) + TokensOf(items[1..])
  }

  lemma {:induction false} TokensOfBack(items: seq<Item>)
    requires items != []
    ensures TokensOf(items) == TokensOf(items[..|items| - 1])
                               + if items[|items| - 1].Tok? then [items[|items| - 1].token] else []
    decreases |items|
  {
    if |items| > 1 {
      TokensOfBack(items[1..]);
      assert items[1..][..|items| - 2] == items[..|items| - 1][1..];
    }
  }

  /** Without a semicolon all tokens belong to the current statement. */
  lemma {:induction false} OneStatement(items: seq<Item>)
    requires forall k :: 0 <= k < |items| ==> items[k].Tok?
    ensures Finished(items) == [] && Current(items) == TokensOf(items)
    decreases |items|
  {
    if items != [] {
      TokensOfBack(items);
      OneStatement(items[..|items| - 1]);
    }
  }

  /** The tokens before the first semicolon are the first finished statement; the rest is split on its own. */
  lemma {:induction false} FirstStatement(items: seq<Item>, k: nat)
    requires k < |items| && items[k].Semi? && forall j :: 0 <= j < k ==> items[j].Tok?
    ensures Finished(items) == [TokensOf(items[..k])] + Finished(items[k + 1..])
    ensures Current(items) == Current(items[k + 1..])
    decreases |items|
  {
    var front := items[..|items| - 1];
    if k == |items| - 1 {
      OneStatement(front);
    } else {
      FirstStatement(front, k);
      assert front[..k] == items[..k] && front[k + 1..] == items[k + 1..][..|items| - k - 2];
    }
  }

  /** A text that ends inside a string literal: its last word has lost the first character. */
  lemma UnfinishedString(sql: string, prefix: string, body: string)
    requires prefix == "" || (|prefix| == 1 && prefix[0] in "NnXxEeBb")
    requires sql == prefix + "'" + Doubled(body, '\'')
    ensures Lex(sql, 0, 0) == Scan([], StringLiteral, 0)
    ensures LastWord(sql, Lex(sql, 0, 0)) == if |sql| == 1 then [] else [Tok(Token(sql[1..], 1))]
  {
    hide First, Doubled;
    assert sql[0..] == sql;
    StringLeft(sql, 0, 0, prefix, body);
    assert sql[1..|sql|] == sql[1..];
  }

  // ----- what literals stand for -----

  /** The kinds of string literals by their prefixes. */
  predicate HasKind(prefix: string, kind: StringKind) {
    || (prefix == "" && kind == StandardString)
    || ((prefix == "N" || prefix == "n") && kind == NationalString)
    || ((prefix == "X" || prefix == "x") && kind == HexadecimalString)
    || ((prefix == "B" || prefix == "b") && kind == BitString)
    || ((prefix == "E" || prefix == "e") && kind == EscapeString)
  }

  /** A string literal stands for its body, with the kind of its prefix. */
  lemma StringLiteralValue(prefix: string, kind: StringKind, body: string)
    requires HasKind(prefix, kind)
    ensures MatchStringLiteral(prefix + "'" + Doubled(body, '\'') + "'") == Some((kind, body))
  {
    hide ReplaceAll, Doubled;
    var d := Doubled(body, '\'');
    var text := prefix + "'" + d + "'";
    DoublingIs(body, '\'');
    HalvingUndoesDoubling(body, '\'');
    assert text[|prefix| + 1..|text| - 1] == d;
    assert text[|prefix|] == '\'' && text[|text| - 1] == '\'';
    if prefix != "" { assert text[0] == prefix[0]; }
  }

  /** Only texts between quotes, behind one of these prefixes or none, are string literals. */
  lemma StringLiteralsOnly(text: string)
    requires MatchStringLiteral(text).Some?
    ensures exists prefix: string, inner: string ::
              HasKind(prefix, MatchStringLiteral(text).value.0) && text == prefix + "'" + inner + "'"
  {
    hide ReplaceAll;
    var (kind, n) := SpecialStringInfo(text);
    var prefix, inner := text[..n - 1], text[n..|text| - 1];
    assert text == prefix + "'" + inner + "'";
    if n == 2 { assert prefix == [text[0]]; }
    assert HasKind(prefix, kind);
  }

  predicate OfFunction(s: Suggestion) {
    s == ScalarFunctionName || s == TableFunctionName
  }

  /** An unquoted word, in at most one keyword category, is an identifier unless it is reserved, a column name where a
      function is named, or a type or function name elsewhere; it stands for itself, or for itself in lower case. */
  lemma WordIsIdentifier(categories: Categories, s: Suggestion, preserveCase: bool, text: string, c: Category)
    requires text != "" && WordChar(text[0]) && forall d :: categories(text, d) ==> d == c
    ensures MatchIdentifier(categories, s, preserveCase, text) ==
            if categories(text, c)
               && (c == Reserved || (c == ColName && OfFunction(s)) || (c == TypeFunc && !OfFunction(s)))
            then None else Some(if preserveCase then text else Lower(text))
  {
    hide WordChar, IsPunctuation;
    Classes(text[0]);
    CharacterKinds(text[0]);
    var name := if preserveCase then text else Lower(text);
    assert name[0] != '\'' by { NoQuoteLowered(text[0]); }
  }

  /** With more than one category: a word that is also unreserved, or both a column name and a type or function name, is
      an identifier everywhere but as the name of a type. */
  lemma OverriddenWord(categories: Categories, s: Suggestion, preserveCase: bool, text: string)
    requires text != "" && WordChar(text[0]) && s != TypeName
    requires categories(text, Unreserved) || (categories(text, ColName) && categories(text, TypeFunc))
    ensures MatchIdentifier(categories, s, preserveCase, text).Some?
  {
    hide WordChar, IsPunctuation;
    Classes(text[0]);
  }

  /** The name of a type is not reserved and no type or function name. */
  lemma TypeWord(categories: Categories, preserveCase: bool, text: string)
    requires text != "" && WordChar(text[0])
    ensures MatchIdentifier(categories, TypeName, preserveCase, text).Some?
            <==> !categories(text, Reserved) && !categories(text, TypeFunc)
  {
    hide WordChar, IsPunctuation;
    Classes(text[0]);
  }

  lemma NoQuoteLowered(c: char)
    requires WordChar(c)
    ensures c != '\'' && c != '"' && LowerChar(c) != '\''
  {
  }

  /** Only table and file names may be string literals, which they then stand for. */
  lemma LiteralIsName(categories: Categories, s: Suggestion, body: string)
    requires forall d, t :: !categories(t, d)
    ensures MatchIdentifier(categories, s, true, "'" + Doubled(body, '\'') + "'") ==
            if s == TableName || s == FileName then Some(body) else None
  {
    hide ReplaceAll, Doubled;
    var d := Doubled(body, '\'');
    var text := "'" + d + "'";
    DoublingIs(body, '\'');
    HalvingUndoesDoubling(body, '\'');
    assert text[0] == '\'' && text[|text| - 1] == '\'' && text[1..|text| - 1] == d;
    assert !IsKeyword('\'');
  }
}
