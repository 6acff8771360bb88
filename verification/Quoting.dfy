/** Quoted texts: what the tokenizer keeps of them and what the literal and identifier matchers recover. */
module Quoting {
  import opened Options
  import opened Characters
  import opened Tokenizer
  import opened Tokens

  // ----- replacing -----

  lemma ReplaceHead(s: string, c: char)
    ensures |s| > 0 ==>
              ReplaceAll(s, [c], [c, c]) == (if s[0] == c then [c, c] else [s[0]]) + ReplaceAll(s[1..], [c], [c, c])
    ensures s == "" ==> ReplaceAll(s, [c], [c, c]) == ""
  {
    if |s| > 0 {
      assert s[..1] == [s[0]];
    }
  }

  /** Doubling every quote and then halving every pair gives the text back. */
  lemma {:induction false} HalvingUndoesDoubling(s: string, c: char)
    ensures ReplaceAll(ReplaceAll(s, [c], [c, c]), [c, c], [c]) == s
  {
    ReplaceHead(s, c);
    if |s| > 0 {
      HalvingUndoesDoubling(s[1..], c);
      var d, rest := ReplaceAll(s, [c], [c, c]), ReplaceAll(s[1..], [c], [c, c]);
      if s[0] == c {
        assert d[..2] == [c, c] && d[2..] == rest;
      } else {
        assert d[0] == s[0] && d[1..] == rest;
        assert |d| >= 2 ==> d[..2][0] != c;
        assert |d| < 2 ==> rest == "";
      }
      assert s == [s[0]] + s[1..];
    }
  }

  lemma {:induction false} HalvingShrinks(s: string, c: char)
    ensures |ReplaceAll(s, [c, c], [c])| <= |s|
    decreases |s|
  {
    if |s| >= 2 {
      if s[..2] == [c, c] { HalvingShrinks(s[2..], c); } else { HalvingShrinks(s[1..], c); }
    }
  }

  // ----- string literals -----

  datatype StringKind = StandardString | NationalString | HexadecimalString | BitString | EscapeString

  /** `GetSpecialStringInfo`: the kind and the length of the prefix with the opening quote. */
  function SpecialStringInfo(text: string): (StringKind, nat) {
    if text == "" then (StandardString, 0)
    else if text[0] != '\'' && |text| > 1 && text[1] == '\'' then
      var c := text[0];
      if c in "Nn" then (NationalString, 2) else if c in "Xx" then (HexadecimalString, 2)
      else if c in "Bb" then (BitString, 2) else if c in "Ee" then (EscapeString, 2) else (StandardString, 1)
    else (StandardString, 1)
  }

  /** `StringLiteralMatcher::MatchParseResult` on one token: the literal's kind and value. */
  function MatchStringLiteral(text: string): Option<(StringKind, string)> {
    var (kind, prefix) := SpecialStringInfo(text);
    if prefix > 0 && |text| >= prefix + 1 && text[prefix - 1] == '\'' && text[|text| - 1] == '\'' then
      Some((kind, ReplaceAll(text[prefix..|text| - 1], "''", "'")))
    else None
  }

  /** A dollar quote: tag characters that do not start with a digit. */
  predicate IsTag(tag: string) {
    (forall k :: 0 <= k < |tag| ==> IsDollarTag(tag[k])) && (tag != "" ==> !IsDigit(tag[0]))
  }

  function Marker(tag: string): (m: string)
    ensures |m| == |tag| + 2
  {
    "$" + tag + "$"
  }

  predicate MarkerAt(sql: string, tag: string, i: nat) {
    i + |tag| + 2 <= |sql| && sql[i..i + |tag| + 2] == Marker(tag)
  }

  lemma {:induction false} NextDollarIs(sql: string, i: nat, e: nat)
    requires i <= e < |sql| && sql[e] == '$' && forall k :: i <= k < e ==> sql[k] != '$'
    ensures NextDollar(sql, i) == e
    decreases e - i
  {
    if i < e { NextDollarIs(sql, i + 1, e); }
  }

  lemma {:induction false} TagDollarIs(sql: string, i: nat, e: nat)
    requires i <= e < |sql| && sql[e] == '$' && forall k :: i <= k < e ==> sql[k] != '$' && IsDollarTag(sql[k])
    ensures TagDollar(sql, i) == Some(e)
    decreases e - i
  {
    if i < e { TagDollarIs(sql, i + 1, e); }
  }

  lemma SliceOfSlice(s: string, a: nat, n: nat, c: nat, d: nat)
    requires a + n <= |s| && c <= d <= n
    ensures s[a..a + n][c..d] == s[a + c..a + d]
  {
    var head, mid, tail := s[a..a + c], s[a + c..a + d], s[a + d..a + n];
    assert s[a..a + n] == head + mid + tail;
  }

  lemma MarkerParts(sql: string, tag: string, i: nat)
    requires MarkerAt(sql, tag, i)
    ensures sql[i] == '$' && sql[i + 1..i + 1 + |tag|] == tag && sql[i + 1 + |tag|] == '$'
  {
    var m := sql[i..i + |tag| + 2];
    assert m[0] == '$' && m[|tag| + 1] == '$' && m[1..|tag| + 1] == tag;
    SliceOfSlice(sql, i, |tag| + 2, 1, |tag| + 1);
  }

  lemma TagHasNoDollar(sql: string, tag: string, i: nat)
    requires IsTag(tag) && i + |tag| <= |sql| && sql[i..i + |tag|] == tag
    ensures forall k :: i <= k < i + |tag| ==> sql[k] != '$' && IsDollarTag(sql[k])
  {
    forall k | i <= k < i + |tag| ensures sql[k] != '$' && IsDollarTag(sql[k]) { assert sql[k] == tag[k - i]; }
  }

  /** The machine closes a dollar quote exactly where the marker stands. */
  lemma ClosesAtMarker(sql: string, tag: string, i: nat)
    requires IsTag(tag) && i < |sql|
    ensures ClosesDollar(sql, tag, i) <==> MarkerAt(sql, tag, i)
  {
    if MarkerAt(sql, tag, i) {
      MarkerParts(sql, tag, i);
      TagHasNoDollar(sql, tag, i + 1);
      NextDollarIs(sql, i + 1, i + 1 + |tag|);
    }
    if ClosesDollar(sql, tag, i) {
      var end := NextDollar(sql, i + 1);
      assert sql[i..end + 1] == [sql[i]] + sql[i + 1..end] + [sql[end]];
    }
  }

  lemma {:induction false} DollarCloseIs(sql: string, tag: string, i: nat, k: nat)
    requires IsTag(tag) && i <= k < |sql| && MarkerAt(sql, tag, k)
    requires forall j :: i <= j < k ==> !MarkerAt(sql, tag, j)
    ensures DollarClose(sql, tag, i) == Some(k)
    decreases k - i
  {
    ClosesAtMarker(sql, tag, i);
    if i < k { DollarCloseIs(sql, tag, i + 1, k); }
  }

  lemma DollarEntered(sql: string, p: nat, tag: string)
    requires IsTag(tag) && MarkerAt(sql, tag, p)
    ensures First(sql, p, p) == Rest(sql, Config(DollarQuotedString, p + |tag| + 2, p, tag))
  {
    hide Rest;
    MarkerParts(sql, tag, p);
    TagHasNoDollar(sql, tag, p + 1);
    TagDollarIs(sql, p + 1, p + 1 + |tag|);
    assert tag != "" ==> sql[p + 1] == tag[0];
  }

  lemma RequotedMatches(body: string)
    ensures MatchStringLiteral("'" + ReplaceAll(body, "'", "''") + "'") == Some((StandardString, body))
  {
    HalvingUndoesDoubling(body, '\'');
    var inner := ReplaceAll(body, "'", "''");
    var text := "'" + inner + "'";
    assert text[1..|text| - 1] == inner;
  }

  lemma RequotedIs(sql: string, p: nat, tag: string, k: nat)
    requires p + |tag| + 2 <= k <= |sql|
    ensures Requoted(sql, p, tag, k) == "'" + ReplaceAll(sql[p + |tag| + 2..k], "'", "''") + "'"
  {
    hide ReplaceAll;
  }

  lemma DollarRestIs(sql: string, i: nat, last: nat, tag: string, k: nat)
    requires last + |tag| + 2 <= i <= |sql| && DollarClose(sql, tag, i) == Some(k)
    ensures k + |tag| + 2 <= |sql| && i <= k
    ensures DollarRest(sql, i, last, tag)
         == Closed([Tok(Token(Requoted(sql, last, tag, k), |tag| + 2))], k + |tag| + 2, k + |tag| + 2)
  {
    hide Requoted, DollarClose;
  }

  /** Dollar quoting: from the opening marker at p to the first closing marker at k, one token is reported, and the
      string literal matcher recovers exactly the text between the markers. */
  lemma DollarQuoteRoundTrip(sql: string, p: nat, tag: string, k: nat)
    requires IsTag(tag) && MarkerAt(sql, tag, p) && p + |tag| + 2 <= k && MarkerAt(sql, tag, k)
    requires forall j :: p + |tag| + 2 <= j < k ==> !MarkerAt(sql, tag, j)
    ensures var x := First(sql, p, p);
            && x.Closed? && x.next == x.last == k + |tag| + 2 && |x.items| == 1 && x.items[0].Tok?
            && MatchStringLiteral(x.items[0].token.text) == Some((StandardString, sql[p + |tag| + 2..k]))
  {
    hide ReplaceAll, MatchStringLiteral, First, DollarClose, DollarRest, Requoted, Marker;
    DollarEntered(sql, p, tag);
    DollarCloseIs(sql, tag, p + |tag| + 2, k);
    DollarRestIs(sql, p + |tag| + 2, p, tag, k);
    RequotedIs(sql, p, tag, k);
    RequotedMatches(sql[p + |tag| + 2..k]);
  }

  // ----- identifiers -----

  datatype Category = Reserved | Unreserved | TypeFunc | ColName

  /** The keyword tables: which categories a text belongs to. */
  type Categories = (string, Category) -> bool

  predicate Enclosed(text: string, q: char) {
    text != "" && text[0] == q && text[|text| - 1] == q
  }

  /** `substr(1, size - 2)`, whose length wraps for a single character. */
  function Stripped(text: string): string
    requires text != ""
  {
    if |text| >= 2 then text[1..|text| - 1] else ""
  }

  predicate SupportsStringLiteral(s: Suggestion) {
    s == TableName || s == FileName
  }

  function BannedCategory(s: Suggestion): Category {
    if s == ScalarFunctionName || s == TableFunctionName then ColName else TypeFunc
  }

  predicate IsIdentifier(s: Suggestion, text: string) {
    text != "" && ((Enclosed(text, '\'') && SupportsStringLiteral(s)) || Enclosed(text, '"') || IsKeyword(text[0]))
  }

  predicate MatchesIdentifier(categories: Categories, s: Suggestion, text: string) {
    var banned := BannedCategory(s);
    var override := if banned == ColName then TypeFunc else ColName;
    var refused :=
      if s == TypeName then categories(text, Reserved) || categories(text, banned) else
        (categories(text, Reserved) || categories(text, banned))
        && !(categories(text, Unreserved) || categories(text, override));
    !refused && IsIdentifier(s, text)
  }

  /** `IdentifierMatcher::MatchParseResult` on one token: the identifier it denotes. */
  function MatchIdentifier(categories: Categories, s: Suggestion, preserveCase: bool, text: string): Option<string> {
    if !MatchesIdentifier(categories, s, text) then None
    else
      var name :=
        if Enclosed(text, '"') then ReplaceAll(Stripped(text), "\"\"", "\"") else if preserveCase then text
            else Lower(text);
      Some(if Enclosed(name, '\'') && SupportsStringLiteral(s) then ReplaceAll(Stripped(name), "''", "'") else name)
  }

  function QuotedIdentifierText(name: string): (text: string)
    ensures |text| >= 2 && text[0] == '"' && text[|text| - 1] == '"'
            && text[1..|text| - 1] == ReplaceAll(name, "\"", "\"\"")
  {
    "\"" + ReplaceAll(name, "\"", "\"\"") + "\""
  }

  /** The doubled body is read to its closing quote. */
  lemma {:induction false} DoubledBodyEnds(sql: string, i: nat, name: string, e: nat)
    requires i <= e < |sql| && sql[i..e] == ReplaceAll(name, "\"", "\"\"") && sql[e] == '"'
             && (e + 1 < |sql| ==> sql[e + 1] != '"')
    ensures QuoteEnd(sql, '"', i) == Some(e + 1)
    decreases |name|
  {
    ReplaceHead(name, '"');
    if name != "" {
      var d, rest := sql[i..e], ReplaceAll(name[1..], "\"", "\"\"");
      assert d[0] == sql[i];
      if name[0] == '"' {
        assert d[1] == sql[i + 1];
        assert sql[i + 2..e] == d[2..] == rest;
        DoubledBodyEnds(sql, i + 2, name[1..], e);
      } else {
        assert sql[i + 1..e] == d[1..] == rest;
        DoubledBodyEnds(sql, i + 1, name[1..], e);
      }
    }
  }

  /** A name written between doubled quotes lexes as one token. */
  lemma QuotedIdentifierLexes(sql: string, p: nat, name: string)
    requires var text := QuotedIdentifierText(name);
             p + |text| <= |sql| && sql[p..p + |text|] == text && (p + |text| < |sql| ==> sql[p + |text|] != '"')
    ensures var text := QuotedIdentifierText(name);
            First(sql, p, p) == Closed([Tok(Token(text, p))], p + |text|, p + |text|)
  {
    var text := QuotedIdentifierText(name);
    var e := p + |text| - 1;
    assert sql[p] == text[0] && sql[e] == text[|text| - 1];
    SliceOfSlice(sql, p, |text|, 1, |text| - 1);
    DoubledBodyEnds(sql, p + 1, name, e);
    assert First(sql, p, p) == Rest(sql, Config(QuotedIdentifier, p + 1, p, ""));
  }

  /** And its matcher returns the name, exactly when the name is not itself a single-quoted text that a table or file
      name would strip once more. */
  lemma QuotedIdentifierRoundTrip(categories: Categories, s: Suggestion, preserveCase: bool, name: string)
    requires name != "" && forall c :: !categories(QuotedIdentifierText(name), c)
    ensures MatchIdentifier(categories, s, preserveCase, QuotedIdentifierText(name)) == Some(name)
       <==> !(Enclosed(name, '\'') && SupportsStringLiteral(s))
  {
    HalvingUndoesDoubling(name, '"');
    if Enclosed(name, '\'') {
      HalvingShrinks(Stripped(name), '\'');
    }
  }

  /** A table called 'x', quotes included, is read as x. */
  lemma QuotedTableNameLosesItsQuotes(categories: Categories)
    requires forall c :: !categories("\"'x'\"", c)
    ensures QuotedIdentifierText("'x'") == "\"'x'\""
    ensures MatchIdentifier(categories, TableName, true, "\"'x'\"") == Some("x")
  {
    assert ReplaceAll("'x'", "\"", "\"\"") == "'x'";
    var text := "\"'x'\"";
    assert Stripped(text) == "'x'";
    assert ReplaceAll("'x'", "\"\"", "\"") == "'x'" by {
      assert "'x'"[1..] == "x'" && "x'"[1..] == "'";
    }
    assert Stripped("'x'") == "x";
  }
}
