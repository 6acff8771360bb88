/** The extension tables of a generated header: printed row by row, and read back character by character.
    A table is an array initializer whose rows hold quoted texts and function types; the parser knows nothing of tables,
    only of braces, commas and quotes.  On top of it stands the map of functions, exported in any order of its keys and
    rebuilt from the records read. */
module HeaderTables {
  import opened Options

  /** What Python's `str.strip` takes off. */
  predicate IsSpace(c: char) {
    || '\t' <= c <= '\r' || '\U{1C}' <= c <= ' ' || c == '\U{85}' || c == '\U{A0}' || c == '\U{1680}'
    || '\U{2000}' <= c <= '\U{200A}' || c == '\U{2028}' || c == '\U{2029}' || c == '\U{202F}' || c == '\U{205F}'
    || c == '\U{3000}'
  }

  /** These are the 29 characters. */
  lemma PythonSpaces(c: char)
    ensures IsSpace(c) <==>
            c in "\t\n\U{0B}\U{0C}\r\U{1C}\U{1D}\U{1E}\U{1F} \U{85}\U{A0}\U{1680}"
            || c in "\U{2028}\U{2029}\U{202F}\U{205F}\U{3000}"
            || c in "\U{2000}\U{2001}\U{2002}\U{2003}\U{2004}\U{2005}\U{2006}\U{2007}\U{2008}\U{2009}\U{200A}"
  {
  }

  function StripLeft(s: string): string {
    if s != "" && IsSpace(s[0]) then StripLeft(s[1..]) else s
  }

  function StripRight(s: string): string {
    if s != "" && IsSpace(s[|s| - 1]) then StripRight(s[..|s| - 1]) else s
  }

  function Strip(s: string): string {
    StripRight(StripLeft(s))
  }

  predicate QuoteFree(s: string) {
    forall k :: 0 <= k < |s| ==> s[k] != '"'
  }

  /** A field the tables can hold: not empty, without quotes, without white space around it. */
  predicate Good(s: string) {
    s != "" && QuoteFree(s) && !IsSpace(s[0]) && !IsSpace(s[|s| - 1])
  }

  // ----- the parser -----

  /** The variables of `parse_records`. */
  datatype Parser = Parser(records: seq<seq<string>>, record: seq<string>, item: string, inQuote: bool, inside: bool)

  const START := Parser([], [], "", false, false)

  function Closed(record: seq<string>, item: string): seq<string> {
    var token := Strip(item);
    if token != "" then record + [token] else record
  }

  function Step(p: Parser, c: char): Parser {
    if c == '"' then p.(inQuote := !p.inQuote)
    else if c == '{' && !p.inQuote then p.(inside := true, record := [], item := "")
    else if c == '}' && !p.inQuote && p.inside then Parser(p.records + [Closed(p.record, p.item)], [], "", p.inQuote,
                                                           false)
    else if c == ',' && !p.inQuote && p.inside then p.(record := Closed(p.record, p.item), item := "")
    else if p.inside then p.(item := p.item + [c])
    else p
  }

  function Feed(p: Parser, text: string): Parser
    decreases |text|
  {
    if text == "" then p else Feed(Step(p, text[0]), text[1..])
  }

  lemma {:induction false} FeedConcat(p: Parser, a: string, b: string)
    ensures Feed(p, a + b) == Feed(Feed(p, a), b)
    decreases |a|
  {
    if a == "" {
      assert a + b == b;
    } else {
      assert (a + b)[1..] == a[1..] + b;
      FeedConcat(Step(p, a[0]), a[1..], b);
    }
  }

  function Records(text: string): seq<seq<string>> {
    Feed(START, text).records
  }

  method ParseRecords(text: string) returns (records: seq<seq<string>>)
    ensures records == Records(text)
  {
    records := [];
    var current_record: seq<string> := [];
    var current_item := "";
    var in_quote, inside_braces := false, false;
    assert text[0..] == text;
    for k := 0 to |text|
      invariant Feed(Parser(records, current_record, current_item, in_quote, inside_braces), text[k..])
                == Feed(START, text)
    {
      var c := text[k];
      assert text[k..][0] == c && text[k..][1..] == text[k + 1..];
      if c == '"' {
        in_quote := !in_quote;
      } else if c == '{' && !in_quote {
        inside_braces := true;
        current_record := [];
        current_item := "";
      } else if c == '}' && !in_quote && inside_braces {
        var token := Strip(current_item);
        if token != "" {
          current_record := current_record + [token];
        }
        records := records + [current_record];
        current_record := [];
        current_item := "";
        inside_braces := false;
      } else if c == ',' && !in_quote && inside_braces {
        var token := Strip(current_item);
        if token != "" {
          current_record := current_record + [token];
        }
        current_item := "";
      } else {
        if inside_braces {
          current_item := current_item + [c];
        }
      }
    }
  }

  // ----- the printer -----

  datatype CatalogType = Scalar | Table | Aggregate | Pragma | Macro | TableMacro

  function Kind(t: CatalogType): string {
    match t
    case Scalar => "SCALAR_FUNCTION"
    case Table => "TABLE_FUNCTION"
    case Aggregate => "AGGREGATE_FUNCTION"
    case Pragma => "PRAGMA_FUNCTION"
    case Macro => "MACRO"
    case TableMacro => "TABLE_MACRO"
  }

  /** The value of the enumeration member. */
  function TypeText(t: CatalogType): string {
    "CatalogType::" + Kind(t) + "_ENTRY"
  }

  /** `catalog_type_from_type`; None is the exception. */
  function TypeFromText(s: string): Option<CatalogType> {
    if s == TypeText(Scalar) then Some(Scalar)
    else if s == TypeText(Table) then Some(Table)
    else if s == TypeText(Aggregate) then Some(Aggregate)
    else if s == TypeText(Pragma) then Some(Pragma)
    else if s == TypeText(Macro) then Some(Macro)
    else if s == TypeText(TableMacro) then Some(TableMacro)
    else None
  }

  lemma TypeRead(t: CatalogType)
    ensures TypeFromText(TypeText(t)) == Some(t)
  {
    KindsDiffer(Scalar, t);
    KindsDiffer(Table, t);
    KindsDiffer(Aggregate, t);
    KindsDiffer(Pragma, t);
    KindsDiffer(Macro, t);
    KindsDiffer(TableMacro, t);
  }

  lemma KindsDiffer(t: CatalogType, u: CatalogType)
    ensures TypeText(t) == TypeText(u) ==> t == u
  {
    if TypeText(t) == TypeText(u) {
      KindOf(t);
      KindOf(u);
      assert Kind(t)[0] == Kind(u)[0];
      assert t == Table ==> Kind(t)[6] == 'F';
      assert u == Table ==> Kind(u)[6] == 'F';
      assert t == TableMacro ==> Kind(t)[6] == 'M';
      assert u == TableMacro ==> Kind(u)[6] == 'M';
    }
  }

  lemma KindOf(t: CatalogType)
    ensures TypeText(t)[13..|TypeText(t)| - 6] == Kind(t)
  {
    hide Kind;
    assert |"CatalogType::"| == 13 && |"_ENTRY"| == 6;
  }

  /** A printed field: a quoted text, or a function type. */
  datatype Field = Quoted(text: string) | Type(t: CatalogType)

  function Content(f: Field): string {
    match f case Quoted(s) => s case Type(t) => TypeText(t)
  }

  function FieldText(f: Field): string {
    match f case Quoted(s) => "\"" + s + "\"" case Type(t) => TypeText(t)
  }

  /** The fields after the first. */
  function MoreFields(fs: seq<Field>): string {
    if fs == [] then "" else ", " + FieldText(fs[0]) + MoreFields(fs[1..])
  }

  function RowText(row: seq<Field>): string
    requires row != []
  {
    "\t{" + FieldText(row[0]) + MoreFields(row[1..]) + "},\n"
  }

  predicate IsTable(table: seq<seq<Field>>) {
    forall r :: 0 <= r < |table| ==> table[r] != []
  }

  function RowsText(table: seq<seq<Field>>): string
    requires IsTable(table)
  {
    if table == [] then "" else RowText(table[0]) + RowsText(table[1..])
  }

  const HEAD := "\nstatic constexpr ExtensionFunctionEntry "
  const OVERLOAD_HEAD := "\nstatic constexpr ExtensionFunctionOverloadEntry "
  const FUNCTIONS := "EXTENSION_FUNCTIONS"
  const OVERLOADS := "EXTENSION_FUNCTION_OVERLOADS"
  const OPEN := "[] = {\n"
  const CLOSE := "}; // "
  const END := "END_OF_"

  /** The slice of the header that the parser is given: from the array's name to the marker after its end. */
  function TableText(name: string, table: seq<seq<Field>>): string
    requires IsTable(table)
  {
    name + OPEN + RowsText(table) + CLOSE
  }

  function Contents(row: seq<Field>): (s: seq<string>)
    ensures |s| == |row| && forall k :: 0 <= k < |row| ==> s[k] == Content(row[k])
  {
    seq(|row|, k requires 0 <= k < |row| => Content(row[k]))
  }

  function AllContents(table: seq<seq<Field>>): (s: seq<seq<string>>)
    ensures |s| == |table| && forall r :: 0 <= r < |table| ==> s[r] == Contents(table[r])
  {
    seq(|table|, r requires 0 <= r < |table| => Contents(table[r]))
  }

  /** What the parser makes of a field: its content without outer white space. */
  function Token(f: Field): string {
    Strip(Content(f))
  }

  function Tokens(row: seq<Field>): (s: seq<string>)
    ensures |s| == |row| && forall k :: 0 <= k < |row| ==> s[k] == Token(row[k])
  {
    seq(|row|, k requires 0 <= k < |row| => Token(row[k]))
  }

  function AllTokens(table: seq<seq<Field>>): (s: seq<seq<string>>)
    ensures |s| == |table| && forall r :: 0 <= r < |table| ==> s[r] == Tokens(table[r])
  {
    seq(|table|, r requires 0 <= r < |table| => Tokens(table[r]))
  }

  /** A field that becomes one token: a quoted text has no quotes and is not only white space. */
  predicate Plain(f: Field) {
    f.Quoted? ==> QuoteFree(f.text) && Token(f) != ""
  }

  predicate PlainRow(row: seq<Field>) {
    forall k :: 0 <= k < |row| ==> Plain(row[k])
  }

  predicate PlainTable(table: seq<seq<Field>>) {
    forall r :: 0 <= r < |table| ==> PlainRow(table[r])
  }

  predicate GoodRow(row: seq<Field>) {
    forall k :: 0 <= k < |row| && row[k].Quoted? ==> Good(row[k].text)
  }

  predicate GoodTable(table: seq<seq<Field>>) {
    forall r :: 0 <= r < |table| ==> GoodRow(table[r])
  }

  predicate IsName(s: string) {
    forall k :: 0 <= k < |s| ==> s[k] != '"' && s[k] != '{' && s[k] != '}' && s[k] != ','
  }

  // ----- reading a printed table -----

  lemma StripGood(s: string)
    requires Good(s)
    ensures Strip(s) == s
  {
    assert StripLeft(s) == s;
  }

  lemma StripBlank(s: string)
    ensures Strip(" " + s) == Strip(s)
  {
    assert (" " + s)[1..] == s;
  }

  /** Characters that mean nothing to the parser, inside braces: they join the item. */
  lemma {:induction false} ItemGrows(p: Parser, s: string)
    requires p.inside && if p.inQuote then QuoteFree(s) else IsName(s)
    ensures Feed(p, s) == p.(item := p.item + s)
    decreases |s|
  {
    if s == "" {
      assert p.item + s == p.item;
    } else {
      var q := Step(p, s[0]);
      assert q == p.(item := p.item + [s[0]]);
      ItemGrows(q, s[1..]);
      assert p.item + s == (p.item + [s[0]]) + s[1..];
    }
  }

  lemma {:induction false} OutsideIgnored(p: Parser, s: string)
    requires !p.inside && !p.inQuote && IsName(s)
    ensures Feed(p, s) == p
    decreases |s|
  {
    if s != "" { OutsideIgnored(Step(p, s[0]), s[1..]); }
  }

  lemma TypeIsGood(t: CatalogType)
    ensures Good(TypeText(t)) && IsName(TypeText(t))
  {
    hide Good, IsName, Kind, IsTypeName;
    KindIsName(t);
    NamesJoin("CatalogType::", Kind(t));
    NamesJoin("CatalogType::" + Kind(t), "_ENTRY");
    NameIsGood(TypeText(t));
  }

  lemma KindIsName(t: CatalogType)
    ensures IsTypeName(Kind(t)) && IsTypeName("CatalogType::") && IsTypeName("_ENTRY")
  {
    hide IsTypeName;
    assert IsTypeName("CatalogType::") by { Spelled("CatalogType::"); }
    assert IsTypeName("_ENTRY") by { Spelled("_ENTRY"); }
    match t
    case Scalar => Spelled("SCALAR_FUNCTION");
    case Table => Spelled("TABLE_FUNCTION");
    case Aggregate => Spelled("AGGREGATE_FUNCTION");
    case Pragma => Spelled("PRAGMA_FUNCTION");
    case Macro => Spelled("MACRO");
    case TableMacro => Spelled("TABLE_MACRO");
  }

  predicate TypeChar(c: char) {
    c == ':' || c == '_' || 'A' <= c <= 'Z' || 'a' <= c <= 'z'
  }

  lemma {:induction false} Spelled(s: string)
    requires forall c :: c in s ==> TypeChar(c)
    ensures IsTypeName(s)
  {
    forall k | 0 <= k < |s| ensures s[k] == ':' || s[k] == '_' || 'A' <= s[k] <= 'Z' || 'a' <= s[k] <= 'z' {
      assert TypeChar(s[k]);
    }
  }

  lemma NamesJoin(a: string, b: string)
    requires IsTypeName(a) && IsTypeName(b)
    ensures IsTypeName(a + b)
  {
  }

  /** Letters, colons and underscores only. */
  predicate IsTypeName(s: string) {
    forall k :: 0 <= k < |s| ==> s[k] == ':' || s[k] == '_' || 'A' <= s[k] <= 'Z' || 'a' <= s[k] <= 'z'
  }

  lemma NameIsGood(s: string)
    requires IsTypeName(s) && s != ""
    ensures Good(s) && IsName(s)
  {
  }

  /** A field's content joins the item, without its quotes. */
  lemma FieldFed(p: Parser, f: Field)
    requires p.inside && !p.inQuote && (f.Quoted? ==> QuoteFree(f.text))
    ensures Feed(p, FieldText(f)) == p.(item := p.item + Content(f))
  {
    match f {
      case Quoted(s) =>
        var q := p.(inQuote := true);
        FeedConcat(p, "\"", s + "\"");
        assert "\"" + (s + "\"") == FieldText(f);
        OneCharacter(p, '"');
        FeedConcat(q, s, "\"");
        ItemGrows(q, s);
        OneCharacter(q.(item := q.item + s), '"');
      case Type(t) =>
        TypeIsGood(t);
        ItemGrows(p, TypeText(t));
    }
  }

  lemma OneCharacter(p: Parser, c: char)
    ensures Feed(p, [c]) == Step(p, c)
  {
    assert [c][1..] == "";
  }

  /** A field that is good reads as its content, and a type does. */
  lemma GoodToken(f: Field)
    requires f.Quoted? ==> Good(f.text)
    ensures Plain(f) && Token(f) == Content(f)
  {
    if f.Type? { TypeIsGood(f.t); }
    StripGood(Content(f));
  }

  lemma TokenNotEmpty(f: Field)
    requires Plain(f)
    ensures Token(f) != "" && (f.Quoted? ==> QuoteFree(f.text))
  {
    if f.Type? { GoodToken(f); TypeIsGood(f.t); }
  }

  /** The rest of a row: the item in hand, and the fields to come. */
  lemma {:induction false} FieldsFed(p: Parser, item: string, fs: seq<Field>)
    requires p.inside && !p.inQuote && Strip(item) != "" && (p.item == item || p.item == " " + item) && PlainRow(fs)
    ensures Feed(p, MoreFields(fs) + "}") == Parser(p.records + [p.record + [Strip(item)] + Tokens(fs)], [], "", false,
                                                    false)
    decreases |fs|
  {
    hide Strip, FieldText, PlainRow, MoreFields, Feed, Tokens;
    StripBlank(item);
    NoFields();
    if fs == [] {
      assert MoreFields(fs) + "}" == "}";
      OneCharacter(p, '}');
      assert Tokens(fs) == [];
      assert p.record + [Strip(item)] + Tokens(fs) == p.record + [Strip(item)];
    } else {
      var f := fs[0];
      FirstPlain(fs);
      TokenNotEmpty(f);
      var rest := MoreFields(fs[1..]) + "}";
      MoreFieldsSplit(fs);
      FeedConcat(p, ",", " " + (FieldText(f) + rest));
      OneCharacter(p, ',');
      var q := p.(record := p.record + [Strip(item)], item := "");
      FeedConcat(q, " ", FieldText(f) + rest);
      OneCharacter(q, ' ');
      assert "" + [' '] == " ";
      var q2 := q.(item := " ");
      FeedConcat(q2, FieldText(f), rest);
      FieldFed(q2, f);
      FieldsFed(q2.(item := " " + Content(f)), Content(f), fs[1..]);
      assert Tokens(fs) == [Token(f)] + Tokens(fs[1..]);
      assert (p.record + [Strip(item)]) + [Token(f)] + Tokens(fs[1..]) == p.record + [Strip(item)] + Tokens(fs);
    }
  }

  lemma NoFields()
    ensures MoreFields([]) == ""
  {
  }

  lemma MoreFieldsSplit(fs: seq<Field>)
    requires fs != []
    ensures MoreFields(fs) + "}" == "," + (" " + (FieldText(fs[0]) + (MoreFields(fs[1..]) + "}")))
  {
    hide FieldText;
    Associates(", ", FieldText(fs[0]), MoreFields(fs[1..]), "}");
  }

  lemma Associates(a: string, b: string, c: string, d: string)
    ensures a + b + c + d == a + (b + (c + d))
  {
  }

  lemma FirstPlain(fs: seq<Field>)
    requires fs != [] && PlainRow(fs)
    ensures Plain(fs[0]) && PlainRow(fs[1..])
  {
  }

  lemma RowFed(p: Parser, row: seq<Field>)
    requires row != [] && PlainRow(row) && !p.inQuote
    ensures Feed(p, RowText(row)) == Parser(p.records + [Tokens(row)], [], "", false, false)
  {
    hide Plain, FieldText, MoreFields, PlainRow, Feed, Tokens, RowText, Strip, Content;
    var f, rest := row[0], MoreFields(row[1..]) + "}";
    FirstPlain(row);
    TokenNotEmpty(f);
    RowTextSplit(FieldText(f), MoreFields(row[1..]));
    RowTextIs(row);
    FeedConcat(p, "\t", "{" + (FieldText(f) + (rest + ",\n")));
    OneCharacter(p, '\t');
    var p1 := Step(p, '\t');
    FeedConcat(p1, "{", FieldText(f) + (rest + ",\n"));
    OneCharacter(p1, '{');
    var q := Parser(p.records, [], "", false, true);
    FeedConcat(q, FieldText(f), rest + ",\n");
    FieldFed(q, f);
    assert "" + Content(f) == Content(f);
    var q2 := q.(item := Content(f));
    FeedConcat(q2, rest, ",\n");
    FieldsFed(q2, Content(f), row[1..]);
    assert [] + [Token(f)] + Tokens(row[1..]) == Tokens(row);
    AfterRow(Parser(p.records + [Tokens(row)], [], "", false, false));
  }

  lemma RowTextIs(row: seq<Field>)
    requires row != []
    ensures RowText(row) == "\t{" + FieldText(row[0]) + MoreFields(row[1..]) + "},\n"
  {
  }

  lemma RowTextSplit(f: string, more: string)
    ensures "\t{" + f + more + "},\n" == "\t" + ("{" + (f + (more + "}" + ",\n")))
  {
    assert "\t{" == "\t" + "{" && "},\n" == "}" + ",\n";
  }

  lemma AfterRow(p: Parser)
    requires !p.inside && !p.inQuote
    ensures Feed(p, ",\n") == p
  {
    assert ",\n"[1..] == "\n";
    OneCharacter(p, '\n');
  }

  lemma {:induction false} RowsFed(p: Parser, table: seq<seq<Field>>)
    requires IsTable(table) && PlainTable(table) && table != [] && !p.inQuote
    ensures Feed(p, RowsText(table)) == Parser(p.records + AllTokens(table), [], "", false, false)
    decreases |table|
  {
    hide RowText, PlainRow, Feed, AllTokens, RowsText;
    RowFed(p, table[0]);
    var q := Parser(p.records + [Tokens(table[0])], [], "", false, false);
    TableSplit(table);
    FeedConcat(p, RowText(table[0]), RowsText(table[1..]));
    if |table| == 1 {
      FeedNothing(q);
    } else {
      RowsFed(q, table[1..]);
      assert p.records + ([Tokens(table[0])] + AllTokens(table[1..])) == q.records + AllTokens(table[1..]);
    }
  }

  lemma TableSplit(table: seq<seq<Field>>)
    requires IsTable(table) && table != []
    ensures RowsText(table) == RowText(table[0]) + RowsText(table[1..])
    ensures AllTokens(table) == [Tokens(table[0])] + AllTokens(table[1..])
    ensures |table| == 1 ==> RowsText(table[1..]) == "" && AllTokens(table) == [Tokens(table[0])]
  {
    hide RowText, RowsText, Tokens, AllTokens;
    RowsSplit(table);
    TokensSplit(table);
    if |table| == 1 { assert AllTokens(table[1..]) == []; }
  }

  lemma TokensSplit(table: seq<seq<Field>>)
    requires table != []
    ensures AllTokens(table) == [Tokens(table[0])] + AllTokens(table[1..])
  {
    hide Tokens, AllTokens;
    var all, split := AllTokens(table), [Tokens(table[0])] + AllTokens(table[1..]);
    assert |all| == |split|;
    forall r | 0 <= r < |all| ensures all[r] == split[r] {
      if r > 0 { assert table[1..][r - 1] == table[r]; }
    }
  }

  lemma RowsSplit(table: seq<seq<Field>>)
    requires IsTable(table) && table != []
    ensures RowsText(table) == RowText(table[0]) + RowsText(table[1..])
    ensures |table| == 1 ==> RowsText(table[1..]) == ""
  {
    hide RowText;
  }

  lemma FeedNothing(p: Parser)
    ensures Feed(p, "") == p
  {
  }

  /** The brace of the array initializer opens a record, which the first row's brace drops. */
  lemma OpeningFed(name: string)
    requires IsName(name)
    ensures Feed(START, name + OPEN) == Parser([], [], "\n", false, true)
  {
    hide Feed;
    assert name + OPEN == (name + "[] = ") + ("{" + "\n");
    FeedConcat(START, name + "[] = ", "{" + "\n");
    OutsideIgnored(START, name + "[] = ");
    FeedConcat(START, "{", "\n");
    OneCharacter(START, '{');
    OneCharacter(START.(inside := true), '\n');
  }

  /** Whatever the quoted texts are, if they have no quotes and are not blank, the table reads as their tokens. */
  lemma TableFed(name: string, table: seq<seq<Field>>)
    requires IsTable(table) && IsName(name) && PlainTable(table) && table != []
    ensures Records(TableText(name, table)) == AllTokens(table)
  {
    hide Feed, RowsText, PlainTable;
    var p := Parser([], [], "\n", false, true);
    assert TableText(name, table) == (name + OPEN) + (RowsText(table) + CLOSE);
    FeedConcat(START, name + OPEN, RowsText(table) + CLOSE);
    OpeningFed(name);
    FeedConcat(p, RowsText(table), CLOSE);
    RowsFed(p, table);
    assert [] + AllTokens(table) == AllTokens(table);
    ClosingIgnored(Parser(AllTokens(table), [], "", false, false));
  }

  lemma ClosingIgnored(p: Parser)
    requires !p.inside && !p.inQuote
    ensures Feed(p, "}; // ") == p
  {
    hide Feed;
    FeedConcat(p, "}", "; // ");
    assert "}" + "; // " == "}; // ";
    OneCharacter(p, '}');
    OutsideIgnored(p, "; // ");
  }

  /** An empty table reads as one empty record. */
  lemma EmptyTableFed(name: string)
    requires IsName(name)
    ensures Records(TableText(name, [])) == [[]]
  {
    hide Feed;
    var p := Parser([], [], "\n", false, true);
    assert TableText(name, []) == (name + OPEN) + ("}" + "; // ");
    FeedConcat(START, name + OPEN, "}" + "; // ");
    OpeningFed(name);
    FeedConcat(p, "}", "; // ");
    OneCharacter(p, '}');
    var none: seq<seq<string>> := [];
    assert none + [[]] == [[]];
    assert Strip("\n") == "" by { assert "\n"[1..] == ""; }
    OutsideIgnored(Parser([[]], [], "", false, false), "; // ");
  }

  // ----- whatever is read is good -----

  predicate GoodTokens(ts: seq<string>) {
    forall k :: 0 <= k < |ts| ==> Good(ts[k])
  }

  predicate GoodParser(p: Parser) {
    QuoteFree(p.item) && GoodTokens(p.record) && forall r :: 0 <= r < |p.records| ==> GoodTokens(p.records[r])
  }

  lemma {:induction false} StripLeftShape(s: string)
    requires QuoteFree(s)
    ensures QuoteFree(StripLeft(s)) && (StripLeft(s) != "" ==> !IsSpace(StripLeft(s)[0]))
  {
    if s != "" && IsSpace(s[0]) { StripLeftShape(s[1..]); }
  }

  lemma {:induction false} StripRightShape(s: string)
    requires QuoteFree(s) && (s != "" ==> !IsSpace(s[0]))
    ensures StripRight(s) == "" || Good(StripRight(s))
  {
    if s != "" && IsSpace(s[|s| - 1]) { StripRightShape(s[..|s| - 1]); }
  }

  lemma ClosedGood(record: seq<string>, item: string)
    requires GoodTokens(record) && QuoteFree(item)
    ensures GoodTokens(Closed(record, item))
  {
    hide Good;
    StripLeftShape(item);
    StripRightShape(StripLeft(item));
  }

  lemma StepGood(p: Parser, c: char)
    requires GoodParser(p)
    ensures GoodParser(Step(p, c))
  {
    hide GoodTokens, Closed;
    ClosedGood(p.record, p.item);
    NoTokens();
  }

  lemma NoTokens()
    ensures GoodTokens([])
  {
  }

  /** Every token of every record is a good field, whatever the text. */
  lemma {:induction false} TokensGood(p: Parser, text: string)
    requires GoodParser(p)
    ensures GoodParser(Feed(p, text))
    decreases |text|
  {
    hide GoodParser, Step;
    if text != "" {
      StepGood(p, text[0]);
      TokensGood(Step(p, text[0]), text[1..]);
    }
  }

  lemma GoodTokensOf(table: seq<seq<Field>>)
    requires GoodTable(table)
    ensures PlainTable(table) && AllTokens(table) == AllContents(table)
  {
    hide Good, Plain, Token, Content;
    forall r | 0 <= r < |table| ensures PlainRow(table[r]) && Tokens(table[r]) == Contents(table[r]) {
      assert GoodRow(table[r]);
      forall k | 0 <= k < |table[r]| ensures Plain(table[r][k]) && Token(table[r][k]) == Content(table[r][k]) {
        GoodToken(table[r][k]);
      }
    }
  }

  /** Printing and parsing give the table back exactly when it is not empty and every quoted field is good. */
  lemma TableRoundTrip(name: string, table: seq<seq<Field>>)
    requires IsTable(table) && IsName(name)
    ensures Records(TableText(name, table)) == AllContents(table) <==> table != [] && GoodTable(table)
  {
    hide Feed, TableText, Good;
    EmptyTableFed(name);
    if table != [] && GoodTable(table) {
      GoodTokensOf(table);
      TableFed(name, table);
    }
    if Records(TableText(name, table)) == AllContents(table) {
      TokensGood(START, TableText(name, table));
      forall r | 0 <= r < |table| ensures GoodRow(table[r]) {
        assert GoodTokens(AllContents(table)[r]);
        forall k | 0 <= k < |table[r]| && table[r][k].Quoted? ensures Good(table[r][k].text) {
          assert Contents(table[r])[k] == table[r][k].text;
        }
      }
    }
  }

  // ----- the function table -----

  datatype Function = Function(name: string, t: CatalogType)

  /** The exported order: every key once. */
  ghost predicate Enumerates<V>(order: seq<Function>, m: map<Function, V>) {
    && (forall f :: f in order <==> f in m)
    && (forall j, k :: 0 <= j < k < |order| ==> order[j] != order[k])
  }

  function FunctionRow(f: Function, extension: string): seq<Field> {
    [Quoted(f.name), Quoted(extension), Type(f.t)]
  }

  function FunctionTable(m: map<Function, string>, order: seq<Function>): (table: seq<seq<Field>>)
    requires forall f :: f in order ==> f in m
    ensures |table| == |order| && IsTable(table)
    ensures forall k :: 0 <= k < |order| ==> table[k] == FunctionRow(order[k], m[order[k]])
  {
    seq(|order|, k requires 0 <= k < |order| => FunctionRow(order[k], m[order[k]]))
  }

  lemma {:induction false} RowsTextConcat(a: seq<seq<Field>>, b: seq<seq<Field>>)
    requires IsTable(a) && IsTable(b)
    ensures RowsText(a + b) == RowsText(a) + RowsText(b)
  {
    hide RowText;
    if a == [] {
      assert a + b == b;
    } else {
      assert (a + b)[1..] == a[1..] + b;
      RowsTextConcat(a[1..], b);
    }
  }

  lemma OneRowText(row: seq<Field>)
    requires row != []
    ensures RowsText([row]) == RowText(row)
  {
    hide RowText;
    assert [row][1..] == [];
  }

  /** `export_functions`, in the sorted order of the keys. */
  method ExportFunctions(function_map: map<Function, string>, sorted_function: seq<Function>) returns (result: string)
    requires forall f :: f in sorted_function ==> f in function_map
    ensures result == "\nstatic constexpr ExtensionFunctionEntry "
            + TableText("EXTENSION_FUNCTIONS", FunctionTable(function_map, sorted_function))
            + ("END_OF_" + "EXTENSION_FUNCTIONS" + "\n")
  {
    hide RowsText, RowText, TypeText;
    result := HEAD + FUNCTIONS + OPEN;
    ghost var opening, table := result, FunctionTable(function_map, sorted_function);
    NoRowsText();
    assert table[..0] == [];
    assert result + "" == result;
    for k := 0 to |sorted_function|
      invariant result == opening + RowsText(table[..k])
    {
      var f := sorted_function[k];
      ghost var before := result;
      result := result + "\t{";
      result := result + ("\"" + f.name + "\", \"" + function_map[f] + "\", " + TypeText(f.t));
      result := result + "},\n";
      FunctionRowText(before, f, function_map[f]);
      assert table[..k + 1] == table[..k] + [table[k]];
      RowsTextConcat(table[..k], [table[k]]);
      OneRowText(table[k]);
      Associates3(opening, RowsText(table[..k]), RowText(table[k]));
    }
    assert table[..|table|] == table;
    result := result + (CLOSE + END + FUNCTIONS + "\n");
    ExportShape(HEAD, FUNCTIONS, OPEN, RowsText(table), CLOSE, END + FUNCTIONS + "\n");
    Associates3(CLOSE, END + FUNCTIONS, "\n");
    Associates3(CLOSE, END, FUNCTIONS);
  }

  lemma Associates3(a: string, b: string, c: string)
    ensures a + (b + c) == (a + b) + c
  {
  }

  lemma ExportShape(head: string, name: string, open: string, rows: string, close: string, end: string)
    ensures head + name + open + rows + (close + end) == head + (name + open + rows + close) + end
  {
  }

  lemma NoRowsText()
    ensures RowsText([]) == ""
  {
  }

  lemma FunctionRowText(before: string, f: Function, extension: string)
    ensures before + "\t{" + ("\"" + f.name + "\", \"" + extension + "\", " + TypeText(f.t)) + "},\n"
         == before + RowText(FunctionRow(f, extension))
  {
    hide TypeText;
    var row := FunctionRow(f, extension);
    var a, b, c := FieldText(row[0]), FieldText(row[1]), FieldText(row[2]);
    assert row[1..] == [row[1], row[2]] && row[1..][1..] == [row[2]] && row[1..][1..][1..] == [];
    assert MoreFields([row[2]]) == ", " + c + MoreFields([]);
    assert MoreFields(row[1..]) == ", " + b + MoreFields([row[2]]);
    assert MoreFields(row[1..]) == ", " + b + (", " + c + "");
    assert "\"" + f.name + "\", \"" + extension + "\", " + TypeText(f.t) == a + (", " + b + (", " + c + ""));
  }

  /** `ExtensionFunction.create_map` on the records read; None is an exception. */
  function FunctionMap(records: seq<seq<string>>): Option<map<Function, string>> {
    if records == [] then Some(map[])
    else
      var x := records[|records| - 1];
      match FunctionMap(records[..|records| - 1])
      case None => None
      case Some(m) =>
        if |x| < 3 then None
        else match TypeFromText(x[2]) case None => None case Some(t) => Some(m[Function(x[0], t) := x[1]])
  }

  method CreateFunctionMap(records: seq<seq<string>>) returns (r: Option<map<Function, string>>)
    ensures r == FunctionMap(records)
  {
    var output: map<Function, string> := map[];
    for k := 0 to |records|
      invariant FunctionMap(records[..k]) == Some(output)
    {
      var x := records[k];
      assert records[..k + 1][..k] == records[..k];
      if |x| < 3 || TypeFromText(x[2]).None? {
        FailureStays(records, k + 1);
        return None;
      }
      output := output[Function(x[0], TypeFromText(x[2]).value) := x[1]];
    }
    assert records[..|records|] == records;
    r := Some(output);
  }

  lemma {:induction false} FailureStays(records: seq<seq<string>>, k: nat)
    requires k <= |records| && FunctionMap(records[..k]).None?
    ensures FunctionMap(records).None?
    decreases |records|
  {
    if k == |records| {
      assert records[..k] == records;
    } else {
      var front := records[..|records| - 1];
      assert front[..k] == records[..k];
      FailureStays(front, k);
    }
  }

  predicate GoodFunctions(m: map<Function, string>) {
    forall f :: f in m ==> Good(f.name) && Good(m[f])
  }

  lemma {:induction false} FunctionMapGood(records: seq<seq<string>>)
    requires forall r :: 0 <= r < |records| ==> GoodTokens(records[r])
    ensures FunctionMap(records).Some? ==> GoodFunctions(FunctionMap(records).value)
  {
    hide Good;
    if records != [] { FunctionMapGood(records[..|records| - 1]); }
  }

  /** The rows of the first k keys read as the map of these keys. */
  lemma {:induction false} FunctionsRead(m: map<Function, string>, order: seq<Function>, k: nat)
    requires Enumerates(order, m) && k <= |order|
    ensures FunctionMap(AllContents(FunctionTable(m, order))[..k]) == Some(map f | f in order[..k] :: m[f])
  {
    hide TypeText, TypeFromText, FunctionMap, AllContents, FunctionTable, Contents;
    var records := AllContents(FunctionTable(m, order));
    if k > 0 {
      var f := order[k - 1];
      FunctionsRead(m, order, k - 1);
      assert records[..k][..k - 1] == records[..k - 1];
      var x := records[k - 1];
      assert x == Contents(FunctionRow(f, m[f]));
      FunctionRead(records[..k], f, m[f]);
      assert order[..k] == order[..k - 1] + [f];
      assert (map g | g in order[..k] :: m[g]) == (map g | g in order[..k - 1] :: m[g])[f := m[f]];
    } else {
      assert records[..0] == [] && order[..0] == [];
      NoFunctions();
    }
  }

  lemma NoFunctions()
    ensures FunctionMap([]) == Some(map[])
  {
  }

  /** A function's row adds its entry. */
  lemma FunctionRead(records: seq<seq<string>>, f: Function, extension: string)
    requires records != [] && records[|records| - 1] == Contents(FunctionRow(f, extension))
    ensures var before := FunctionMap(records[..|records| - 1]);
            FunctionMap(records) == if before.None? then None else Some(before.value[f := extension])
  {
    hide TypeText, TypeFromText;
    TypeRead(f.t);
    var x := Contents(FunctionRow(f, extension));
    assert x[0] == f.name && x[1] == extension && x[2] == TypeText(f.t);
  }

  /** Exporting the function map and reading it back gives the map exactly when it is not empty and its names are
      good. */
  lemma FunctionsRoundTrip(m: map<Function, string>, order: seq<Function>)
    requires Enumerates(order, m)
    ensures FunctionMap(Records(TableText(FUNCTIONS, FunctionTable(m, order)))) == Some(m)
       <==> m != map[] && GoodFunctions(m)
  {
    hide Feed, TableText, Good, Records, FunctionMap, TypeText;
    var name, table := FUNCTIONS, FunctionTable(m, order);
    var records := Records(TableText(name, table));
    FunctionsIsName();
    EmptyTableFed(name);
    EmptyOrder(m, order);
    if m == map[] {
      assert order == [] && table == [];
      EmptyRecordFails();
    } else {
      if GoodFunctions(m) {
        assert GoodTable(table);
        TableRoundTrip(name, table);
        FunctionsRead(m, order, |order|);
        assert AllContents(table)[..|order|] == AllContents(table) && order[..|order|] == order;
        assert (map f | f in order :: m[f]) == m;
      }
      if FunctionMap(records) == Some(m) {
        RecordsGood(TableText(name, table));
        FunctionMapGood(records);
      }
    }
  }

  lemma FunctionsIsName()
    ensures IsName(FUNCTIONS) && IsName(OVERLOADS)
  {
    NameIsGood(FUNCTIONS);
    NameIsGood(OVERLOADS);
  }

  lemma EmptyOrder<V>(m: map<Function, V>, order: seq<Function>)
    requires Enumerates(order, m)
    ensures order == [] <==> m == map[]
  {
    if order != [] { assert order[0] in m; }
    if m != map[] {
      var f :| f in m;
      assert f in order;
    }
  }

  lemma EmptyRecordFails()
    ensures FunctionMap([[]]) == None
  {
    var none: seq<string> := [];
    assert [none][..0] == [];
  }

  lemma RecordsGood(text: string)
    ensures forall r :: 0 <= r < |Records(text)| ==> GoodTokens(Records(text)[r])
  {
    hide Good;
    TokensGood(START, text);
  }
}
