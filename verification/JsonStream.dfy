/** Query results streamed as JSON, chunk by chunk, and a reader that follows RFC 8259. Strings hold bytes. */
module JsonStream {
  import opened Options
  import opened Characters
  import opened Chunks

  /** A result value: NULL, a number by its text, a boolean, or anything else by its text. */
  datatype Value = Null | Number(text: string) | Boolean(b: bool) | Text(bytes: string)

  type Row = seq<Value>

  // ----- writing -----

  function HexDigit(n: nat): char
    requires n < 16
  {
    "0123456789abcdef"[n]
  }

  /** The escape of one byte: short forms first, then \u00xx for the other control characters. */
  function EscapeByte(c: char): string {
    if c == '"' then "\\\""
    else if c == '\\' then "\\\\"
    else if c == '\U{08}' then "\\b"
    else if c == '\U{0C}' then "\\f"
    else if c == '\n' then "\\n"
    else if c == '\r' then "\\r"
    else if c == '\t' then "\\t"
    else if c < '\U{20}' then "\\u00" + [HexDigit(c as int / 16), HexDigit(c as int % 16)]
    else [c]
  }

  function Escape(s: string): string {
    if s == "" then "" else EscapeByte(s[0]) + Escape(s[1..])
  }

  lemma {:induction false} EscapeConcat(a: string, b: string)
    ensures Escape(a + b) == Escape(a) + Escape(b)
  {
    if a == "" {
      assert a + b == b;
    } else {
      assert (a + b)[1..] == a[1..] + b;
      EscapeConcat(a[1..], b);
    }
  }

  method EscapeJSON(input: string) returns (output: string)
    ensures output == Escape(input)
  {
    output := "";
    for k := 0 to |input|
      invariant output == Escape(input[..k])
    {
      assert input[..k + 1] == input[..k] + [input[k]];
      EscapeConcat(input[..k], [input[k]]);
      output := output + EscapeByte(input[k]);
    }
    assert input[..|input|] == input;
  }

  function ValueText(v: Value): string {
    match v
    case Null => "null"
    case Number(text) => text
    case Boolean(b) => if b then "true" else "false"
    case Text(bytes) => "\"" + Escape(bytes) + "\""
  }

  function MemberText(name: string, v: Value): string {
    "\"" + Escape(name) + "\":" + ValueText(v)
  }

  /** The members from column k on. */
  function MembersFrom(names: seq<string>, row: Row, k: nat): string
    requires |row| == |names| && k <= |names|
    decreases |names| - k
  {
    if k == |names| then ""
    else (if k > 0 then "," else "") + MemberText(names[k], row[k]) + MembersFrom(names, row, k + 1)
  }

  function ObjectText(names: seq<string>, row: Row): string
    requires |row| == |names|
  {
    "{" + MembersFrom(names, row, 0) + "}"
  }

  predicate Rectangular(names: seq<string>, rows: seq<Row>) {
    forall r :: 0 <= r < |rows| ==> |rows[r]| == |names|
  }

  /** Rows that follow another row. */
  function TailText(names: seq<string>, rows: seq<Row>): string
    requires Rectangular(names, rows)
  {
    if rows == [] then "" else ",\n  " + ObjectText(names, rows[0]) + TailText(names, rows[1..])
  }

  function BodyText(names: seq<string>, rows: seq<Row>): string
    requires Rectangular(names, rows)
  {
    if rows == [] then "" else "\n  " + ObjectText(names, rows[0]) + TailText(names, rows[1..])
  }

  /** The whole document, without regard to chunks. */
  function DocumentText(names: seq<string>, rows: seq<Row>): string
    requires Rectangular(names, rows)
  {
    "[" + BodyText(names, rows) + if rows == [] then "]" else "\n]"
  }

  lemma {:induction false} TailConcat(names: seq<string>, a: seq<Row>, b: seq<Row>)
    requires Rectangular(names, a) && Rectangular(names, b)
    ensures TailText(names, a + b) == TailText(names, a) + TailText(names, b)
  {
    hide ObjectText;
    if a == [] {
      assert a + b == b;
    } else {
      assert (a + b)[1..] == a[1..] + b;
      TailConcat(names, a[1..], b);
      Associates(",\n  ", ObjectText(names, a[0]), TailText(names, a[1..]), TailText(names, b));
    }
  }

  lemma BodyConcat(names: seq<string>, a: seq<Row>, b: seq<Row>)
    requires Rectangular(names, a) && Rectangular(names, b)
    ensures BodyText(names, a + b) == BodyText(names, a) + if a == [] then BodyText(names, b) else TailText(names, b)
  {
    hide ObjectText, TailText;
    if a == [] {
      assert a + b == b;
    } else {
      assert (a + b)[1..] == a[1..] + b;
      TailConcat(names, a[1..], b);
      Associates("\n  ", ObjectText(names, a[0]), TailText(names, a[1..]), TailText(names, b));
    }
  }

  lemma Associates(a: string, b: string, c: string, d: string)
    ensures a + (b + c + d) == ((a + b) + c) + d == a + b + (c + d)
    ensures a + (b + c) == (a + b) + c
  {
  }

  predicate AllRectangular(names: seq<string>, chunks: seq<seq<Row>>) {
    forall k :: 0 <= k < |chunks| ==> Rectangular(names, chunks[k])
  }

  lemma {:induction false} DeliveredRectangular(names: seq<string>, chunks: seq<seq<Row>>)
    requires AllRectangular(names, chunks)
    ensures Rectangular(names, Delivered(chunks))
  {
    if chunks != [] && chunks[0] != [] { DeliveredRectangular(names, chunks[1..]); }
  }

  method WriteMember(name: string, v: Value) returns (member: string)
    ensures member == MemberText(name, v)
  {
    var escaped := EscapeJSON(name);
    member := "\"" + escaped + "\":";
    match v {
      case Null => member := member + "null";
      case Number(text) => member := member + text;
      case Boolean(b) => member := member + if b then "true" else "false";
      case Text(bytes) =>
        var value := EscapeJSON(bytes);
        member := member + ("\"" + value + "\"");
    }
  }

  method WriteRow(names: seq<string>, row: Row, before: string) returns (local_buf: string)
    requires |row| == |names|
    ensures local_buf == before + MembersFrom(names, row, 0) + "}"
  {
    hide MembersFrom, MemberText;
    local_buf := before;
    for col_idx := 0 to |names|
      invariant local_buf + MembersFrom(names, row, col_idx) == before + MembersFrom(names, row, 0)
    {
      var comma := if col_idx > 0 then "," else "";
      var member := WriteMember(names[col_idx], row[col_idx]);
      MembersStep(names, row, col_idx);
      Associates(local_buf, comma, member, MembersFrom(names, row, col_idx + 1));
      local_buf := local_buf + comma + member;
    }
    MembersEnd(names, row);
    assert local_buf + "" == local_buf;
    local_buf := local_buf + "}";
  }

  lemma MembersStep(names: seq<string>, row: Row, k: nat)
    requires |row| == |names| && k < |names|
    ensures MembersFrom(names, row, k) ==
              (if k > 0 then "," else "") + MemberText(names[k], row[k]) + MembersFrom(names, row, k + 1)
  {
  }

  lemma MembersEnd(names: seq<string>, row: Row)
    requires |row| == |names|
    ensures MembersFrom(names, row, |names|) == ""
  {
  }

  /** One chunk of rows: the first row of all has no comma before it. */
  method WriteChunk(names: seq<string>, chunk: seq<Row>, first_chunk: bool) returns (local_buf: string)
    requires Rectangular(names, chunk)
    ensures local_buf == if first_chunk then BodyText(names, chunk) else TailText(names, chunk)
  {
    hide BodyText, TailText, ObjectText;
    local_buf := "";
    NoRows(names, chunk);
    for i := 0 to |chunk|
      invariant local_buf == if first_chunk then BodyText(names, chunk[..i]) else TailText(names, chunk[..i])
    {
      ghost var before := local_buf;
      var open := if first_chunk && i == 0 then "\n  {" else ",\n  {";
      local_buf := local_buf + open;
      local_buf := WriteRow(names, chunk[i], local_buf);
      assert chunk[..i + 1] == chunk[..i] + [chunk[i]];
      OneRow(names, chunk[i]);
      RowWritten(before, open, MembersFrom(names, chunk[i], 0));
      if first_chunk {
        BodyConcat(names, chunk[..i], [chunk[i]]);
      } else {
        TailConcat(names, chunk[..i], [chunk[i]]);
      }
    }
    assert chunk[..|chunk|] == chunk;
  }

  lemma RowWritten(before: string, open: string, members: string)
    ensures before + open + members + "}" == before + (open + members + "}")
  {
  }

  lemma NoRows(names: seq<string>, chunk: seq<Row>)
    requires Rectangular(names, chunk)
    ensures BodyText(names, chunk[..0]) == "" && TailText(names, chunk[..0]) == ""
  {
  }

  lemma OneRow(names: seq<string>, row: Row)
    requires |row| == |names|
    ensures TailText(names, [row]) == ",\n  {" + MembersFrom(names, row, 0) + "}"
    ensures BodyText(names, [row]) == "\n  {" + MembersFrom(names, row, 0) + "}"
  {
    hide MembersFrom;
    var m := MembersFrom(names, row, 0);
    assert [row][1..] == [] && TailText(names, []) == "";
    assert ObjectText(names, row) == "{" + m + "}";
    Braced(",\n  ", m);
    Braced("\n  ", m);
    assert ",\n  " + "{" == ",\n  {" && "\n  " + "{" == "\n  {";
  }

  lemma Braced(before: string, m: string)
    ensures before + ("{" + m + "}") + "" == before + "{" + m + "}"
  {
  }

  /** The content provider of the JSON endpoint: what is left to fetch, and what has been sent. */
  class ContentProvider {
    const names: seq<string>
    var chunks: seq<seq<Row>>
    var open: bool
    var first_chunk: bool
    var sent: string
    ghost var rows: seq<Row>

    ghost predicate Valid()
      reads this
    {
      && AllRectangular(names, chunks) && Rectangular(names, rows)
      && (first_chunk <==> rows == [])
      && (open ==> sent == if first_chunk then "" else "[" + BodyText(names, rows))
      && (!open ==> chunks == [] && sent == DocumentText(names, rows))
    }

    constructor (names': seq<string>, result: seq<seq<Row>>)
      requires AllRectangular(names', result)
      ensures Valid() && open && names == names' && chunks == result && rows == []
    {
      names, chunks, open, first_chunk, sent, rows := names', result, true, true, "", [];
    }

    /** One call of the provider: the next chunk, or the end. */
    method Provide()
      requires Valid()
      modifies this
      ensures Valid()
      ensures rows + Delivered(chunks) == old(rows) + old(Delivered(chunks))
      ensures open <==> old(open) && old(chunks) != [] && old(chunks)[0] != []
      ensures open ==> chunks == old(chunks)[1..] && rows == old(rows) + old(chunks)[0]
      ensures !open ==> chunks == [] && rows == old(rows)
    {
      hide BodyText, TailText, ObjectText, DocumentText;
      if !open {
        return;
      }
      NoRows(names, rows);
      assert rows[..0] == [] && "" + "[" == "[" == "[" + "";
      if first_chunk {
        sent := sent + "[";
      }
      if chunks == [] || chunks[0] == [] {
        Close();
        return;
      }
      var chunk := chunks[0];
      var local_buf := WriteChunk(names, chunk, first_chunk);
      BodyConcat(names, rows, chunk);
      sent := sent + local_buf;
      first_chunk := false;
      assert rows + (chunk + Delivered(chunks[1..])) == (rows + chunk) + Delivered(chunks[1..]);
      rows := rows + chunk;
      chunks := chunks[1..];
    }

    /** Nothing more to fetch: the closing bracket. */
    method Close()
      requires open && Rectangular(names, rows) && (first_chunk <==> rows == [])
      requires sent == "[" + BodyText(names, rows)
      modifies this
      ensures Valid() && !open && rows == old(rows) && chunks == []
    {
      if first_chunk {
        sent := sent + "]";
      } else {
        sent := sent + "\n]";
      }
      open := false;
      chunks := [];
    }
  }

  /** The whole stream: the provider is called until the result is closed. The bytes sent depend on the rows alone. */
  method Stream(names: seq<string>, result: seq<seq<Row>>) returns (sent: string)
    requires AllRectangular(names, result)
    ensures (DeliveredRectangular(names, result); sent == DocumentText(names, Delivered(result)))
  {
    DeliveredRectangular(names, result);
    var provider := new ContentProvider(names, result);
    assert provider.rows + Delivered(provider.chunks) == Delivered(result);
    while provider.open
      invariant provider.Valid() && provider.names == names
                && provider.rows + Delivered(provider.chunks) == Delivered(result)
      decreases provider.open, |provider.chunks|
    {
      provider.Provide();
    }
    assert provider.rows + [] == provider.rows;
    sent := provider.sent;
  }

  // ----- a reader for RFC 8259: values (section 3), objects (4), arrays (5), numbers (6) and strings (7) -----

  predicate IsWhitespace(c: char) {
    c == ' ' || c == '\t' || c == '\n' || c == '\r'
  }

  function SkipSpace(s: string, i: nat): (j: nat)
    requires i <= |s|
    ensures i <= j <= |s|
    decreases |s| - i
  {
    if i < |s| && IsWhitespace(s[i]) then SkipSpace(s, i + 1) else i
  }

  predicate At(s: string, i: nat, t: string) {
    i + |t| <= |s| && s[i..i + |t|] == t
  }

  /** Section 7: the rest of a string after its opening quote, and the place after the closing one. A \u escape is read
      below U+0080, where it is one byte. */
  function ReadString(s: string, i: nat): (r: Option<(string, nat)>)
    requires i <= |s|
    ensures r.Some? ==> i < r.value.1 <= |s|
    decreases |s| - i
  {
    if i == |s| || s[i] < '\U{20}' then None
    else if s[i] == '"' then Some(("", i + 1))
    else if s[i] != '\\' then PrependByte(s[i], ReadString(s, i + 1))
    else if i + 1 == |s| then None
    else if s[i + 1] == 'u' then
      if i + 6 > |s| then None
      else
        match ReadCode(s[i + 2], s[i + 3], s[i + 4], s[i + 5])
        case None => None
        case Some(c) => PrependByte(c, ReadString(s, i + 6))
    else
      match ShortEscape(s[i + 1])
      case None => None
      case Some(c) => PrependByte(c, ReadString(s, i + 2))
  }

  function PrependByte(c: char, r: Option<(string, nat)>): Option<(string, nat)> {
    match r case None => None case Some((t, j)) => Some(([c] + t, j))
  }

  function ShortEscape(c: char): Option<char> {
    if c == '"' || c == '\\' || c == '/' then Some(c)
    else if c == 'b' then Some('\U{08}')
    else if c == 'f' then Some('\U{0C}')
    else if c == 'n' then Some('\n')
    else if c == 'r' then Some('\r')
    else if c == 't' then Some('\t')
    else None
  }

  function ReadCode(a: char, b: char, c: char, d: char): Option<char> {
    match (HexValue(a), HexValue(b), HexValue(c), HexValue(d))
    case (Some(w), Some(x), Some(y), Some(z)) =>
      var code := ((w * 16 + x) * 16 + y) * 16 + z;
      if code < 0x80 then Some(code as char) else None
    case _ => None
  }

  function Digits(t: string, i: nat): (j: nat)
    requires i <= |t|
    ensures i <= j <= |t| && forall k :: i <= k < j ==> IsDigit(t[k])
    decreases |t| - i
  {
    if i < |t| && IsDigit(t[i]) then Digits(t, i + 1) else i
  }

  function FractionEnd(t: string, b: nat): (r: Option<nat>)
    requires b <= |t|
    ensures r.Some? ==> b <= r.value <= |t|
  {
    if b == |t| || t[b] != '.' then Some(b)
    else var c := Digits(t, b + 1); if b + 1 < c then Some(c) else None
  }

  function ExponentEnd(t: string, c: nat): (r: Option<nat>)
    requires c <= |t|
    ensures r.Some? ==> c <= r.value <= |t|
  {
    if c == |t| || (t[c] != 'e' && t[c] != 'E') then Some(c)
    else
      var d := if c + 1 < |t| && (t[c + 1] == '+' || t[c + 1] == '-') then c + 2 else c + 1;
      var e := Digits(t, d);
      if d < e then Some(e) else None
  }

  /** Section 6: an optional minus, an integer without leading zeros, an optional fraction, an optional exponent. */
  predicate IsNumber(t: string) {
    var a := if t != "" && t[0] == '-' then 1 else 0;
    var b := Digits(t, a);
    && a < b && (t[a] == '0' ==> b == a + 1)
    && FractionEnd(t, b).Some? && ExponentEnd(t, FractionEnd(t, b).value) == Some(|t|)
  }

  // ----- the grammar of section 6, and the escapes of section 7 -----

  predicate SomeDigits(s: string) {
    s != "" && forall k :: 0 <= k < |s| ==> '0' <= s[k] <= '9'
  }

  predicate IsInteger(s: string) {
    SomeDigits(s) && (s[0] == '0' ==> s == "0")
  }

  predicate IsFraction(s: string) {
    s == "" || (s[0] == '.' && SomeDigits(s[1..]))
  }

  predicate IsExponent(s: string) {
    s == "" || ((s[0] == 'e' || s[0] == 'E')
                && (SomeDigits(s[1..]) || (|s| > 1 && (s[1] == '+' || s[1] == '-') && SomeDigits(s[2..]))))
  }

  /** The four parts of a number. */
  predicate NumberParts(t: string, sign: string, int_: string, frac: string, exp: string) {
    && t == sign + int_ + frac + exp
    && (sign == "" || sign == "-") && IsInteger(int_) && IsFraction(frac) && IsExponent(exp)
  }

  lemma {:induction false} DigitsEnd(t: string, i: nat, j: nat)
    requires i <= j <= |t| && (forall k :: i <= k < j ==> IsDigit(t[k])) && (j < |t| ==> !IsDigit(t[j]))
    ensures Digits(t, i) == j
    decreases j - i
  {
    if i < j { DigitsEnd(t, i + 1, j); }
  }

  lemma DigitsStop(t: string, i: nat)
    requires i <= |t|
    ensures Digits(t, i) < |t| ==> !IsDigit(t[Digits(t, i)])
    decreases |t| - i
  {
  }

  /** Digits that end a text, or stand before a part that does not begin with one. */
  lemma PartDigits(t: string, a: nat, digits: string, rest: string)
    requires a + |digits| <= |t| && t[a..a + |digits|] == digits && t[a + |digits|..] == rest
    requires (forall k :: 0 <= k < |digits| ==> '0' <= digits[k] <= '9') && (rest != "" ==> !IsDigit(rest[0]))
    ensures Digits(t, a) == a + |digits|
  {
    forall k | a <= k < a + |digits| ensures IsDigit(t[k]) { assert t[a..a + |digits|][k - a] == t[k]; }
    if rest != "" { assert t[a + |digits|..][0] == t[a + |digits|]; }
    DigitsEnd(t, a, a + |digits|);
  }

  lemma ExponentIs(t: string, c: nat)
    requires c <= |t|
    ensures ExponentEnd(t, c) == Some(|t|) <==> IsExponent(t[c..])
  {
    var s := t[c..];
    if c < |t| && (t[c] == 'e' || t[c] == 'E') {
      var d := if c + 1 < |t| && (t[c + 1] == '+' || t[c + 1] == '-') then c + 2 else c + 1;
      assert s[0] == t[c] && s[d - c..] == t[d..];
      if c + 1 < |t| { assert s[1] == t[c + 1]; }
      AllDigits(t, d);
      if d == c + 2 { assert s[1..][0] == t[c + 1]; }
    }
  }

  /** Digits to the end of the text. */
  lemma AllDigits(t: string, d: nat)
    requires d <= |t|
    ensures (d < |t| && Digits(t, d) == |t|) <==> SomeDigits(t[d..])
  {
    if Digits(t, d) == |t| {
      forall k | 0 <= k < |t[d..]| ensures '0' <= t[d..][k] <= '9' { assert t[d..][k] == t[d + k]; }
    }
    if SomeDigits(t[d..]) {
      forall k | d <= k < |t| ensures IsDigit(t[k]) { assert t[d..][k - d] == t[k]; }
      DigitsEnd(t, d, |t|);
    }
  }

  /** A text is a number exactly when it has these parts. */
  lemma NumberGrammar(t: string)
    ensures IsNumber(t) <==> exists sign, int_, frac, exp :: NumberParts(t, sign, int_, frac, exp)
  {
    hide ExponentEnd, IsExponent, Digits;
    if IsNumber(t) { NumberHasParts(t); }
    forall sign, int_, frac, exp | NumberParts(t, sign, int_, frac, exp) ensures IsNumber(t) {
      PartsAreNumber(t, sign, int_, frac, exp);
    }
  }

  lemma NumberHasParts(t: string)
    requires IsNumber(t)
    ensures exists sign, int_, frac, exp :: NumberParts(t, sign, int_, frac, exp)
  {
    hide ExponentEnd, IsExponent, Digits;
    var a := if t != "" && t[0] == '-' then 1 else 0;
    var b := Digits(t, a);
    var c := FractionEnd(t, b).value;
    ExponentIs(t, c);
    var sign, int_, frac, exp := t[..a], t[a..b], t[b..c], t[c..];
    IntegerPart(t, a);
    FractionPart(t, b);
    hide IsInteger, IsFraction, FractionEnd;
    FourSlices(t, a, b, c);
    assert sign == "" || sign == "-";
    assert NumberParts(t, sign, int_, frac, exp);
  }

  lemma FourSlices(t: string, a: nat, b: nat, c: nat)
    requires a <= b <= c <= |t|
    ensures t == t[..a] + t[a..b] + t[b..c] + t[c..]
  {
  }

  lemma IntegerPart(t: string, a: nat)
    requires a <= |t| && a < Digits(t, a) && (t[a] == '0' ==> Digits(t, a) == a + 1)
    ensures IsInteger(t[a..Digits(t, a)])
  {
    hide Digits;
    var int_ := t[a..Digits(t, a)];
    forall k | 0 <= k < |int_| ensures '0' <= int_[k] <= '9' { assert int_[k] == t[a + k]; }
    assert int_[0] == t[a];
    if t[a] == '0' { assert int_ == [t[a]]; }
  }

  lemma FractionPart(t: string, b: nat)
    requires b <= |t| && FractionEnd(t, b).Some?
    ensures IsFraction(t[b..FractionEnd(t, b).value])
  {
    hide Digits;
    var frac := t[b..FractionEnd(t, b).value];
    if frac != "" {
      assert frac[0] == t[b];
      forall k | 0 <= k < |frac[1..]| ensures '0' <= frac[1..][k] <= '9' { assert frac[1..][k] == t[b + 1 + k]; }
    }
  }

  lemma PartsAreNumber(t: string, sign: string, int_: string, frac: string, exp: string)
    requires NumberParts(t, sign, int_, frac, exp)
    ensures IsNumber(t)
  {
    hide ExponentEnd, Digits, IsExponent, FractionEnd, IsInteger, IsFraction;
    var a := |sign|;
    var b := a + |int_|;
    var c := b + |frac|;
    IntegerHead(int_);
    PartsAt(t, sign, int_, frac, exp);
    if frac != "" { FractionHead(frac); }
    if exp != "" { ExponentHead(exp); }
    PartDigits(t, a, int_, frac + exp);
    ExponentIs(t, c);
    FractionEnds(t, b, c, frac, exp);
    NumberFrom(t, a, b, c);
  }

  lemma NumberFrom(t: string, a: nat, b: nat, c: nat)
    requires a < b <= c <= |t| && a == (if t[0] == '-' then 1 else 0) && Digits(t, a) == b
    requires (t[a] == '0' ==> b == a + 1) && FractionEnd(t, b) == Some(c) && ExponentEnd(t, c) == Some(|t|)
    ensures IsNumber(t)
  {
    hide Digits, FractionEnd, ExponentEnd;
  }

  lemma IntegerHead(s: string)
    requires IsInteger(s)
    ensures s != "" && '0' <= s[0] <= '9' && (s[0] == '0' ==> |s| == 1)
    ensures forall k :: 0 <= k < |s| ==> '0' <= s[k] <= '9'
  {
  }

  lemma FractionHead(s: string)
    requires IsFraction(s) && s != ""
    ensures s[0] == '.'
  {
  }

  lemma FractionEnds(t: string, b: nat, c: nat, frac: string, exp: string)
    requires b <= c <= |t| && t[b..c] == frac && t[c..] == exp && IsFraction(frac)
    requires exp != "" ==> exp[0] == 'e' || exp[0] == 'E'
    ensures FractionEnd(t, b) == Some(c)
  {
    hide Digits;
    if frac != "" {
      FractionAt(t, b, c, frac);
      PartDigits(t, b + 1, frac[1..], exp);
    } else if exp != "" {
      assert t[c..][0] == t[b];
    }
  }

  lemma FractionAt(t: string, b: nat, c: nat, frac: string)
    requires b <= c <= |t| && t[b..c] == frac && frac != ""
    ensures t[b] == frac[0] && t[b + 1..c] == frac[1..]
  {
    assert t[b..c][0] == t[b];
  }

  lemma ExponentHead(exp: string)
    requires IsExponent(exp) && exp != ""
    ensures exp[0] == 'e' || exp[0] == 'E'
  {
  }

  lemma PartsAt(t: string, sign: string, int_: string, frac: string, exp: string)
    requires t == sign + int_ + frac + exp && int_ != ""
    ensures var a := |sign|; var b := a + |int_|; var c := b + |frac|;
            && c + |exp| == |t|
            && t[a..b] == int_ && t[b..] == frac + exp && t[b..c] == frac && t[c..] == exp
            && t[a] == int_[0] && (sign != "" ==> t[0] == sign[0]) && (frac == "" && exp != "" ==> t[b] == exp[0])
  {
  }

  const ESCAPES := "\"\\/bfnrt"
  const ESCAPED: seq<nat> := [0x22, 0x5C, 0x2F, 0x08, 0x0C, 0x0A, 0x0D, 0x09]

  lemma Blanks(c: char)
    ensures IsWhitespace(c) <==> c in " \t\n\r"
  {
  }

  /** The short escapes, and those with four hexadecimal digits. */
  lemma EscapeTable(k: nat, w: nat, x: nat, y: nat, z: nat)
    requires k < 8 && w < 16 && x < 16 && y < 16 && z < 16
    ensures |ESCAPES| == |ESCAPED| == 8 && ShortEscape(ESCAPES[k]) == Some(ESCAPED[k] as char)
    ensures var digits, code := "0123456789abcdef", w * 4096 + x * 256 + y * 16 + z;
            ReadCode(digits[w], digits[x], digits[y], digits[z]) == if code < 128 then Some(code as char) else None
  {
    HexDigits(w);
    HexDigits(x);
    HexDigits(y);
    HexDigits(z);
  }

  predicate IsNumberCharacter(c: char) {
    IsDigit(c) || c == '-' || c == '+' || c == '.' || c == 'e' || c == 'E'
  }

  function NumberRun(s: string, i: nat): (j: nat)
    requires i <= |s|
    ensures i <= j <= |s|
    decreases |s| - i
  {
    if i < |s| && IsNumberCharacter(s[i]) then NumberRun(s, i + 1) else i
  }

  predicate IsGood(v: Value) {
    v.Number? ==> IsNumber(v.text)
  }

  function ReadValue(s: string, i: nat): (r: Option<(Value, nat)>)
    requires i <= |s|
    ensures r.Some? ==> i < r.value.1 <= |s| && IsGood(r.value.0)
  {
    if i < |s| && s[i] == '"' then
      match ReadString(s, i + 1) case None => None case Some((t, j)) => Some((Text(t), j))
    else if At(s, i, "null") then Some((Null, i + 4))
    else if At(s, i, "true") then Some((Boolean(true), i + 4))
    else if At(s, i, "false") then Some((Boolean(false), i + 5))
    else
      var j := NumberRun(s, i);
      if i < j && IsNumber(s[i..j]) then Some((Number(s[i..j]), j)) else None
  }

  type Member = (string, Value)

  function ReadMember(s: string, i: nat): (r: Option<(Member, nat)>)
    requires i <= |s|
    ensures r.Some? ==> i < r.value.1 <= |s| && IsGood(r.value.0.1)
  {
    if i == |s| || s[i] != '"' then None
    else
      match ReadString(s, i + 1)
      case None => None
      case Some((name, j)) =>
        var c := SkipSpace(s, j);
        if c == |s| || s[c] != ':' then None
        else match ReadValue(s, SkipSpace(s, c + 1)) case None => None case Some((v, e)) => Some(((name, v), e))
  }

  predicate GoodMembers(ms: seq<Member>) {
    forall k :: 0 <= k < |ms| ==> IsGood(ms[k].1)
  }

  /** Section 4: members up to the closing brace. */
  function ReadMembers(s: string, i: nat): (r: Option<(seq<Member>, nat)>)
    requires i <= |s|
    ensures r.Some? ==> i < r.value.1 <= |s| && GoodMembers(r.value.0)
    decreases |s| - i
  {
    match ReadMember(s, i)
    case None => None
    case Some((m, j)) =>
      var c := SkipSpace(s, j);
      if c == |s| then None
      else if s[c] == '}' then Some(([m], c + 1))
      else if s[c] != ',' then None
      else match ReadMembers(s, SkipSpace(s, c + 1)) case None => None case Some((ms, e)) => Some(([m] + ms, e))
  }

  function ReadObject(s: string, i: nat): (r: Option<(seq<Member>, nat)>)
    requires i <= |s|
    ensures r.Some? ==> i < r.value.1 <= |s| && GoodMembers(r.value.0)
  {
    if i == |s| || s[i] != '{' then None
    else
      var j := SkipSpace(s, i + 1);
      if j < |s| && s[j] == '}' then Some(([], j + 1)) else ReadMembers(s, j)
  }

  /** Section 5: objects up to the closing bracket, which ends the document. */
  function ReadObjects(s: string, i: nat): (r: Option<seq<seq<Member>>>)
    requires i <= |s|
    ensures r.Some? ==> forall k :: 0 <= k < |r.value| ==> GoodMembers(r.value[k])
    decreases |s| - i
  {
    match ReadObject(s, i)
    case None => None
    case Some((ms, j)) =>
      var c := SkipSpace(s, j);
      if c == |s| then None
      else if s[c] == ']' then if SkipSpace(s, c + 1) == |s| then Some([ms]) else None
      else if s[c] != ',' then None
      else match ReadObjects(s, SkipSpace(s, c + 1)) case None => None case Some(rest) => Some([ms] + rest)
  }

  /** A document that is an array of objects. */
  function ReadDocument(s: string): (r: Option<seq<seq<Member>>>)
    ensures r.Some? ==> forall k :: 0 <= k < |r.value| ==> GoodMembers(r.value[k])
  {
    var i := SkipSpace(s, 0);
    if i == |s| || s[i] != '[' then None
    else
      var j := SkipSpace(s, i + 1);
      if j < |s| && s[j] == ']' then if SkipSpace(s, j + 1) == |s| then Some([]) else None
      else ReadObjects(s, j)
  }

  // ----- reading what was written -----

  lemma AtSplit(s: string, i: nat, a: string, b: string)
    requires At(s, i, a + b)
    ensures At(s, i, a) && At(s, i + |a|, b)
  {
    var t := s[i..i + |a + b|];
    assert t[..|a|] == a && t[|a|..] == b;
    assert s[i..i + |a|] == t[..|a|] && s[i + |a|..i + |a| + |b|] == t[|a|..];
  }

  lemma AtFirst(s: string, i: nat, t: string)
    requires At(s, i, t) && t != ""
    ensures i < |s| && s[i] == t[0]
  {
    assert s[i..i + |t|][0] == s[i];
  }

  /** One escaped byte is read back. */
  lemma ByteRead(s: string, i: nat, c: char)
    requires At(s, i, EscapeByte(c))
    ensures ReadString(s, i) == PrependByte(c, ReadString(s, i + |EscapeByte(c)|))
  {
    hide At;
    var e := EscapeByte(c);
    AtIndex(s, i, e);
    assert s[i + 0] == e[0];
    if |e| > 1 { assert s[i + 1] == e[1]; }
    if |e| == 6 {
      assert s[i + 2] == e[2] && s[i + 3] == e[3] && s[i + 4] == e[4] && s[i + 5] == e[5];
      CodeRead(c);
    }
  }

  lemma AtIndex(s: string, i: nat, t: string)
    requires At(s, i, t)
    ensures i + |t| <= |s| && forall k :: 0 <= k < |t| ==> s[i + k] == t[k]
  {
    forall k {:trigger t[k]} | 0 <= k < |t| ensures s[i + k] == t[k] { assert s[i..i + |t|][k] == t[k]; }
  }

  lemma CodeRead(c: char)
    requires |EscapeByte(c)| == 6
    ensures var e := EscapeByte(c); e[0] == '\\' && e[1] == 'u' && ReadCode(e[2], e[3], e[4], e[5]) == Some(c)
  {
    var n := c as int;
    HexRead(n / 16);
    HexRead(n % 16);
    HexRead(0);
  }

  lemma HexRead(n: nat)
    requires n < 16
    ensures HexValue(HexDigit(n)) == Some(n)
  {
  }

  lemma QuoteRead(s: string, i: nat)
    requires At(s, i, "\"")
    ensures i < |s| && ReadString(s, i) == Some(("", i + 1))
  {
    AtFirst(s, i, "\"");
  }

  /** Every byte string survives escaping. */
  lemma {:induction false} EscapeRead(s: string, i: nat, t: string)
    requires At(s, i, Escape(t) + "\"")
    ensures i + |Escape(t)| + 1 <= |s| && ReadString(s, i) == Some((t, i + |Escape(t)| + 1))
    decreases |t|
  {
    hide ReadString, At, EscapeByte;
    if t == "" {
      assert Escape(t) + "\"" == "\"";
      QuoteRead(s, i);
    } else {
      var rest := Escape(t[1..]) + "\"";
      assert Escape(t) + "\"" == EscapeByte(t[0]) + rest;
      AtSplit(s, i, EscapeByte(t[0]), rest);
      EscapeRead(s, i + |EscapeByte(t[0])|, t[1..]);
      ByteRead(s, i, t[0]);
      assert |Escape(t)| == |EscapeByte(t[0])| + |Escape(t[1..])|;
      assert [t[0]] + t[1..] == t;
    }
  }

  // ----- values, members, objects -----

  lemma NoSpace(s: string, i: nat)
    requires i < |s| && !IsWhitespace(s[i])
    ensures SkipSpace(s, i) == i
  {
  }

  lemma NumberCharacters(t: string)
    requires IsNumber(t)
    ensures t != "" && forall k :: 0 <= k < |t| ==> IsNumberCharacter(t[k])
  {
    hide Digits;
  }

  lemma {:induction false} RunEnds(s: string, i: nat, e: nat)
    requires i <= e < |s| && !IsNumberCharacter(s[e]) && forall k :: i <= k < e ==> IsNumberCharacter(s[k])
    ensures NumberRun(s, i) == e
    decreases e - i
  {
    if i < e { RunEnds(s, i + 1, e); }
  }

  predicate EndsValue(c: char) {
    c == ',' || c == '}'
  }

  lemma ValueRead(s: string, i: nat, v: Value)
    requires IsGood(v) && At(s, i, ValueText(v)) && i + |ValueText(v)| < |s| && EndsValue(s[i + |ValueText(v)|])
    ensures i < |s| && !IsWhitespace(s[i]) && ReadValue(s, i) == Some((v, i + |ValueText(v)|))
  {
    hide ReadString, Escape, IsNumber;
    var t := ValueText(v);
    match v {
      case Null => AtFirst(s, i, "null");
      case Boolean(b) => AtFirst(s, i, t); AtIndex(s, i, t); LiteralRead(s, i, b);
      case Text(bytes) =>
        assert t == "\"" + (Escape(bytes) + "\"");
        AtSplit(s, i, "\"", Escape(bytes) + "\"");
        AtFirst(s, i, "\"");
        EscapeRead(s, i + 1, bytes);
      case Number(text) =>
        NumberCharacters(text);
        AtIndex(s, i, text);
        NumberRead(s, i, text);
    }
  }

  lemma LiteralRead(s: string, i: nat, b: bool)
    requires At(s, i, if b then "true" else "false")
    ensures ReadValue(s, i) == Some((Boolean(b), i + if b then 4 else 5))
  {
    AtFirst(s, i, if b then "true" else "false");
    if At(s, i, "null") { AtFirst(s, i, "null"); }
    if At(s, i, "true") { AtFirst(s, i, "true"); }
  }

  lemma NumberRead(s: string, i: nat, t: string)
    requires IsNumber(t) && At(s, i, t) && i + |t| < |s| && EndsValue(s[i + |t|])
    requires t != "" && forall k :: 0 <= k < |t| ==> IsNumberCharacter(t[k])
    ensures ReadValue(s, i) == Some((Number(t), i + |t|)) && !IsWhitespace(s[i])
  {
    hide IsNumber;
    AtFirst(s, i, t);
    forall k | i <= k < i + |t| ensures IsNumberCharacter(s[k]) { assert s[i..i + |t|][k - i] == t[k - i]; }
    RunEnds(s, i, i + |t|);
    if At(s, i, "null") { AtFirst(s, i, "null"); }
    if At(s, i, "true") { AtFirst(s, i, "true"); }
    if At(s, i, "false") { AtFirst(s, i, "false"); }
  }

  lemma MemberRead(s: string, i: nat, name: string, v: Value)
    requires IsGood(v) && At(s, i, MemberText(name, v))
    requires i + |MemberText(name, v)| < |s| && EndsValue(s[i + |MemberText(name, v)|])
    ensures ReadMember(s, i) == Some(((name, v), i + |MemberText(name, v)|)) && i < |s| && !IsWhitespace(s[i])
  {
    hide ReadString, ReadValue, Escape, ValueText, At, IsGood;
    var q := Escape(name) + "\"";
    var j := i + 1 + |q|;
    assert MemberText(name, v) == "\"" + (q + (":" + ValueText(v)));
    AtSplit(s, i, "\"", q + (":" + ValueText(v)));
    AtFirst(s, i, "\"");
    AtSplit(s, i + 1, q, ":" + ValueText(v));
    EscapeRead(s, i + 1, name);
    AtSplit(s, j, ":", ValueText(v));
    AtFirst(s, j, ":");
    NoSpace(s, j);
    ValueRead(s, j + 1, v);
    NoSpace(s, j + 1);
  }

  function Members(names: seq<string>, row: Row, k: nat): (ms: seq<Member>)
    requires |row| == |names| && k <= |names|
    ensures |ms| == |names| - k
    decreases |names| - k
  {
    if k == |names| then [] else [(names[k], row[k])] + Members(names, row, k + 1)
  }

  predicate GoodRow(row: Row) {
    forall k :: 0 <= k < |row| ==> IsGood(row[k])
  }

  /** The members from k on, without the comma before them. */
  lemma {:induction false} MembersRead(s: string, i: nat, names: seq<string>, row: Row, k: nat)
    requires |row| == |names| && k < |names| && GoodRow(row)
    requires At(s, i, MemberText(names[k], row[k]) + (MembersFrom(names, row, k + 1) + "}"))
    ensures i < |s| && !IsWhitespace(s[i])
    ensures ReadMembers(s, i) ==
              Some((Members(names, row, k), i + |MemberText(names[k], row[k])| + |MembersFrom(names, row, k + 1)| + 1))
    decreases |names| - k
  {
    hide At, ReadMember, ReadMembers, MemberText, MembersFrom;
    var m, after := MemberText(names[k], row[k]), MembersFrom(names, row, k + 1) + "}";
    var j := i + |m|;
    AtSplit(s, i, m, after);
    AtFirst(s, j, after);
    if k + 1 == |names| {
      MembersEnd(names, row);
      assert after == "}" && s[j] == '}';
      MemberRead(s, i, names[k], row[k]);
      assert Members(names, row, k) == [(names[k], row[k])];
      LastMember(s, i, (names[k], row[k]), j);
    } else {
      var m2, rest := MemberText(names[k + 1], row[k + 1]), MembersFrom(names, row, k + 2);
      MembersStep(names, row, k + 1);
      Associates(",", m2, rest, "}");
      assert after == "," + (m2 + (rest + "}"));
      MemberRead(s, i, names[k], row[k]);
      AtSplit(s, j, ",", m2 + (rest + "}"));
      MembersRead(s, j + 1, names, row, k + 1);
      NextMember(s, i, (names[k], row[k]), j);
    }
  }

  lemma LastMember(s: string, i: nat, m: Member, j: nat)
    requires i <= |s| && ReadMember(s, i) == Some((m, j)) && j < |s| && s[j] == '}'
    ensures ReadMembers(s, i) == Some(([m], j + 1))
  {
    NoSpace(s, j);
  }

  lemma NextMember(s: string, i: nat, m: Member, j: nat)
    requires i <= |s| && ReadMember(s, i) == Some((m, j)) && j + 1 < |s| && s[j] == ',' && !IsWhitespace(s[j + 1])
    requires ReadMembers(s, j + 1).Some?
    ensures ReadMembers(s, i) == Some(([m] + ReadMembers(s, j + 1).value.0, ReadMembers(s, j + 1).value.1))
  {
    hide ReadMember;
    NoSpace(s, j);
    NoSpace(s, j + 1);
  }

  lemma ObjectRead(s: string, i: nat, names: seq<string>, row: Row)
    requires |row| == |names| && GoodRow(row) && At(s, i, ObjectText(names, row))
    ensures i < |s| && !IsWhitespace(s[i])
    ensures ReadObject(s, i) == Some((Members(names, row, 0), i + |ObjectText(names, row)|))
  {
    hide At, ReadMembers, MemberText;
    var inner := MembersFrom(names, row, 0) + "}";
    assert ObjectText(names, row) == "{" + inner;
    AtSplit(s, i, "{", inner);
    AtFirst(s, i, "{");
    if names == [] {
      assert inner == "}";
      AtFirst(s, i + 1, "}");
      NoSpace(s, i + 1);
    } else {
      var m := MemberText(names[0], row[0]);
      assert inner == m + (MembersFrom(names, row, 1) + "}");
      MembersRead(s, i + 1, names, row, 0);
      NoSpace(s, i + 1);
      MemberStarts(names[0], row[0]);
      AtFirst(s, i + 1, inner);
    }
  }

  lemma MemberStarts(name: string, v: Value)
    ensures MemberText(name, v) != "" && MemberText(name, v)[0] == '"'
  {
  }

  function Table(names: seq<string>, rows: seq<Row>): (t: seq<seq<Member>>)
    requires Rectangular(names, rows)
    ensures |t| == |rows|
  {
    if rows == [] then [] else [Members(names, rows[0], 0)] + Table(names, rows[1..])
  }

  predicate GoodRows(rows: seq<Row>) {
    forall r :: 0 <= r < |rows| ==> GoodRow(rows[r])
  }

  /** The rows from the object at i on, to the end of the document. */
  lemma {:induction false} ObjectsRead(s: string, i: nat, names: seq<string>, rows: seq<Row>)
    requires rows != [] && Rectangular(names, rows) && GoodRows(rows) && i <= |s|
    requires s[i..] == ObjectText(names, rows[0]) + (TailText(names, rows[1..]) + "\n]")
    ensures ReadObjects(s, i) == Some(Table(names, rows)) && i < |s| && !IsWhitespace(s[i])
    decreases |rows|
  {
    hide ReadObject, ReadObjects, ObjectText, SkipSpace, IsWhitespace, TailText;
    var o, after := ObjectText(names, rows[0]), TailText(names, rows[1..]) + "\n]";
    var j := i + |o|;
    assert At(s, i, o + after);
    AtSplit(s, i, o, after);
    ObjectRead(s, i, names, rows[0]);
    assert s[j..] == s[i..][|o|..] == after;
    TailCases(names, rows[1..]);
    if |rows| == 1 {
      assert rows[1..] == [] && after == "\n]";
      assert Table(names, rows) == [Members(names, rows[0], 0)] + Table(names, rows[1..])
             == [Members(names, rows[0], 0)];
      LastObject(s, i, Members(names, rows[0], 0), j);
    } else {
      var o2, rest := ObjectText(names, rows[1]), TailText(names, rows[2..]) + "\n]";
      assert rows[1..][0] == rows[1] && rows[1..][1..] == rows[2..];
      Associates(",\n  ", o2, TailText(names, rows[2..]), "\n]");
      assert after == ",\n  " + (o2 + rest);
      assert s[j + 4..] == s[j..][4..];
      ObjectsRead(s, j + 4, names, rows[1..]);
      NextObject(s, i, Members(names, rows[0], 0), j, o2 + rest);
    }
  }

  lemma TailCases(names: seq<string>, rows: seq<Row>)
    requires Rectangular(names, rows)
    ensures rows == [] ==> TailText(names, rows) == ""
    ensures rows != [] ==> TailText(names, rows) == ",\n  " + ObjectText(names, rows[0]) + TailText(names, rows[1..])
  {
  }

  lemma LastObject(s: string, i: nat, ms: seq<Member>, j: nat)
    requires i <= |s| && j <= |s| && s[j..] == "\n]" && ReadObject(s, i) == Some((ms, j))
    ensures ReadObjects(s, i) == Some([ms])
  {
    assert s[j] == s[j..][0] && s[j + 1] == s[j..][1];
    SkipOne(s, j);
    NoSpace(s, j + 1);
  }

  lemma SkipOne(s: string, i: nat)
    requires i < |s| && IsWhitespace(s[i])
    ensures SkipSpace(s, i) == SkipSpace(s, i + 1)
  {
  }

  lemma NextObject(s: string, i: nat, ms: seq<Member>, j: nat, rest: string)
    requires i <= |s| && j <= |s| && s[j..] == ",\n  " + rest && ReadObject(s, i) == Some((ms, j))
    requires j + 4 < |s| && !IsWhitespace(s[j + 4]) && ReadObjects(s, j + 4).Some?
    ensures ReadObjects(s, i) == Some([ms] + ReadObjects(s, j + 4).value)
  {
    hide ReadObject, SkipSpace;
    assert s[j] == s[j..][0] && s[j + 1] == s[j..][1] && s[j + 2] == s[j..][2] && s[j + 3] == s[j..][3];
    NoSpace(s, j);
    SkipOne(s, j + 1);
    SkipOne(s, j + 2);
    SkipOne(s, j + 3);
    NoSpace(s, j + 4);
  }

  /** The document reads back as the rows, exactly when every number in them is a JSON number. */
  lemma StreamRoundTrip(names: seq<string>, rows: seq<Row>)
    requires Rectangular(names, rows)
    ensures ReadDocument(DocumentText(names, rows)) == Some(Table(names, rows)) <==> GoodRows(rows)
  {
    var s := DocumentText(names, rows);
    if GoodRows(rows) {
      if rows == [] {
        assert s == "[]";
      } else {
        DocumentRead(s, names, rows);
      }
    }
    if ReadDocument(s) == Some(Table(names, rows)) {
      forall r | 0 <= r < |rows| ensures GoodRow(rows[r]) {
        TableAt(names, rows, r);
        MembersGood(names, rows[r]);
      }
    }
  }

  lemma DocumentRead(s: string, names: seq<string>, rows: seq<Row>)
    requires rows != [] && Rectangular(names, rows) && GoodRows(rows) && s == DocumentText(names, rows)
    ensures ReadDocument(s) == Some(Table(names, rows))
  {
    hide ReadObjects, ObjectText, TailText;
    var rest := ObjectText(names, rows[0]) + (TailText(names, rows[1..]) + "\n]");
    Opened(ObjectText(names, rows[0]), TailText(names, rows[1..]), "\n]");
    assert s == "[\n  " + rest;
    assert s[4..] == rest && s[..4] == "[\n  ";
    assert s[0] == '[' && s[1] == '\n' && s[2] == ' ' && s[3] == ' ';
    ObjectsRead(s, 4, names, rows);
    ObjectStarts(names, rows[0]);
    assert s[4] == rest[0] == '{';
    NoSpace(s, 0);
    SkipOne(s, 1);
    SkipOne(s, 2);
    SkipOne(s, 3);
    NoSpace(s, 4);
  }

  lemma Opened(o: string, t: string, e: string)
    ensures "[" + ("\n  " + o + t) + e == "[\n  " + (o + (t + e))
  {
  }

  lemma ObjectStarts(names: seq<string>, row: Row)
    requires |row| == |names|
    ensures ObjectText(names, row) != "" && ObjectText(names, row)[0] == '{'
  {
  }

  lemma {:induction false} TableAt(names: seq<string>, rows: seq<Row>, r: nat)
    requires Rectangular(names, rows) && r < |rows|
    ensures Table(names, rows)[r] == Members(names, rows[r], 0)
  {
    if r > 0 {
      assert rows[1..][r - 1] == rows[r];
      TableAt(names, rows[1..], r - 1);
    }
  }

  lemma {:induction false} MemberAt(names: seq<string>, row: Row, k: nat, c: nat)
    requires |row| == |names| && k <= c < |names|
    ensures Members(names, row, k)[c - k] == (names[c], row[c])
    decreases c - k
  {
    if k < c { MemberAt(names, row, k + 1, c); }
  }

  lemma MembersGood(names: seq<string>, row: Row)
    requires |row| == |names| && GoodMembers(Members(names, row, 0))
    ensures GoodRow(row)
  {
    forall c | 0 <= c < |row| ensures IsGood(row[c]) {
      MemberAt(names, row, 0, c);
    }
  }

  /** A column of doubles may hold nan or inf, and then the stream is not JSON. */
  lemma NanIsNoNumber()
    ensures !IsNumber("nan") && !IsNumber("inf") && !IsNumber("-inf") && IsNumber("-1.5e+20")
    ensures ReadDocument(DocumentText(["x"], [[Number("nan")]])) != Some(Table(["x"], [[Number("nan")]]))
  {
    StreamRoundTrip(["x"], [[Number("nan")]]);
    assert !IsGood(Number("nan"));
    var t := "-1.5e+20";
    assert Digits(t, 1) == 2 && Digits(t, 3) == 4 && Digits(t, 6) == 8;
    assert !GoodRow([Number("nan")]) by { assert [Number("nan")][0] == Number("nan"); }
    assert [[Number("nan")]][0] == [Number("nan")];
  }
}
