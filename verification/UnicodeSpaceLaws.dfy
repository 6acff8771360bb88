/** What stripping Unicode spaces does to a query, read as UTF-8 text: which characters are spaces, and where they are
    replaced. */
module UnicodeSpaceLaws {
  import opened UnicodeSpaces

  // ----- characters -----

  type Point = cp: int | 0 <= cp < 0x11_0000

  function Utf8(cp: Point): (s: seq<Byte>)
    ensures 1 <= |s| <= 4
  {
    if cp < 0x80 then [cp]
    else if cp < 0x800 then [0xC0 + cp / 64, 0x80 + cp % 64]
    else if cp < 0x1_0000 then [0xE0 + cp / 4096, 0x80 + cp / 64 % 64, 0x80 + cp % 64]
    else [0xF0 + cp / 262144, 0x80 + cp / 4096 % 64, 0x80 + cp / 64 % 64, 0x80 + cp % 64]
  }

  /** No-break space, the spaces from en quad to zero width space, narrow no-break space, medium mathematical space,
      word joiner, ideographic space, and zero width no-break space. */
  predicate IsUnicodeSpace(cp: Point) {
    || cp == 0x00A0 || 0x2000 <= cp <= 0x200B || cp == 0x202F || cp == 0x205F || cp == 0x2060
    || cp == 0x3000 || cp == 0xFEFF
  }

  /** The character whose encoding has these bytes. */
  function Decoded(a: Byte, b: Byte, c: Byte, n: nat): int {
    if n == 2 then (a - 0xC0) * 64 + (b - 0x80) else (a - 0xE0) * 4096 + (b - 0x80) * 64 + (c - 0x80)
  }

  /** A length is given exactly for the bytes that encode one of these characters, and it is that of its encoding. */
  lemma SpaceLengthExactly(a: Byte, b: Byte, c: Byte, n: nat)
    ensures (n > 0 && SpaceLength(a, b, c) == n)
            <==> exists cp: Point :: IsUnicodeSpace(cp) && n == |Utf8(cp)| <= 3 && Utf8(cp) == [a, b, c][..n]
  {
    if n > 0 && SpaceLength(a, b, c) == n {
      var cp := Decoded(a, b, c, n);
      assert 0 <= cp < 0x11_0000 && IsUnicodeSpace(cp);
      assert Utf8(cp) == [a, b, c][..n];
    }
    if cp: Point :| IsUnicodeSpace(cp) && n == |Utf8(cp)| <= 3 && Utf8(cp) == [a, b, c][..n] {
      EncodesSpace(cp, a, b, c);
    }
  }

  lemma EncodesSpace(cp: Point, a: Byte, b: Byte, c: Byte)
    requires |Utf8(cp)| <= 3 && Utf8(cp) == [a, b, c][..|Utf8(cp)|] && IsUnicodeSpace(cp)
    ensures SpaceLength(a, b, c) == |Utf8(cp)| > 1
  {
    var s, t := Utf8(cp), [a, b, c][..|Utf8(cp)|];
    assert s[0] == t[0] == a && s[1] == t[1] == b;
    if |s| == 3 { assert s[2] == t[2] == c; }
  }

  /** Encodings are told apart by their first three bytes. */
  lemma NoOtherSpace(cp: Point, a: Byte, b: Byte, c: Byte)
    requires [a, b, c][..(if |Utf8(cp)| < 3 then |Utf8(cp)| else 3)] <= Utf8(cp) && !IsUnicodeSpace(cp)
    ensures SpaceLength(a, b, c) == 0
  {
    var n := if |Utf8(cp)| < 3 then |Utf8(cp)| else 3;
    var t := [a, b, c][..n];
    assert Utf8(cp)[0] == t[0] == a;
    if n > 1 { assert Utf8(cp)[1] == t[1] == b; }
    if n > 2 { assert Utf8(cp)[2] == t[2] == c; }
    OtherLengths(cp, a, b, c);
  }

  lemma OtherLengths(cp: Point, a: Byte, b: Byte, c: Byte)
    requires !IsUnicodeSpace(cp) && Utf8(cp)[0] == a
    requires (|Utf8(cp)| > 1 ==> Utf8(cp)[1] == b) && (|Utf8(cp)| > 2 ==> Utf8(cp)[2] == c)
    ensures SpaceLength(a, b, c) == 0
  {
    if |Utf8(cp)| == 2 { assert cp == Decoded(a, b, c, 2); }
    if |Utf8(cp)| == 3 { assert cp == Decoded(a, b, c, 3); }
  }

  lemma Continuations(cp: Point, k: nat)
    requires 0 < k < |Utf8(cp)|
    ensures 0x80 <= Utf8(cp)[k] < 0xC0
  {
  }

  function Encoded(cps: seq<Point>): seq<Byte> {
    if cps == [] then [] else Utf8(cps[0]) + Encoded(cps[1..])
  }

  function Blanked(cps: seq<Point>): seq<Point> {
    if cps == [] then [] else [if IsUnicodeSpace(cps[0]) then 0x20 else cps[0]] + Blanked(cps[1..])
  }

  // ----- the parts of a query -----

  /** Text outside quotes; a dollar sign with a name, which opens nothing; quoted text, dollar-quoted text, and a
      comment with its line end; and these three as they stand at the end of a query that does not close them. */
  datatype Segment = Plain(cps: seq<Point>) | Named(name: seq<Byte>) | Quoted(quote: Byte, body: seq<Byte>)
                   | DollarQuoted(tag: seq<Byte>, body: seq<Byte>) | Comment(body: seq<Byte>, end: Byte)
                   | OpenQuote(quote: Byte, body: seq<Byte>) | OpenDollar(tag: seq<Byte>, body: seq<Byte>)
                   | OpenComment(body: seq<Byte>)

  function Doubled(body: seq<Byte>, quote: Byte): seq<Byte> {
    if body == [] then []
    else (if body[0] == quote then [quote, quote] else [body[0]]) + Doubled(body[1..], quote)
  }

  function Marker(tag: seq<Byte>): seq<Byte> {
    [0x24] + tag + [0x24]
  }

  predicate MarkerAt(q: seq<Byte>, tag: seq<Byte>, m: nat) {
    m + |tag| + 2 <= |q| && q[m..m + |tag| + 2] == Marker(tag)
  }

  function Text(x: Segment): seq<Byte> {
    match x
    case Plain(cps) => Encoded(cps)
    case Named(name) => [0x24] + name
    case Quoted(quote, body) => [quote] + Doubled(body, quote) + [quote]
    case DollarQuoted(tag, body) => Marker(tag) + body + Marker(tag)
    case Comment(body, end) => [0x2D, 0x2D] + body + [end]
    case OpenQuote(quote, body) => [quote] + Doubled(body, quote)
    case OpenDollar(tag, body) => Marker(tag) + body
    case OpenComment(body) => [0x2D, 0x2D] + body
  }

  /** The same with its Unicode spaces replaced, when it is not quoted and no comment. */
  function Stripped(x: Segment): seq<Byte> {
    if x.Plain? then Encoded(Blanked(x.cps)) else Text(x)
  }

  predicate StartsTag(b: Byte) {
    b == 0x5F || 0x41 <= b <= 0x5A || 0x61 <= b <= 0x7A || 0x80 <= b
  }

  /** No quote, dollar quote or comment opens at p. */
  predicate Quiet(q: seq<Byte>, p: nat)
    requires p < |q|
  {
    p + 2 < |q| ==>
      && q[p] != 0x22 && q[p] != 0x27
      && (q[p] == 0x24 ==> q[p + 1] != 0x24 && !StartsTag(q[p + 1]))
      && (q[p] == 0x2D ==> q[p + 1] != 0x2D)
  }

  predicate IsTag(tag: seq<Byte>) {
    && (tag != [] ==> StartsTag(tag[0]))
    && (forall k :: 0 <= k < |tag| ==> StartsTag(tag[k]) || 0x30 <= tag[k] <= 0x39)
  }

  predicate IsQuoteByte(b: Byte) {
    b == 0x22 || b == 0x27
  }

  predicate NoLineEnd(s: seq<Byte>) {
    forall k :: 0 <= k < |s| ==> s[k] != 0x0A && s[k] != 0x0D
  }

  predicate AllQuiet(q: seq<Byte>, p: nat, end: nat)
    requires end <= |q|
  {
    forall k :: p <= k < end ==> Quiet(q, k)
  }

  /** The segment stands at p, closed where it ends and not before. */
  predicate Stands(q: seq<Byte>, p: nat, x: Segment) {
    var end := p + |Text(x)|;
    && end <= |q| && q[p..end] == Text(x)
    && match x
       case Plain(cps) => AllQuiet(q, p, end) && (end == |q| && cps != [] ==> cps[|cps| - 1] != 0xA0)
       case Named(name) =>
         name != [] && IsTag(name)
         && (end < |q| ==> q[end] != 0x24 && !StartsTag(q[end]) && !(0x30 <= q[end] <= 0x39))
       case Quoted(quote, _) => IsQuoteByte(quote) && (end < |q| ==> q[end] != quote)
       case DollarQuoted(tag, body) =>
         && IsTag(tag) && (forall m :: p + |tag| + 1 <= m < end - |tag| - 2 ==> !MarkerAt(q, tag, m))
         && Quiet(q, end - 1)
       case Comment(body, last) => NoLineEnd(body) && (last == 0x0A || last == 0x0D)
       case OpenQuote(quote, _) => IsQuoteByte(quote) && end == |q|
       case OpenDollar(tag, body) =>
         IsTag(tag) && end == |q| && forall m :: p + |tag| + 1 <= m < |q| ==> !MarkerAt(q, tag, m)
       case OpenComment(body) => NoLineEnd(body) && end == |q|
  }

  /** From p on the query is these segments, and at most two more bytes. */
  predicate Reads(q: seq<Byte>, p: nat, xs: seq<Segment>)
    decreases |xs|
  {
    if xs == [] then p <= |q| <= p + 2 else Stands(q, p, xs[0]) && Reads(q, p + |Text(xs[0])|, xs[1..])
  }

  function AllStripped(xs: seq<Segment>): seq<Byte> {
    if xs == [] then [] else Stripped(xs[0]) + AllStripped(xs[1..])
  }

  function AllText(xs: seq<Segment>): seq<Byte> {
    if xs == [] then [] else Text(xs[0]) + AllText(xs[1..])
  }

  // ----- one step at a time -----

  lemma ByteAt(q: seq<Byte>, p: nat, t: seq<Byte>, k: nat)
    requires k < |t| && p + |t| <= |q| && q[p..p + |t|] == t
    ensures q[p + k] == t[k]
  {
    assert q[p..p + |t|][k] == q[p + k];
  }

  lemma PartAt(q: seq<Byte>, p: nat, t: seq<Byte>, a: nat, b: nat)
    requires a <= b <= |t| && p + |t| <= |q| && q[p..p + |t|] == t
    ensures q[p + a..p + b] == t[a..b]
  {
    forall i: nat | i < b - a ensures q[p + a..p + b][i] == t[a..b][i] { ByteAt(q, p, t, a + i); }
  }

  /** The stripped query from p on. */
  function Out(q: seq<Byte>, p: nat): seq<Byte>
    requires p <= |q|
  {
    Compact(q, Run(q, Config(Regular, p)), p)
  }

  /** Where the run passes bytes without recording, they are copied. */
  lemma Copied(q: seq<Byte>, p: nat, n: nat)
    requires p + n <= |q| && Run(q, Config(Regular, p)) == Run(q, Config(Regular, p + n))
    ensures Out(q, p) == q[p..p + n] + Out(q, p + n)
  {
    hide Run, Compact, Ordered;
    RunOrdered(q, Config(Regular, p + n));
    CompactCopies(q, Run(q, Config(Regular, p)), p, n);
  }

  lemma SilentByte(q: seq<Byte>, p: nat)
    requires p < |q| && Quiet(q, p) && (p + 2 < |q| ==> SpaceAt(q, p) == 0)
    ensures Run(q, Config(Regular, p)) == Run(q, Config(Regular, p + 1))
  {
    var c, d := Config(Regular, p), Config(Regular, p + 1);
    if p + 2 < |q| {
      assert Next(q, c) == d && Found(q, c) == [];
    } else {
      NearEnd(q, p);
      NearEnd(q, p + 1);
    }
  }

  lemma NearEnd(q: seq<Byte>, p: nat)
    requires p <= |q| <= p + 2
    ensures Run(q, Config(Regular, p)) == []
  {
    assert Next(q, Config(Regular, p)).mode.End?;
  }

  lemma PassesOn(q: seq<Byte>, p: nat, n: nat)
    requires p + n <= |q| && forall k :: p <= k < p + n ==> 0x80 <= q[k] < 0xC0
    ensures Run(q, Config(Regular, p)) == Run(q, Config(Regular, p + n))
    decreases n
  {
    hide Run;
    if n > 0 {
      ContinuationByte(q, p);
      PassesOn(q, p + 1, n - 1);
    }
  }

  /** One character that is no space is copied, and a space is replaced. */
  lemma PointStripped(q: seq<Byte>, p: nat, cp: Point)
    requires var n := |Utf8(cp)|; p + n <= |q| && q[p..p + n] == Utf8(cp) && AllQuiet(q, p, p + n)
    requires p + |Utf8(cp)| == |q| ==> cp != 0xA0
    ensures Out(q, p) == (if IsUnicodeSpace(cp) then [SPACE] else Utf8(cp)) + Out(q, p + |Utf8(cp)|)
  {
    hide Run, Compact, Quiet, SpaceLength;
    var n := |Utf8(cp)|;
    forall j | p < j < p + n ensures 0x80 <= q[j] < 0xC0 {
      Continuations(cp, j - p);
      ByteAt(q, p, Utf8(cp), j - p);
    }
    if IsUnicodeSpace(cp) {
      ThreeBytes(q, p, cp);
      EncodesSpace(cp, q[p], q[p + 1], q[p + 2]);
      SpaceRecorded(q, p);
      var spaces := Run(q, Config(Regular, p));
      assert spaces[1..] == Run(q, Config(Regular, p + n));
      SpaceReplaced(q, p, n);
    } else {
      if p + 2 < |q| {
        Front(q, p, cp);
        NoOtherSpace(cp, q[p], q[p + 1], q[p + 2]);
      }
      SilentByte(q, p);
      PassesOn(q, p + 1, n - 1);
      Copied(q, p, n);
    }
  }

  lemma ThreeBytes(q: seq<Byte>, p: nat, cp: Point)
    requires p + |Utf8(cp)| <= |q| && q[p..p + |Utf8(cp)|] == Utf8(cp) && IsUnicodeSpace(cp)
    requires p + |Utf8(cp)| == |q| ==> cp != 0xA0
    ensures p + 2 < |q| && |Utf8(cp)| <= 3 && Utf8(cp) == [q[p], q[p + 1], q[p + 2]][..|Utf8(cp)|]
  {
    assert q[p..p + |Utf8(cp)|][0] == q[p] && q[p..p + |Utf8(cp)|][1] == q[p + 1];
  }

  lemma Front(q: seq<Byte>, p: nat, cp: Point)
    requires p + |Utf8(cp)| <= |q| && q[p..p + |Utf8(cp)|] == Utf8(cp) && p + 2 < |q|
    ensures [q[p], q[p + 1], q[p + 2]][..(if |Utf8(cp)| < 3 then |Utf8(cp)| else 3)] <= Utf8(cp)
  {
    var n := |Utf8(cp)|;
    var m := if n < 3 then n else 3;
    assert [q[p], q[p + 1], q[p + 2]][..m] == q[p..p + m] == q[p..p + n][..m];
  }

  lemma SpaceReplaced(q: seq<Byte>, p: nat, n: nat)
    requires 0 < n && p + n <= |q|
             && Run(q, Config(Regular, p)) == [UnicodeSpace(p, n)] + Run(q, Config(Regular, p + n))
    ensures Out(q, p) == [SPACE] + Out(q, p + n)
  {
    hide Run, Compact;
    var spaces := Run(q, Config(Regular, p));
    assert spaces[1..] == Run(q, Config(Regular, p + n));
    CompactSpace(q, p, n, spaces);
  }

  lemma CompactSpace(q: seq<Byte>, p: nat, n: nat, spaces: seq<UnicodeSpace>)
    requires 0 < n && p + n <= |q| && spaces != [] && spaces[0] == UnicodeSpace(p, n)
    ensures Compact(q, spaces, p) == [SPACE] + Compact(q, spaces[1..], p + n)
  {
  }

  lemma {:induction false} PlainStripped(q: seq<Byte>, p: nat, cps: seq<Point>)
    requires p + |Encoded(cps)| <= |q| && q[p..p + |Encoded(cps)|] == Encoded(cps)
    requires AllQuiet(q, p, p + |Encoded(cps)|)
    requires p + |Encoded(cps)| == |q| && cps != [] ==> cps[|cps| - 1] != 0xA0
    ensures Out(q, p) == Encoded(Blanked(cps)) + Out(q, p + |Encoded(cps)|)
    decreases |cps|
  {
    hide Run, Compact, Quiet, IsUnicodeSpace, Utf8, Out;
    if cps != [] {
      var t, n, end := Encoded(cps), |Utf8(cps[0])|, p + |Encoded(cps)|;
      PartAt(q, p, t, 0, n);
      PartAt(q, p, t, n, |t|);
      PointStripped(q, p, cps[0]);
      PlainStripped(q, p + n, cps[1..]);
      SpaceIsPlain();
    }
  }

  lemma SpaceIsPlain()
    ensures Utf8(0x20) == [SPACE]
  {
  }

  // ----- quotes, comments and dollar quotes are copied -----

  lemma {:induction false} QuoteBody(q: seq<Byte>, p: nat, body: seq<Byte>, quote: Byte)
    requires var n := |Doubled(body, quote)|; p + n < |q| && q[p..p + n] == Doubled(body, quote) && q[p + n] == quote
    ensures Run(q, Config(InQuotes(quote), p)) == Run(q, Config(InQuotes(quote), p + |Doubled(body, quote)|))
    decreases |body|
  {
    hide Run;
    var n := |Doubled(body, quote)|;
    if body != [] {
      var step := if body[0] == quote then 2 else 1;
      assert q[p..p + n][0] == q[p];
      if step == 2 { assert q[p..p + n][1] == q[p + 1]; }
      assert q[p..p + n][step..] == q[p + step..p + n];
      RunSkips(q, Config(InQuotes(quote), p));
      QuoteBody(q, p + step, body[1..], quote);
    }
  }

  lemma QuotedPassed(q: seq<Byte>, p: nat, x: Segment)
    requires Stands(q, p, x) && x.Quoted?
    ensures Run(q, Config(Regular, p)) == Run(q, Config(Regular, p + |Text(x)|))
  {
    hide Run, Doubled;
    var n, end := |Doubled(x.body, x.quote)|, p + |Text(x)|;
    var t := Text(x);
    assert t[0] == x.quote && t[n + 1] == x.quote && t[1..n + 1] == Doubled(x.body, x.quote);
    ByteAt(q, p, t, 0);
    ByteAt(q, p, t, n + 1);
    PartAt(q, p, t, 1, n + 1);
    if p + 2 < |q| {
      QuietQuote(q, p);
      RunSkips(q, Config(Regular, p));
      QuoteBody(q, p + 1, x.body, x.quote);
      RunSkips(q, Config(InQuotes(x.quote), p + 1 + n));
      if end >= |q| { NearEnd(q, end); EndsThere(q, Config(InQuotes(x.quote), p + 1 + n)); }
    } else {
      NearEnd(q, p);
      NearEnd(q, end);
    }
  }

  lemma EndsThere(q: seq<Byte>, c: Config)
    requires c.pos <= |q| && !c.mode.End? && Next(q, c).mode.End? && Found(q, c) == []
    ensures Run(q, c) == []
  {
  }

  lemma QuietQuote(q: seq<Byte>, p: nat)
    requires p + 2 < |q| && q[p] in {0x22, 0x27, 0x2D, 0x24}
    ensures Found(q, Config(Regular, p)) == []
  {
  }

  lemma {:induction false} CommentBody(q: seq<Byte>, p: nat, e: nat)
    requires p <= e < |q| && (forall k :: p <= k < e ==> q[k] != 0x0A && q[k] != 0x0D) && (q[e] == 0x0A || q[e] == 0x0D)
    ensures Run(q, Config(InComment, p)) == Run(q, Config(Regular, e))
    decreases e - p
  {
    hide Run;
    RunSkips(q, Config(InComment, p));
    if p < e { CommentBody(q, p + 1, e); }
  }

  lemma EntersComment(q: seq<Byte>, p: nat)
    requires p + 2 < |q| && q[p] == 0x2D && q[p + 1] == 0x2D
    ensures Run(q, Config(Regular, p)) == Run(q, Config(InComment, p))
  {
    hide Run;
    QuietQuote(q, p);
    RunSkips(q, Config(Regular, p));
  }

  lemma EntersDollar(q: seq<Byte>, p: nat)
    requires p + 2 < |q| && q[p] == 0x24 && (q[p + 1] == 0x24 || StartsTag(q[p + 1]))
    ensures Run(q, Config(Regular, p)) == Run(q, Config(Tag([]), p + 1))
  {
    hide Run;
    QuietQuote(q, p);
    RunSkips(q, Config(Regular, p));
  }

  lemma CommentPassed(q: seq<Byte>, p: nat, x: Segment)
    requires Stands(q, p, x) && x.Comment?
    ensures Run(q, Config(Regular, p)) == Run(q, Config(Regular, p + |Text(x)|))
  {
    hide Run, Next, Found, Stands, Text;
    var end := p + |Text(x)|;
    CommentParts(q, p, x);
    EntersComment(q, p);
    CommentBody(q, p, end - 1);
    NewlineQuiet(q, end - 1);
    SilentByte(q, end - 1);
  }

  lemma NewlineQuiet(q: seq<Byte>, p: nat)
    requires p < |q| && (q[p] == 0x0A || q[p] == 0x0D)
    ensures Quiet(q, p) && (p + 2 < |q| ==> SpaceAt(q, p) == 0)
  {
  }

  lemma CommentParts(q: seq<Byte>, p: nat, x: Segment)
    requires Stands(q, p, x) && x.Comment?
    ensures var end := p + |Text(x)|;
            && p + 3 <= end <= |q| && q[p] == 0x2D && q[p + 1] == 0x2D && (q[end - 1] == 0x0A || q[end - 1] == 0x0D)
            && forall k :: p <= k < end - 1 ==> q[k] != 0x0A && q[k] != 0x0D
  {
    var t := Text(x);
    ByteAt(q, p, t, 0);
    ByteAt(q, p, t, 1);
    ByteAt(q, p, t, |t| - 1);
    forall k | p <= k < p + |t| - 1 ensures q[k] != 0x0A && q[k] != 0x0D {
      ByteAt(q, p, t, k - p);
      if k >= p + 2 { assert t[k - p] == x.body[k - p - 2]; }
    }
  }

  lemma {:induction false} TagRead(q: seq<Byte>, p: nat, e: nat, start: nat)
    requires start <= p <= e && e + 2 < |q| && q[e] == 0x24
    requires forall k :: start <= k < e ==> StartsTag(q[k]) || 0x30 <= q[k] <= 0x39
    ensures Run(q, Config(Tag(q[start..p]), p)) == Run(q, Config(InDollarQuotes(q[start..e]), e))
    decreases e - p
  {
    hide Run;
    RunSkips(q, Config(Tag(q[start..p]), p));
    if p < e {
      assert q[start..p] + [q[p]] == q[start..p + 1];
      TagRead(q, p + 1, e, start);
    }
  }

  lemma {:induction false} DollarBody(q: seq<Byte>, tag: seq<Byte>, p: nat, m: nat)
    requires p <= m && MarkerAt(q, tag, m) && forall k :: p <= k < m ==> !MarkerAt(q, tag, k)
    ensures Run(q, Config(InDollarQuotes(tag), p)) == Run(q, Config(Regular, m + |tag| + 1))
    decreases m - p
  {
    hide Run, ClosesDollar;
    var c := Config(InDollarQuotes(tag), p);
    if p + 2 >= |q| {
      EndsThere(q, c);
      NearEnd(q, m + |tag| + 1);
    } else {
      ClosesAtMarker(q, tag, p);
      assert Marker(tag) == [DOLLAR] + tag + [DOLLAR];
      RunSkips(q, c);
      if p < m {
        assert !MarkerAt(q, tag, p);
        assert Next(q, c) == Config(c.mode, p + 1);
        DollarBody(q, tag, p + 1, m);
      } else {
        assert Next(q, c) == Config(Regular, m + |tag| + 1);
      }
    }
  }

  lemma DollarPassed(q: seq<Byte>, p: nat, x: Segment)
    requires Stands(q, p, x) && x.DollarQuoted?
    ensures Run(q, Config(Regular, p)) == Run(q, Config(Regular, p + |Text(x)|))
  {
    hide Run, Next, Found, Text, SpaceAt, Marker;
    var tag, end := x.tag, p + |Text(x)|;
    var n, m := |tag|, p + |Text(x)| - |x.tag| - 2;
    DollarParts(q, p, x);
    assert n > 0 ==> q[p + 1] == tag[0];
    EntersDollar(q, p);
    assert q[p + 1..p + 1] == [];
    TagRead(q, p + 1, p + 1 + n, p + 1);
    DollarBody(q, tag, p + n + 1, m);
    DollarIsNone(q, end - 1);
    SilentByte(q, end - 1);
  }

  lemma DollarIsNone(q: seq<Byte>, p: nat)
    requires p < |q| && q[p] == 0x24
    ensures p + 2 < |q| ==> SpaceAt(q, p) == 0
  {
  }

  lemma DollarParts(q: seq<Byte>, p: nat, x: Segment)
    requires Stands(q, p, x) && x.DollarQuoted?
    ensures var n, end := |x.tag|, p + |Text(x)|;
            && p + n + 3 < |q| && p + 2 * n + 4 <= end && q[p] == 0x24 && q[p + 1..p + 1 + n] == x.tag
            && q[p + 1 + n] == 0x24
            && (forall k :: p + 1 <= k < p + 1 + n ==> q[k] == x.tag[k - p - 1])
            && MarkerAt(q, x.tag, end - n - 2) && q[end - 1] == 0x24
  {
    var n, t := |x.tag|, Text(x);
    TextOfDollar(x);
    ByteAt(q, p, t, 0);
    ByteAt(q, p, t, n + 1);
    ByteAt(q, p, t, |t| - 1);
    PartAt(q, p, t, 1, n + 1);
    PartAt(q, p, t, |t| - n - 2, |t|);
    forall k | p + 1 <= k < p + 1 + n ensures q[k] == x.tag[k - p - 1] {
      ByteAt(q, p, t, k - p);
      assert t[1..n + 1][k - p - 1] == t[k - p];
    }
  }

  lemma TextOfDollar(x: Segment)
    requires x.DollarQuoted?
    ensures var n, t := |x.tag|, Text(x);
            && |t| >= 2 * n + 4 && t[0] == t[n + 1] == t[|t| - 1] == 0x24 && t[1..n + 1] == x.tag
            && t[|t| - n - 2..] == Marker(x.tag)
  {
  }

  // ----- what is left open -----

  lemma {:induction false} OpenQuoteBody(q: seq<Byte>, p: nat, body: seq<Byte>, quote: Byte)
    requires p <= |q| && q[p..] == Doubled(body, quote)
    ensures Run(q, Config(InQuotes(quote), p)) == []
    decreases |body|
  {
    hide Run;
    var c := Config(InQuotes(quote), p);
    if p + 1 >= |q| {
      EndsThere(q, c);
    } else {
      var step := if body[0] == quote then 2 else 1;
      assert q[p..][0] == q[p] && q[p..][1] == q[p + 1] && q[p..][step..] == q[p + step..];
      RunSkips(q, c);
      OpenQuoteBody(q, p + step, body[1..], quote);
    }
  }

  lemma {:induction false} OpenCommentBody(q: seq<Byte>, p: nat)
    requires p <= |q| && forall k :: p <= k < |q| ==> q[k] != 0x0A && q[k] != 0x0D
    ensures Run(q, Config(InComment, p)) == []
    decreases |q| - p
  {
    hide Run;
    var c := Config(InComment, p);
    if p == |q| {
      EndsThere(q, c);
    } else {
      RunSkips(q, c);
      OpenCommentBody(q, p + 1);
    }
  }

  lemma {:induction false} OpenDollarBody(q: seq<Byte>, tag: seq<Byte>, p: nat)
    requires p <= |q| && forall m :: p <= m < |q| ==> !MarkerAt(q, tag, m)
    ensures Run(q, Config(InDollarQuotes(tag), p)) == []
    decreases |q| - p
  {
    hide Run, ClosesDollar;
    var c := Config(InDollarQuotes(tag), p);
    if p + 2 >= |q| {
      EndsThere(q, c);
    } else {
      ClosesAtMarker(q, tag, p);
      assert Marker(tag) == [DOLLAR] + tag + [DOLLAR];
      assert !MarkerAt(q, tag, p);
      RunSkips(q, c);
      OpenDollarBody(q, tag, p + 1);
    }
  }

  lemma OpenSilent(q: seq<Byte>, p: nat, x: Segment)
    requires Stands(q, p, x) && (x.OpenQuote? || x.OpenDollar? || x.OpenComment?)
    ensures p + |Text(x)| == |q| && Run(q, Config(Regular, p)) == []
  {
    hide Run, Next, Found, Marker, Doubled;
    if p + 2 >= |q| {
      NearEnd(q, p);
    } else {
      var t := Text(x);
      assert q[p..] == q[p..p + |t|];
      ByteAt(q, p, t, 0);
      match x {
        case OpenQuote(quote, body) =>
          assert q[p + 1..] == q[p..][1..] && t[1..] == Doubled(body, quote);
          EntersQuote(q, p);
          OpenQuoteBody(q, p + 1, body, quote);
        case OpenComment(body) =>
          ByteAt(q, p, t, 1);
          forall k | p <= k < |q| ensures q[k] != 0x0A && q[k] != 0x0D {
            ByteAt(q, p, t, k - p);
            if k >= p + 2 { assert t[k - p] == body[k - p - 2]; }
          }
          EntersComment(q, p);
          OpenCommentBody(q, p);
        case OpenDollar(tag, body) => OpenDollarSilent(q, p, tag, body);
      }
    }
  }

  lemma OpenDollarSilent(q: seq<Byte>, p: nat, tag: seq<Byte>, body: seq<Byte>)
    requires Stands(q, p, OpenDollar(tag, body)) && p + 2 < |q|
    ensures Run(q, Config(Regular, p)) == []
  {
    hide Run, Next, Found, Stands, MarkerAt;
    var n := |tag|;
    OpenDollarParts(q, p, tag, body);
    EntersDollar(q, p);
    assert q[p + 1..p + 1] == [];
    if p + 1 + n + 2 < |q| {
      TagRead(q, p + 1, p + 1 + n, p + 1);
      OpenDollarBody(q, tag, p + n + 1);
    } else {
      TagEnds(q, p + 1, p + 1);
    }
  }

  lemma OpenDollarParts(q: seq<Byte>, p: nat, tag: seq<Byte>, body: seq<Byte>)
    requires Stands(q, p, OpenDollar(tag, body))
    ensures var n := |tag|;
            && p + n + 2 <= |q| && q[p] == 0x24 && q[p + 1 + n] == 0x24 && q[p + 1..p + 1 + n] == tag
            && (n > 0 ==> StartsTag(q[p + 1]))
            && (forall k :: p + 1 <= k < p + 1 + n ==> StartsTag(q[k]) || 0x30 <= q[k] <= 0x39)
            && forall m :: p + n + 1 <= m < |q| ==> !MarkerAt(q, tag, m)
  {
    hide MarkerAt;
    var n, t := |tag|, Marker(tag) + body;
    OpenDollarText(tag, body);
    ByteAt(q, p, t, 0);
    ByteAt(q, p, t, n + 1);
    PartAt(q, p, t, 1, n + 1);
    forall k | p + 1 <= k < p + 1 + n ensures q[k] == tag[k - p - 1] {
      assert q[p + 1..p + 1 + n][k - p - 1] == q[k];
    }
    assert n > 0 ==> q[p + 1] == tag[0];
  }

  lemma OpenDollarText(tag: seq<Byte>, body: seq<Byte>)
    ensures var n, t := |tag|, Marker(tag) + body;
            |t| >= n + 2 && t[0] == 0x24 && t[n + 1] == 0x24 && t[1..n + 1] == tag
  {
  }

  /** A tag that is still read where the loop stops. */
  lemma {:induction false} TagEnds(q: seq<Byte>, p: nat, start: nat)
    requires start <= p <= |q|
    requires forall k :: start <= k < |q| - 2 ==> StartsTag(q[k]) || 0x30 <= q[k] <= 0x39
    ensures Run(q, Config(Tag(q[start..p]), p)) == []
    decreases |q| - p
  {
    hide Run;
    var c := Config(Tag(q[start..p]), p);
    if p + 2 >= |q| {
      EndsThere(q, c);
    } else {
      RunSkips(q, c);
      assert q[start..p] + [q[p]] == q[start..p + 1];
      TagEnds(q, p + 1, start);
    }
  }

  /** A name after a dollar sign is read like a tag and given up. */
  lemma {:induction false} NameRead(q: seq<Byte>, p: nat, e: nat, start: nat)
    requires start <= p <= e && e + 2 < |q| && q[e] != 0x24 && !StartsTag(q[e]) && !(0x30 <= q[e] <= 0x39)
    requires forall k :: start <= k < e ==> StartsTag(q[k]) || 0x30 <= q[k] <= 0x39
    ensures Run(q, Config(Tag(q[start..p]), p)) == Run(q, Config(Regular, e))
    decreases e - p
  {
    hide Run;
    RunSkips(q, Config(Tag(q[start..p]), p));
    if p < e {
      assert q[start..p] + [q[p]] == q[start..p + 1];
      NameRead(q, p + 1, e, start);
    }
  }

  lemma NamePassed(q: seq<Byte>, p: nat, name: seq<Byte>)
    requires Stands(q, p, Named(name))
    ensures Run(q, Config(Regular, p)) == Run(q, Config(Regular, p + |Text(Named(name))|))
  {
    hide Run, Next, Found;
    var t, e := Text(Named(name)), p + 1 + |name|;
    ByteAt(q, p, t, 0);
    ByteAt(q, p, t, 1);
    forall k | p + 1 <= k < e ensures q[k] == name[k - p - 1] { ByteAt(q, p, t, k - p); }
    if p + 2 >= |q| {
      NearEnd(q, p);
      NearEnd(q, e);
    } else {
      EntersDollar(q, p);
      assert q[p + 1..p + 1] == [];
      if e + 2 < |q| {
        NameRead(q, p + 1, e, p + 1);
      } else {
        TagEnds(q, p + 1, p + 1);
        NearEnd(q, e);
      }
    }
  }

  lemma EntersQuote(q: seq<Byte>, p: nat)
    requires p + 2 < |q| && IsQuoteByte(q[p])
    ensures Run(q, Config(Regular, p)) == Run(q, Config(InQuotes(q[p]), p + 1))
  {
    hide Run;
    QuietQuote(q, p);
    RunSkips(q, Config(Regular, p));
  }

  /** Every Unicode space outside quotes, dollar quotes and comments is replaced by one space, but for a no-break space
      that ends the query; everything else is kept. */
  lemma {:induction false} StripsOutsideQuotes(q: seq<Byte>, p: nat, xs: seq<Segment>)
    requires Reads(q, p, xs)
    ensures p <= |q| && p + |AllText(xs)| <= |q|
    ensures Out(q, p) == AllStripped(xs) + q[p + |AllText(xs)|..]
    decreases |xs|
  {
    hide Run, Compact, Stands, Text;
    if xs == [] {
      NearEnd(q, p);
      NoSplice(q, [], p);
    } else {
      var n := |Text(xs[0])|;
      StripsOutsideQuotes(q, p + n, xs[1..]);
      SegmentStripped(q, p, xs[0]);
      assert AllText(xs) == Text(xs[0]) + AllText(xs[1..]);
    }
  }

  lemma SegmentStripped(q: seq<Byte>, p: nat, x: Segment)
    requires Stands(q, p, x)
    ensures p + |Text(x)| <= |q| && Out(q, p) == Stripped(x) + Out(q, p + |Text(x)|)
  {
    hide Run, Compact;
    match x {
      case Plain(cps) => PlainStripped(q, p, cps);
      case Named(name) => NamePassed(q, p, name); Copied(q, p, |Text(x)|);
      case Quoted(_, _) => QuotedPassed(q, p, x); Copied(q, p, |Text(x)|);
      case DollarQuoted(_, _) => DollarPassed(q, p, x); Copied(q, p, |Text(x)|);
      case Comment(_, _) => CommentPassed(q, p, x); Copied(q, p, |Text(x)|);
      case _ => OpenSilent(q, p, x); NearEnd(q, |q|); Copied(q, p, |Text(x)|);
    }
  }

  /** A no-break space that ends the query is not found, whatever comes before it. */
  lemma {:induction false} LastSpaceStays(q: seq<Byte>, c: Config)
    requires c.pos <= |q|
    ensures forall u :: u in Run(q, c) ==> u.pos + 2 < |q|
    decreases |q| - c.pos, Rank(q, c)
  {
    hide Run, Next, Rank, SpaceLength;
    if c.mode.End? {
      RunEnds(q, c);
    } else {
      RunStep(q, c);
      NextLower(q, c);
      LastSpaceStays(q, Next(q, c));
    }
  }
}
