/** The Unicode space stripper: an automaton over bytes that jumps between four loops, then a splice. */
module UnicodeSpaces {

  type Byte = b: int | 0 <= b < 256

  const SPACE: Byte := 0x20
  const DOUBLE_QUOTE: Byte := 0x22
  const SINGLE_QUOTE: Byte := 0x27
  const DOLLAR: Byte := 0x24
  const DASH: Byte := 0x2D

  /** A Unicode space found in the query: its first byte and its length. */
  datatype UnicodeSpace = UnicodeSpace(pos: nat, bytes: nat)

  predicate IsTagFirst(c: Byte) {
    0x41 <= c <= 0x5A || 0x61 <= c <= 0x7A || c == 0x5F || c >= 0x80
  }

  predicate IsTagSubsequent(c: Byte) {
    IsTagFirst(c) || 0x30 <= c <= 0x39
  }

  predicate IsQuote(c: Byte) {
    c == DOUBLE_QUOTE || c == SINGLE_QUOTE
  }

  predicate IsNewline(c: Byte) {
    c == 0x0A || c == 0x0D
  }

  /** The length of the Unicode space whose bytes are a, b, c, or 0. */
  function SpaceLength(a: Byte, b: Byte, c: Byte): nat {
    if a == 0xC2 then if b == 0xA0 then 2 else 0
    else if a == 0xE2 then
      if b == 0x80 then if 0x80 <= c <= 0x8B || c == 0xAF then 3 else 0
      else if b == 0x81 then if c == 0x9F || c == 0xA0 then 3 else 0
      else 0
    else if a == 0xE3 then if b == 0x80 && c == 0x80 then 3 else 0
    else if a == 0xEF then if b == 0xBB && c == 0xBF then 3 else 0
    else 0
  }

  function SpaceAt(q: seq<Byte>, pos: nat): nat
    requires pos + 2 < |q|
  {
    SpaceLength(q[pos], q[pos + 1], q[pos + 2])
  }

  // ----- the automaton, one byte at a time -----

  /** The labels, with what their loops remember; Tag is the inner loop that reads a dollar-quote tag. */
  datatype Mode = Regular | Tag(read: seq<Byte>) | InQuotes(quote: Byte) | InDollarQuotes(tag: seq<Byte>) | InComment
                | End

  datatype Config = Config(mode: Mode, pos: nat)

  predicate ClosesDollar(q: seq<Byte>, tag: seq<Byte>, pos: nat)
    requires pos < |q|
  {
    q[pos] == DOLLAR && |q| - (pos + 1) >= |tag| + 1 && q[pos + |tag| + 1] == DOLLAR
        && q[pos + 1..pos + 1 + |tag|] == tag
  }

  predicate EntersTag(q: seq<Byte>, pos: nat)
    requires pos + 1 < |q|
  {
    q[pos] == DOLLAR && (q[pos + 1] == DOLLAR || IsTagFirst(q[pos + 1]))
  }

  function Next(q: seq<Byte>, c: Config): (d: Config)
    requires c.pos <= |q| && !c.mode.End?
    ensures c.pos <= d.pos <= |q|
  {
    var p := c.pos;
    match c.mode
    case Regular =>
      if p + 2 >= |q| then Config(End, p)
      else if IsQuote(q[p]) then Config(InQuotes(q[p]), p + 1)
      else if EntersTag(q, p) then Config(Tag([]), p + 1)
      else if q[p] == DASH && q[p + 1] == DASH then Config(InComment, p)
      else Config(Regular, p + 1)
    case Tag(read) =>
      if p + 2 >= |q| then Config(End, p)
      else if q[p] == DOLLAR then Config(InDollarQuotes(read), p)
      else if !IsTagSubsequent(q[p]) then Config(Regular, p)
      else Config(Tag(read + [q[p]]), p + 1)
    case InQuotes(quote) =>
      if p + 1 >= |q| then Config(End, p)
      else if q[p] != quote then Config(c.mode, p + 1)
      else if q[p + 1] == quote then Config(c.mode, p + 2)
      else Config(Regular, p + 1)
    case InDollarQuotes(tag) =>
      if p + 2 >= |q| then Config(End, p)
      else if ClosesDollar(q, tag, p) then Config(Regular, p + |tag| + 1)
      else Config(c.mode, p + 1)
    case InComment =>
      if p >= |q| then Config(End, p) else if IsNewline(q[p]) then Config(Regular, p) else Config(InComment, p + 1)
  }

  /** The place of a label among the jumps that do not move on. */
  function Rank(q: seq<Byte>, c: Config): nat {
    match c.mode
    case End => 0
    case InDollarQuotes(_) => 1
    case InQuotes(_) => 1
    case Regular => 2
    case Tag(_) => 3
    case InComment => if c.pos < |q| && IsNewline(q[c.pos]) then 3 else 1
  }

  function Found(q: seq<Byte>, c: Config): seq<UnicodeSpace> {
    if c.mode.Regular? && c.pos + 2 < |q| && SpaceAt(q, c.pos) > 0 then [UnicodeSpace(c.pos, SpaceAt(q, c.pos))] else []
  }

  /** The spaces the run from c records. It terminates: the place moves on, or the label's rank falls. */
  function Run(q: seq<Byte>, c: Config): seq<UnicodeSpace>
    requires c.pos <= |q|
    decreases |q| - c.pos, Rank(q, c)
  {
    if c.mode.End? then [] else Found(q, c) + Run(q, Next(q, c))
  }

  /** The query from p on with every range in spaces replaced by one space. */
  function Compact(q: seq<Byte>, spaces: seq<UnicodeSpace>, p: nat): seq<Byte>
    requires p <= |q|
    decreases |q| - p
  {
    if p == |q| then []
    else if spaces != [] && spaces[0].pos == p && 0 < spaces[0].bytes <= |q| - p then
      [SPACE] + Compact(q, spaces[1..], p + spaces[0].bytes)
    else [q[p]] + Compact(q, spaces, p + 1)
  }

  // ----- the loops -----

  /** `ReplaceUnicodeSpaces`. */
  method ReplaceUnicodeSpaces(query: seq<Byte>, unicode_spaces: seq<UnicodeSpace>)
      returns (found: bool, new_query: seq<Byte>)
    requires Ordered(query, unicode_spaces, 0)
    ensures found == (unicode_spaces != [])
    ensures found ==> new_query == Compact(query, unicode_spaces, 0)
    ensures !found ==> new_query == []
  {
    hide Compact, Ordered, SpaceLength;
    new_query := [];
    if unicode_spaces == [] {
      return false, [];
    }
    var prev: nat := 0;
    assert unicode_spaces[0..] == unicode_spaces;
    for k := 0 to |unicode_spaces|
      invariant prev <= |query| && Ordered(query, unicode_spaces[k..], prev)
      invariant new_query + Compact(query, unicode_spaces[k..], prev) == Compact(query, unicode_spaces, 0)
    {
      var usp := unicode_spaces[k];
      ghost var before, prev0 := new_query, prev;
      assert unicode_spaces[k..][0] == usp && unicode_spaces[k..][1..] == unicode_spaces[k + 1..];
      Splice(query, unicode_spaces[k..], prev);
      new_query := new_query + query[prev..usp.pos];
      new_query := new_query + [SPACE];
      prev := usp.pos + usp.bytes;
      ghost var rest := Compact(query, unicode_spaces[k + 1..], prev);
      Associates(before, query[prev0..usp.pos], [SPACE], rest);
    }
    NoSplice(query, unicode_spaces[|unicode_spaces|..], prev);
    new_query := new_query + query[prev..|query|];
    found := true;
  }

  lemma Associates(a: seq<Byte>, b: seq<Byte>, c: seq<Byte>, d: seq<Byte>)
    ensures a + (b + c + d) == ((a + b) + c) + d
  {
  }

  lemma Splice(q: seq<Byte>, spaces: seq<UnicodeSpace>, p: nat)
    requires spaces != [] && Ordered(q, spaces, p)
    ensures var u := spaces[0];
            && p <= u.pos && u.pos + u.bytes <= |q| && Ordered(q, spaces[1..], u.pos + u.bytes)
            && Compact(q, spaces, p) == q[p..u.pos] + [SPACE] + Compact(q, spaces[1..], u.pos + u.bytes)
  {
    CompactCopies(q, spaces, p, spaces[0].pos - p);
  }

  lemma NoSplice(q: seq<Byte>, spaces: seq<UnicodeSpace>, p: nat)
    requires spaces == [] && p <= |q|
    ensures Compact(q, spaces, p) == q[p..|q|]
  {
    CompactCopies(q, spaces, p, |q| - p);
  }

  /** The spaces lie in the query, in order, without overlap, from p on. */
  predicate Ordered(q: seq<Byte>, spaces: seq<UnicodeSpace>, p: nat)
    decreases |spaces|
  {
    spaces == [] ||
    (p <= spaces[0].pos && spaces[0].pos + 2 < |q| && SpaceAt(q, spaces[0].pos) == spaces[0].bytes > 0
     && Ordered(q, spaces[1..], spaces[0].pos + spaces[0].bytes))
  }

  lemma {:induction false} CompactCopies(q: seq<Byte>, spaces: seq<UnicodeSpace>, p: nat, k: nat)
    requires p + k <= |q| && Ordered(q, spaces, p + k)
    ensures Compact(q, spaces, p) == q[p..p + k] + Compact(q, spaces, p + k)
    decreases k
  {
    if k > 0 {
      CompactCopies(q, spaces, p + 1, k - 1);
      assert q[p..p + k] == [q[p]] + q[p + 1..p + k];
    }
  }

  /** A jump from c to d after recording `found`: the run goes on, and the place or the rank shows that it ends. */
  ghost predicate Jumps(q: seq<Byte>, c: Config, found: seq<UnicodeSpace>, d: Config) {
    && c.pos <= d.pos <= |q|
    && Run(q, c) == found + Run(q, d)
    && (c.pos < d.pos || (c.pos == d.pos && Rank(q, d) < Rank(q, c)))
  }

  /** The label `regular`: looks for spaces until a quote, a dollar quote, a comment or the end begins. */
  method RegularLoop(q: seq<Byte>, start: nat, before: seq<UnicodeSpace>)
    returns (unicode_spaces: seq<UnicodeSpace>, c: Config, ghost found: seq<UnicodeSpace>)
    requires start <= |q|
    ensures unicode_spaces == before + found && Jumps(q, Config(Regular, start), found, c) && !c.mode.Tag?
  {
    hide Run, SpaceLength;
    var pos := start;
    unicode_spaces, found := before, [];
    while pos + 2 < |q|
      invariant start <= pos <= |q| && unicode_spaces == before + found
      invariant Run(q, Config(Regular, start)) == found + Run(q, Config(Regular, pos))
    {
      FoundMore(q, Config(Regular, start), found, Config(Regular, pos));
      if SpaceAt(q, pos) > 0 {
        unicode_spaces := unicode_spaces + [UnicodeSpace(pos, SpaceAt(q, pos))];
      }
      found := found + Found(q, Config(Regular, pos));
      if IsQuote(q[pos]) {
        return unicode_spaces, Config(InQuotes(q[pos]), pos + 1), found;
      } else if q[pos] == DOLLAR && (q[pos + 1] == DOLLAR || IsTagFirst(q[pos + 1])) {
        c := TagLoop(q, pos + 1);
        return;
      } else if q[pos] == DASH && q[pos + 1] == DASH {
        return unicode_spaces, Config(InComment, pos), found;
      }
      pos := pos + 1;
    }
    c := Config(End, pos);
    FoundMore(q, Config(Regular, start), found, Config(Regular, pos));
    assert found + [] == found;
  }

  lemma FoundMore(q: seq<Byte>, start: Config, found: seq<UnicodeSpace>, c: Config)
    requires start.pos <= |q| && c.pos <= |q| && !c.mode.End? && Run(q, start) == found + Run(q, c)
    ensures Run(q, start) == (found + Found(q, c)) + Run(q, Next(q, c))
  {
    RunStep(q, c);
    assert found + (Found(q, c) + Run(q, Next(q, c))) == (found + Found(q, c)) + Run(q, Next(q, c));
  }

  /** Reads the tag of a dollar quote: up to its '$', or back to `regular` at a character no tag may hold. */
  method TagLoop(q: seq<Byte>, start: nat) returns (c: Config)
    requires start <= |q|
    ensures start <= c.pos <= |q| && Run(q, Config(Tag([]), start)) == Run(q, c) && !c.mode.Tag?
  {
    var pos := start;
    assert q[start..pos] == [];
    while pos + 2 < |q|
      invariant start <= pos <= |q| && Run(q, Config(Tag([]), start)) == Run(q, Config(Tag(q[start..pos]), pos))
    {
      if q[pos] == DOLLAR {
        return Config(InDollarQuotes(q[start..pos]), pos);
      }
      if !IsTagSubsequent(q[pos]) {
        return Config(Regular, pos);
      }
      pos := pos + 1;
      assert q[start..pos] == q[start..pos - 1] + [q[pos - 1]];
    }
    return Config(End, pos);
  }

  method InQuotesLoop(q: seq<Byte>, start: nat, quote: Byte) returns (c: Config)
    requires start <= |q|
    ensures Jumps(q, Config(InQuotes(quote), start), [], c) && !c.mode.Tag?
  {
    var pos := start;
    while pos + 1 < |q|
      invariant start <= pos <= |q| && Run(q, Config(InQuotes(quote), start)) == Run(q, Config(InQuotes(quote), pos))
    {
      if q[pos] == quote {
        if q[pos + 1] == quote {
          pos := pos + 2;
          continue;
        }
        pos := pos + 1;
        return Config(Regular, pos);
      }
      pos := pos + 1;
    }
    return Config(End, pos);
  }

  /** Where nothing is recorded, the run is that from the next place. */
  lemma RunSkips(q: seq<Byte>, c: Config)
    requires c.pos <= |q| && !c.mode.End? && Found(q, c) == []
    ensures Run(q, c) == Run(q, Next(q, c))
  {
  }

  method InDollarQuotesLoop(q: seq<Byte>, start: nat, tag: seq<Byte>) returns (c: Config)
    requires start <= |q|
    ensures Jumps(q, Config(InDollarQuotes(tag), start), [], c) && !c.mode.Tag?
  {
    hide Run;
    var pos := start;
    while pos + 2 < |q|
      invariant start <= pos <= |q| && Run(q, Config(InDollarQuotes(tag), start))
                == Run(q, Config(InDollarQuotes(tag), pos))
    {
      RunSkips(q, Config(InDollarQuotes(tag), pos));
      if q[pos] == DOLLAR && |q| - (pos + 1) >= |tag| + 1 && q[pos + |tag| + 1] == DOLLAR
         && q[pos + 1..pos + 1 + |tag|] == tag
      {
        pos := pos + |tag| + 1;
        return Config(Regular, pos);
      }
      pos := pos + 1;
    }
    RunSkips(q, Config(InDollarQuotes(tag), pos));
    return Config(End, pos);
  }

  method InCommentLoop(q: seq<Byte>, start: nat) returns (c: Config)
    requires start <= |q|
    ensures Jumps(q, Config(InComment, start), [], c) && !c.mode.Tag?
  {
    var pos := start;
    while pos < |q|
      invariant start <= pos <= |q| && Run(q, Config(InComment, start)) == Run(q, Config(InComment, pos))
    {
      if IsNewline(q[pos]) {
        return Config(Regular, pos);
      }
      pos := pos + 1;
    }
    return Config(End, pos);
  }

  /** `StripUnicodeSpaces`: the gotos between the loops, then the splice. */
  method StripUnicodeSpaces(query: seq<Byte>) returns (found: bool, new_query: seq<Byte>)
    ensures var spaces := Run(query, Config(Regular, 0));
            found == (spaces != []) && (found ==> new_query == Compact(query, spaces, 0))
                && (!found ==> new_query == [])
  {
    hide Run, Rank;
    var c := Config(Regular, 0);
    var unicode_spaces: seq<UnicodeSpace> := [];
    while !c.mode.End?
      invariant c.pos <= |query| && !c.mode.Tag?
      invariant unicode_spaces + Run(query, c) == Run(query, Config(Regular, 0))
      decreases |query| - c.pos, Rank(query, c)
    {
      var d;
      ghost var found, before := [], unicode_spaces;
      match c.mode {
        case Regular => unicode_spaces, d, found := RegularLoop(query, c.pos, unicode_spaces);
        case InQuotes(quote) => d := InQuotesLoop(query, c.pos, quote);
        case InDollarQuotes(tag) => d := InDollarQuotesLoop(query, c.pos, tag);
        case InComment => d := InCommentLoop(query, c.pos);
      }
      assert Jumps(query, c, found, d);
      assert before + (found + Run(query, d)) == (before + found) + Run(query, d);
      c := d;
    }
    RunEnds(query, c);
    assert unicode_spaces + [] == unicode_spaces;
    RunOrdered(query, Config(Regular, 0));
    found, new_query := ReplaceUnicodeSpaces(query, unicode_spaces);
  }

  lemma RunEnds(q: seq<Byte>, c: Config)
    requires c.pos <= |q| && c.mode.End?
    ensures Run(q, c) == []
  {
  }

  // ----- what is recorded -----

  lemma ContinuationByte(q: seq<Byte>, p: nat)
    requires p < |q| && 0x80 <= q[p] < 0xC0
    ensures Run(q, Config(Regular, p)) == Run(q, Config(Regular, p + 1))
  {
    var c, d := Config(Regular, p), Config(Regular, p + 1);
    if p + 2 < |q| {
      assert Next(q, c) == d && Found(q, c) == [];
    } else {
      assert Next(q, c).mode.End? && Next(q, d).mode.End?;
    }
  }

  /** After a space is recorded, the run goes on behind it. */
  lemma SpaceRecorded(q: seq<Byte>, p: nat)
    requires p + 2 < |q| && SpaceAt(q, p) > 0
    ensures p + SpaceAt(q, p) <= |q|
    ensures Run(q, Config(Regular, p)) == [UnicodeSpace(p, SpaceAt(q, p))] + Run(q, Config(Regular, p + SpaceAt(q, p)))
  {
    hide Run, SpaceLength;
    SpaceBytes(q[p], q[p + 1], q[p + 2]);
    RunStep(q, Config(Regular, p));
    assert Next(q, Config(Regular, p)) == Config(Regular, p + 1);
    ContinuationByte(q, p + 1);
    if SpaceAt(q, p) == 3 { ContinuationByte(q, p + 2); }
  }

  /** A Unicode space is a lead byte and continuation bytes. */
  lemma SpaceBytes(a: Byte, b: Byte, c: Byte)
    requires SpaceLength(a, b, c) > 0
    ensures a >= 0xC2 && 0x80 <= b < 0xC0
    ensures SpaceLength(a, b, c) == 2 || (SpaceLength(a, b, c) == 3 && 0x80 <= c < 0xC0)
  {
  }

  lemma RunStep(q: seq<Byte>, c: Config)
    requires c.pos <= |q| && !c.mode.End?
    ensures Run(q, c) == Found(q, c) + Run(q, Next(q, c))
  {
  }

  lemma OrderedFrom(q: seq<Byte>, spaces: seq<UnicodeSpace>, p: nat, p2: nat)
    requires p <= p2 && Ordered(q, spaces, p2)
    ensures Ordered(q, spaces, p)
  {
  }

  /** The recorded ranges are in bounds, strictly increasing and disjoint, and each holds a Unicode space. */
  lemma {:induction false} RunOrdered(q: seq<Byte>, c: Config)
    requires c.pos <= |q|
    ensures Ordered(q, Run(q, c), c.pos)
    decreases |q| - c.pos, Rank(q, c)
  {
    hide Run, Next, Rank, SpaceLength;
    if c.mode.End? {
      RunEnds(q, c);
    } else if Found(q, c) != [] {
      SpaceRecorded(q, c.pos);
      RunOrdered(q, Config(Regular, c.pos + SpaceAt(q, c.pos)));
    } else {
      var d := Next(q, c);
      RunStep(q, c);
      assert Run(q, c) == Run(q, d);
      NextLower(q, c);
      RunOrdered(q, d);
      OrderedFrom(q, Run(q, d), c.pos, d.pos);
    }
  }

  lemma NextLower(q: seq<Byte>, c: Config)
    requires c.pos <= |q| && !c.mode.End?
    ensures var d := Next(q, c); c.pos < d.pos || (c.pos == d.pos && Rank(q, d) < Rank(q, c))
  {
  }

  // ----- a second run finds nothing -----

  /** The stripped query from p2 on is the query from c on with the spaces its run records replaced. */
  ghost predicate Follows(q: seq<Byte>, c: Config, out: seq<Byte>, p2: nat) {
    c.pos <= |q| && p2 <= |out| && out[p2..] == Compact(q, Run(q, c), c.pos)
  }

  lemma {:induction false} CompactShorter(q: seq<Byte>, spaces: seq<UnicodeSpace>, p: nat)
    requires p <= |q|
    ensures |Compact(q, spaces, p)| <= |q| - p
    decreases |q| - p
  {
    if p < |q| {
      if spaces != [] && spaces[0].pos == p && 0 < spaces[0].bytes <= |q| - p {
        CompactShorter(q, spaces[1..], p + spaces[0].bytes);
      } else {
        CompactShorter(q, spaces, p + 1);
      }
    }
  }

  /** Bytes the run passes without recording stand in the stripped query too. */
  lemma FollowsOn(q: seq<Byte>, c: Config, d: Config, out: seq<Byte>, p2: nat)
    requires Follows(q, c, out, p2) && c.pos <= d.pos <= |q| && Run(q, c) == Run(q, d)
    ensures p2 + (d.pos - c.pos) <= |out| && out[p2..p2 + (d.pos - c.pos)] == q[c.pos..d.pos]
    ensures Follows(q, d, out, p2 + (d.pos - c.pos))
  {
    hide Run, Compact, Ordered;
    var k := d.pos - c.pos;
    RunOrdered(q, d);
    CompactCopies(q, Run(q, c), c.pos, k);
    assert out[p2..][..k] == out[p2..p2 + k] && out[p2..][k..] == out[p2 + k..];
  }

  /** The byte after a passed byte is the same, or a space that replaces a Unicode space. */
  lemma HeadFollows(q: seq<Byte>, c: Config, out: seq<Byte>, p2: nat)
    requires Follows(q, c, out, p2) && p2 < |out|
    ensures c.pos < |q| && (out[p2] == q[c.pos] || (out[p2] == SPACE && c.mode != End && q[c.pos] >= 0xC2))
    ensures (Run(q, c) == [] || Run(q, c)[0].pos > c.pos) ==> out[p2] == q[c.pos]
  {
    hide Run, SpaceLength;
    RunOrdered(q, c);
    CompactShorter(q, Run(q, c), c.pos);
    assert out[p2..][0] == out[p2];
    if Run(q, c) != [] && Run(q, c)[0].pos == c.pos {
      SpaceBytes(q[c.pos], q[c.pos + 1], q[c.pos + 2]);
      assert c.mode != End by { if c.mode.End? { RunEnds(q, c); } }
    }
  }

  lemma CompactNonEmpty(q: seq<Byte>, spaces: seq<UnicodeSpace>, p: nat)
    requires p < |q|
    ensures Compact(q, spaces, p) != []
  {
  }

  /** Where the stripped query has no plain space, it is the query byte for byte. */
  lemma {:induction false} CompactWindow(q: seq<Byte>, spaces: seq<UnicodeSpace>, p: nat, n: nat)
    requires p <= |q| && n <= |Compact(q, spaces, p)|
    requires forall k :: 0 <= k < n ==> Compact(q, spaces, p)[k] != SPACE
    ensures p + n <= |q| && q[p..p + n] == Compact(q, spaces, p)[..n]
    decreases n
  {
    var s := Compact(q, spaces, p);
    if n > 0 {
      assert s[0] != SPACE;
      var rest := Compact(q, spaces, p + 1);
      assert s == [q[p]] + rest;
      forall k | 0 <= k < n - 1 ensures rest[k] != SPACE { assert s[k + 1] == rest[k]; }
      CompactWindow(q, spaces, p + 1, n - 1);
      assert q[p..p + n] == [q[p]] + q[p + 1..p + n];
      assert s[..n] == [q[p]] + rest[..n - 1];
    }
  }

  predicate GoodMode(m: Mode) {
    match m
    case InQuotes(quote) => IsQuote(quote)
    case Tag(read) => AllTag(read)
    case InDollarQuotes(tag) => AllTag(tag)
    case _ => true
  }

  predicate AllTag(tag: seq<Byte>) {
    forall k :: 0 <= k < |tag| ==> IsTagSubsequent(tag[k])
  }

  /** The second run does at p2 what the first did at c. */
  ghost predicate Mirrors(q: seq<Byte>, c: Config, out: seq<Byte>, p2: nat)
    requires c.pos <= |q| && p2 <= |out| && !c.mode.End?
  {
    var c2 := Config(c.mode, p2);
    var d := Next(q, c);
    Found(out, c2) == [] && (!Next(out, c2).mode.End? ==> Next(out, c2) == Config(d.mode, p2 + (d.pos - c.pos)))
  }

  lemma LongEnough(q: seq<Byte>, c: Config, out: seq<Byte>, p2: nat)
    requires Follows(q, c, out, p2)
    ensures |out| - p2 <= |q| - c.pos
    ensures c.pos < |q| ==> p2 < |out|
  {
    CompactShorter(q, Run(q, c), c.pos);
    if c.pos < |q| { CompactNonEmpty(q, Run(q, c), c.pos); }
    assert |out[p2..]| == |out| - p2;
  }

  /** A byte that is left behind by a silent step stands in the stripped query; so does a byte no space begins with. */
  lemma SameByte(q: seq<Byte>, c: Config, out: seq<Byte>, p2: nat)
    requires Follows(q, c, out, p2) && p2 < |out| && !c.mode.End? && Found(q, c) == []
    ensures c.pos < |q| && (Next(q, c).pos > c.pos || q[c.pos] < 0xC2 ==> out[p2] == q[c.pos])
  {
    hide Run, Next, SpaceLength, Compact;
    var d := Next(q, c);
    RunStep(q, c);
    assert Run(q, c) == Run(q, d);
    RunOrdered(q, d);
    HeadFollows(q, c, out, p2);
  }

  lemma TagMirrors(q: seq<Byte>, c: Config, out: seq<Byte>, p2: nat)
    requires Follows(q, c, out, p2) && c.mode.Tag?
    ensures Mirrors(q, c, out, p2)
  {
    hide Run, Compact;
    LongEnough(q, c, out, p2);
    if p2 + 2 < |out| { SameByte(q, c, out, p2); }
  }

  lemma CommentMirrors(q: seq<Byte>, c: Config, out: seq<Byte>, p2: nat)
    requires Follows(q, c, out, p2) && c.mode.InComment?
    ensures Mirrors(q, c, out, p2)
  {
    hide Run, Compact;
    LongEnough(q, c, out, p2);
    if p2 < |out| { SameByte(q, c, out, p2); }
  }

  lemma QuotesMirror(q: seq<Byte>, c: Config, out: seq<Byte>, p2: nat)
    requires Follows(q, c, out, p2) && c.mode.InQuotes? && IsQuote(c.mode.quote)
    ensures Mirrors(q, c, out, p2)
  {
    hide Run, Compact, Follows;
    LongEnough(q, c, out, p2);
    if p2 + 1 < |out| {
      SameByte(q, c, out, p2);
      var d := Next(q, c);
      RunStep(q, c);
      assert Run(q, c) == Run(q, d);
      FollowsOn(q, c, d, out, p2);
      if d.pos == c.pos + 1 {
        HeadFollows(q, d, out, p2 + 1);
      } else {
        assert out[p2..p2 + 2][1] == q[c.pos..c.pos + 2][1];
      }
    }
  }

  lemma DollarMirrors(q: seq<Byte>, c: Config, out: seq<Byte>, p2: nat)
    requires Follows(q, c, out, p2) && c.mode.InDollarQuotes? && AllTag(c.mode.tag)
    ensures Mirrors(q, c, out, p2)
  {
    hide Run, Compact;
    LongEnough(q, c, out, p2);
    if p2 + 2 < |out| {
      DollarCloses(q, c, out, p2);
    }
  }

  /** The closing test looks for the marker. */
  lemma ClosesAtMarker(q: seq<Byte>, tag: seq<Byte>, p: nat)
    requires p < |q|
    ensures ClosesDollar(q, tag, p) <==> p + |tag| + 2 <= |q| && q[p..p + |tag| + 2] == [DOLLAR] + tag + [DOLLAR]
  {
    var n := |tag| + 2;
    if p + n <= |q| {
      assert q[p..p + n] == [q[p]] + q[p + 1..p + 1 + |tag|] + [q[p + |tag| + 1]];
      var w, m := q[p..p + n], [DOLLAR] + tag + [DOLLAR];
      assert m[0] == DOLLAR && m[n - 1] == DOLLAR && m[1..n - 1] == tag;
      assert w[0] == q[p] && w[n - 1] == q[p + |tag| + 1] && w[1..n - 1] == q[p + 1..p + 1 + |tag|];
    }
  }

  lemma DollarCloses(q: seq<Byte>, c: Config, out: seq<Byte>, p2: nat)
    requires Follows(q, c, out, p2) && c.mode.InDollarQuotes? && AllTag(c.mode.tag)
    requires p2 + 2 < |out| && c.pos + 2 < |q|
    ensures ClosesDollar(q, c.mode.tag, c.pos) == ClosesDollar(out, c.mode.tag, p2)
  {
    hide Run, Compact, Follows;
    var tag, p := c.mode.tag, c.pos;
    var n, m := |tag| + 2, [DOLLAR] + tag + [DOLLAR];
    ClosesAtMarker(q, tag, p);
    ClosesAtMarker(out, tag, p2);
    if ClosesDollar(out, tag, p2) {
      forall k | p2 <= k < p2 + n ensures out[k] != SPACE { assert out[k] == m[k - p2]; }
      WindowFollows(q, c, out, p2, n);
    }
    if ClosesDollar(q, tag, p) {
      var d := Next(q, c);
      RunStep(q, c);
      assert Run(q, c) == Run(q, d);
      FollowsOn(q, c, d, out, p2);
      LongEnough(q, d, out, p2 + n - 1);
      HeadFollows(q, d, out, p2 + n - 1);
      assert out[p2..p2 + n] == out[p2..p2 + n - 1] + [out[p2 + n - 1]];
      assert q[p..p + n] == q[p..p + n - 1] + [q[p + n - 1]];
      assert q[p..p + n][n - 1] == m[n - 1];
    }
  }

  lemma WindowFollows(q: seq<Byte>, c: Config, out: seq<Byte>, p2: nat, n: nat)
    requires Follows(q, c, out, p2) && p2 + n <= |out| && forall k :: p2 <= k < p2 + n ==> out[k] != SPACE
    ensures c.pos + n <= |q| && q[c.pos..c.pos + n] == out[p2..p2 + n]
  {
    hide Run;
    var s := Compact(q, Run(q, c), c.pos);
    forall k | 0 <= k < n ensures s[k] != SPACE { assert out[p2..][k] == out[p2 + k]; }
    CompactWindow(q, Run(q, c), c.pos, n);
    assert out[p2..][..n] == out[p2..p2 + n];
  }

  /** The stripped query holds no Unicode space where the first run passed none. */
  lemma NoSpaceAppears(q: seq<Byte>, c: Config, out: seq<Byte>, p2: nat)
    requires Follows(q, c, out, p2) && c.mode.Regular? && Found(q, c) == [] && p2 + 2 < |out| && c.pos + 2 < |q|
    ensures SpaceAt(out, p2) == 0
  {
    hide Run, Compact, Follows;
    SameByte(q, c, out, p2);
    if SpaceAt(out, p2) > 0 {
      SpaceBytes(out[p2], out[p2 + 1], out[p2 + 2]);
      LeadByteAlone(q, c, out, p2);
    }
  }

  lemma LeadByteAlone(q: seq<Byte>, c: Config, out: seq<Byte>, p2: nat)
    requires Follows(q, c, out, p2) && c.mode.Regular? && Found(q, c) == [] && p2 + 2 < |out| && c.pos + 2 < |q|
    requires q[c.pos] >= 0xC2 && out[p2] == q[c.pos]
    ensures SpaceAt(out, p2) == 0
  {
    hide Run, Compact, Follows, SpaceLength;
    var d := Config(Regular, c.pos + 1);
    RunStep(q, c);
    assert Next(q, c) == d;
    assert Run(q, c) == Run(q, d);
    FollowsOn(q, c, d, out, p2);
    HeadFollows(q, d, out, p2 + 1);
    if SpaceAt(out, p2) > 0 {
      SpaceBytes(out[p2], out[p2 + 1], out[p2 + 2]);
      ContinuationByte(q, c.pos + 1);
      var e := Config(Regular, c.pos + 2);
      FollowsOn(q, d, e, out, p2 + 1);
      HeadFollows(q, e, out, p2 + 2);
      ShortSpace(out[p2], out[p2 + 1], out[p2 + 2], q[c.pos + 2]);
      assert false;
    }
  }

  /** A two-byte space does not look at the third byte. */
  lemma ShortSpace(a: Byte, b: Byte, c: Byte, c2: Byte)
    requires SpaceLength(a, b, c) == 2
    ensures SpaceLength(a, b, c2) == 2
  {
  }

  lemma TagPassesFirst(q: seq<Byte>, p: nat)
    requires p < |q| && (q[p] == DOLLAR || IsTagFirst(q[p]))
    ensures var spaces := Run(q, Config(Tag([]), p)); spaces == [] || spaces[0].pos > p || q[p] == DOLLAR
  {
    hide Run, SpaceLength, Compact;
    var c := Config(Tag([]), p);
    RunStep(q, c);
    var d := Next(q, c);
    if d.mode.End? {
      RunEnds(q, d);
    } else {
      RunOrdered(q, d);
    }
  }

  lemma RegularMirrors(q: seq<Byte>, c: Config, out: seq<Byte>, p2: nat)
    requires Follows(q, c, out, p2) && c.mode.Regular? && Found(q, c) == []
    ensures Mirrors(q, c, out, p2)
  {
    hide Run, Compact, Follows, SpaceLength, SpaceAt, EntersTag;
    LongEnough(q, c, out, p2);
    if p2 + 2 < |out| {
      NoSpaceAppears(q, c, out, p2);
      SameByte(q, c, out, p2);
      NextByte(q, c, out, p2);
    }
  }

  lemma NextByte(q: seq<Byte>, c: Config, out: seq<Byte>, p2: nat)
    requires Follows(q, c, out, p2) && c.mode.Regular? && Found(q, c) == [] && p2 + 2 < |out| && c.pos + 2 < |q|
    requires out[p2] == q[c.pos]
    ensures EntersTag(q, c.pos) == EntersTag(out, p2)
    ensures q[c.pos] == DASH ==> (q[c.pos + 1] == DASH <==> out[p2 + 1] == DASH)
  {
    hide Run, Compact, Follows, SpaceLength, SpaceAt;
    if q[c.pos] == DOLLAR || q[c.pos] == DASH {
      var d := Next(q, c);
      RunStep(q, c);
      assert Run(q, c) == Run(q, d);
      if d.mode.InComment? {
        var e := Config(InComment, c.pos + 1);
        RunStep(q, d);
        assert Run(q, d) == Run(q, e);
        FollowsOn(q, c, e, out, p2);
        HeadFollows(q, e, out, p2 + 1);
      } else {
        FollowsOn(q, c, d, out, p2);
        HeadFollows(q, d, out, p2 + 1);
        if EntersTag(q, c.pos) { TagPassesFirst(q, c.pos + 1); }
      }
    }
  }

  lemma NextMirrors(q: seq<Byte>, c: Config, out: seq<Byte>, p2: nat)
    requires Follows(q, c, out, p2) && GoodMode(c.mode) && !c.mode.End? && Found(q, c) == []
    ensures Mirrors(q, c, out, p2)
  {
    hide Run, Compact, Follows, Mirrors, Found;
    match c.mode {
      case Regular => RegularMirrors(q, c, out, p2);
      case Tag(_) => TagMirrors(q, c, out, p2);
      case InQuotes(_) => QuotesMirror(q, c, out, p2);
      case InDollarQuotes(_) => DollarMirrors(q, c, out, p2);
      case InComment => CommentMirrors(q, c, out, p2);
    }
  }

  /** A recorded space leaves a plain one, at which a second run finds nothing. */
  lemma SpaceFollows(q: seq<Byte>, c: Config, out: seq<Byte>, p2: nat)
    requires Follows(q, c, out, p2) && Found(q, c) != []
    ensures c.pos + SpaceAt(q, c.pos) <= |q| && p2 < |out| && out[p2] == SPACE
    ensures Follows(q, Config(Regular, c.pos + SpaceAt(q, c.pos)), out, p2 + 1)
  {
    hide Run, SpaceLength;
    SpaceRecorded(q, c.pos);
    var d := Config(Regular, c.pos + SpaceAt(q, c.pos));
    assert Run(q, c)[1..] == Run(q, d);
    assert out[p2..] == [SPACE] + Compact(q, Run(q, d), d.pos);
    assert out[p2] == out[p2..][0];
    assert out[p2 + 1..] == out[p2..][1..];
  }

  lemma PlainSpace(out: seq<Byte>, p2: nat)
    requires p2 < |out| && out[p2] == SPACE
    ensures Run(out, Config(Regular, p2)) == Run(out, Config(Regular, p2 + 1))
  {
    var c, d := Config(Regular, p2), Config(Regular, p2 + 1);
    if p2 + 2 < |out| {
      assert Next(out, c) == d && Found(out, c) == [];
    } else {
      assert Next(out, c).mode.End? && Next(out, d).mode.End?;
    }
  }

  lemma GoodModeKept(q: seq<Byte>, c: Config)
    requires c.pos <= |q| && !c.mode.End? && GoodMode(c.mode)
    ensures GoodMode(Next(q, c).mode)
  {
  }

  lemma {:induction false} SecondRunSilent(q: seq<Byte>, c: Config, out: seq<Byte>, p2: nat)
    requires Follows(q, c, out, p2) && GoodMode(c.mode)
    ensures Run(out, Config(c.mode, p2)) == []
    decreases |q| - c.pos, Rank(q, c)
  {
    hide Run, Next, Found, Rank, SpaceAt, Compact, GoodMode, Follows;
    var c2 := Config(c.mode, p2);
    FollowsBounds(q, c, out, p2);
    if c.mode.End? {
      RunEnds(out, c2);
    } else if Found(q, c) != [] {
      RecordedHere(q, c);
      SpaceFollows(q, c, out, p2);
      PlainSpace(out, p2);
      SecondRunSilent(q, Config(Regular, c.pos + SpaceAt(q, c.pos)), out, p2 + 1);
    } else {
      NextMirrors(q, c, out, p2);
      RunStep(out, c2);
      var d, d2 := Next(q, c), Next(out, c2);
      if d2.mode.End? {
        RunEnds(out, d2);
      } else {
        RunStep(q, c);
        assert Run(q, c) == Run(q, d);
        NextLower(q, c);
        FollowsOn(q, c, d, out, p2);
        GoodModeKept(q, c);
        SecondRunSilent(q, d, out, d2.pos);
      }
    }
  }

  lemma FollowsBounds(q: seq<Byte>, c: Config, out: seq<Byte>, p2: nat)
    requires Follows(q, c, out, p2)
    ensures c.pos <= |q| && p2 <= |out|
  {
  }

  lemma RecordedHere(q: seq<Byte>, c: Config)
    requires Found(q, c) != []
    ensures c.mode.Regular? && GoodMode(Regular) && c.pos + 2 < |q| && SpaceAt(q, c.pos) > 0
  {
  }

  /** Stripping is idempotent: a second run on the stripped query finds nothing. */
  lemma StrippingIdempotent(query: seq<Byte>)
    ensures Run(Compact(query, Run(query, Config(Regular, 0)), 0), Config(Regular, 0)) == []
  {
    var out := Compact(query, Run(query, Config(Regular, 0)), 0);
    assert out[0..] == out;
    SecondRunSilent(query, Config(Regular, 0), out, 0);
  }
}
