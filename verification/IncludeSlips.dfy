/** Replacements of a statement outside its place: each one loses own text, doubles a line, or leaves blanks behind, and
    no later replacement makes up for that. */
module IncludeSlips {
  import opened Amalgamation
  import opened TextReplacement
  import opened IncludeReplacement
  import opened IncludeTexts

  // ----- texts with slips -----

  /** Characters of the files only, every line ended, and nothing twice unless a line end is. */
  ghost predicate Shaped(t: seq<Mark>, files: set<File>) {
    Tellable(t) && forall m :: m in t ==> m.file in files
  }

  /** A line that starts in an include statement, of which only blanks are left over, and goes on with own text. */
  ghost predicate StrayLine(g: Graph, line: seq<Mark>) {
    && line != [] && EndsLine(line)
    && !IsOwnMark(g, line[0])
    && forall m :: m in line ==> IsBlank(m.c) || IsOwnMark(g, m)
  }

  ghost predicate Stray(g: Graph, t: seq<Mark>) {
    exists x: seq<Mark>, line: seq<Mark>, y: seq<Mark> :: t == x + line + y && EndsLine(x) && StrayLine(g, line)
  }

  ghost predicate Missing(g: Graph, t: seq<Mark>, files: set<File>) {
    exists m :: IsOwnMark(g, m) && m.file in files && m !in t
  }

  /** Signs of a slip which no later replacement removes. */
  ghost predicate Damaged(g: Graph, t: seq<Mark>, files: set<File>) {
    Doubled(t) || Missing(g, t, files) || Stray(g, t)
  }

  lemma DamagedIsNotWhole(g: Graph, t: seq<Mark>, files: set<File>)
    requires Damaged(g, t, files)
    ensures !Whole(g, t, files)
  {
    hide IsOwnMark, Adjacent, EndsLine;
    if Stray(g, t) {
      var x: seq<Mark>, line: seq<Mark>, y: seq<Mark> :| t == x + line + y && EndsLine(x) && StrayLine(g, line);
      assert line[0] in t;
    }
  }

  lemma LastChar(s: Statement)
    ensures |s| > 0 && !IsBlank(s[|s| - 1])
  {
  }

  /** Any replacement in a shaped text, and its damages stay. */
  lemma StepShaped(g: Graph, t: seq<Mark>, files: set<File>, s: Statement, put: seq<Mark>, more: set<File>)
    requires '\n' !in s && Shaped(t, files) && Shaped(put, more) && files !! more
    ensures Shaped(ReplaceMarks(t, s, put), files + more)
    ensures Damaged(g, t, files) ==> Damaged(g, ReplaceMarks(t, s, put), files + more)
  {
    hide Tellable, ReplaceMarks, IsStatement, IsOwnMark, Doubled, Stray;
    LastChar(s);
    var r := ReplaceMarks(t, s, put);
    StaysTellable(t, s, put);
    forall m | m in r ensures m.file in files + more { MarksFrom(t, s, put, m); }
    if Missing(g, t, files) {
      var m :| IsOwnMark(g, m) && m.file in files && m !in t;
      MissingStays(g, t, files, s, put, more, m);
    }
    if Stray(g, t) && !Doubled(r) { StrayStays(g, t, files, s, put, more); }
  }

  lemma MissingStays(g: Graph, t: seq<Mark>, files: set<File>, s: Statement, put: seq<Mark>, more: set<File>, m: Mark)
    requires Shaped(put, more) && files !! more && IsOwnMark(g, m) && m.file in files && m !in t
    ensures Missing(g, ReplaceMarks(t, s, put), files + more)
  {
    hide ReplaceMarks, IsOwnMark, Tellable;
    LastChar(s);
    if m in ReplaceMarks(t, s, put) { MarksFrom(t, s, put, m); }
  }

  /** An own character that a replacement takes away is missing. */
  lemma LostIsMissing(g: Graph, t: seq<Mark>, files: set<File>, s: Statement, put: seq<Mark>, more: set<File>, m: Mark)
    requires Shaped(put, more) && files !! more && IsOwnMark(g, m) && m.file in files
    requires m !in ReplaceMarks(t, s, [])
    ensures Missing(g, ReplaceMarks(t, s, put), files + more)
  {
    hide ReplaceMarks, IsOwnMark, Tellable, Hits;
    LastChar(s);
    assert m !in put;
    Counts(t, s, put, m);
    var r := ReplaceMarks(t, s, put);
    assert Hits(t, s) * multiset(put)[m] == 0;
    assert m in r <==> multiset(r)[m] > 0;
  }

  lemma StrayStays(g: Graph, t: seq<Mark>, files: set<File>, s: Statement, put: seq<Mark>, more: set<File>)
    requires '\n' !in s && Shaped(t, files) && Shaped(put, more) && files !! more && Stray(g, t)
    requires !Doubled(ReplaceMarks(t, s, put))
    ensures Damaged(g, ReplaceMarks(t, s, put), files + more)
  {
    hide ReplaceMarks, IsOwnMark, Occurs, Doubled, StrayLine, NoCopies, Hits;
    LastChar(s);
    var x: seq<Mark>, line: seq<Mark>, y: seq<Mark> :| t == x + line + y && EndsLine(x) && StrayLine(g, line);
    StrayEnds(g, line);
    StaysTellable(t, s, put);
    NotBoth(t, s, put);
    CutTwice(x, line, y, s, put);
    CutTwice(x, line, y, s, []);
    if q :| Occurs(line, s, q) {
      NoCopiesInside(x, line, y);
      var first := FirstLost(line, s, q);
      var m := line[first + |s| - 1];
      OccursLast(line, s, first);
      StrayOwn(g, line, m);
      assert m in t && m.file in files;
      NotInOthers(x, line, y, m);
      if m in ReplaceMarks(x, s, []) { MarksFrom(x, s, [], m); }
      if m in ReplaceMarks(y, s, []) { MarksFrom(y, s, [], m); }
      LostIsMissing(g, t, files, s, put, more, m);
    } else {
      NoHit(line, s, put);
      assert Stray(g, ReplaceMarks(t, s, put));
    }
  }

  lemma StrayEnds(g: Graph, line: seq<Mark>)
    requires StrayLine(g, line)
    ensures EndsLine(line)
  {
  }

  lemma StrayOwn(g: Graph, line: seq<Mark>, m: Mark)
    requires StrayLine(g, line) && m in line && !IsBlank(m.c)
    ensures IsOwnMark(g, m)
  {
  }

  lemma NotBoth(t: seq<Mark>, s: Statement, put: seq<Mark>)
    requires Tellable(t) && !Doubled(ReplaceMarks(t, s, put)) && (Doubled(t) ==> Doubled(ReplaceMarks(t, s, put)))
    ensures NoCopies(t)
  {
  }

  lemma CutTwice(x: seq<Mark>, line: seq<Mark>, y: seq<Mark>, s: Statement, put: seq<Mark>)
    requires '\n' !in s && EndsLine(x) && EndsLine(line)
    ensures ReplaceMarks(x + line + y, s, put) ==
            ReplaceMarks(x, s, put) + ReplaceMarks(line, s, put) + ReplaceMarks(y, s, put)
    ensures EndsLine(put) ==> EndsLine(ReplaceMarks(x, s, put))
  {
    hide ReplaceMarks;
    Regroup(x, line, y);
    Cut(x, line + y, s, put);
    Cut(line, y, s, put);
  }

  lemma NoCopiesInside(x: seq<Mark>, line: seq<Mark>, y: seq<Mark>)
    requires NoCopies(x + line + y)
    ensures NoCopies(line)
  {
    var t := x + line + y;
    forall m ensures multiset(line)[m] <= 1 {
      assert multiset(t)[m] == multiset(x)[m] + multiset(line)[m] + multiset(y)[m];
    }
  }

  lemma NotInOthers(x: seq<Mark>, line: seq<Mark>, y: seq<Mark>, m: Mark)
    requires NoCopies(x + line + y) && m in line
    ensures m !in x && m !in y
  {
    OnceOnly(x, line, y, x + line + y, m);
  }

  // ----- a statement that is found elsewhere -----

  lemma SettledText(g: Graph, f: File, k: nat, before: seq<Mark>, files: set<File>)
    requires Linewise(g) && f in g.files && k <= |g.files[f]| && f in files && Settled(g, f, k, before, files)
    ensures var t := before + Rest(g, f, k);
            Adjacent(t) && Sound(g, t) && Shaped(t, files) && NoCopies(t)
  {
    hide Content, Start, InStatement, Follows, Doubled;
    var t := before + Rest(g, f, k);
    SourceMarks(g, f);
    StartBound(g.files[f], k);
    var u, a := Source(g, f), Start(g.files[f], k);
    assert u == u[..a] + u[a..];
    forall m ensures multiset(u[a..])[m] <= 1 {
      assert multiset(u)[m] == multiset(u[..a])[m] + multiset(u[a..])[m];
    }
    forall m | m in u[a..] ensures m in u && m.at >= a { }
    NoCopiesConcat(before, u[a..]);
    if t != [] { assert Follows(t, |t| - 1); LastFollows(t); }
  }

  lemma LastFollows(t: seq<Mark>)
    requires t != [] && Follows(t, |t| - 1)
    ensures EndsLine(t)
  {
  }

  /** With a clear step the statement stands in the text spliced so far only in its place. */
  lemma ClearOnlyHere(g: Graph, f: File, k: nat, before: seq<Mark>, files: set<File>)
    requires Linewise(g) && f in g.files && k < |g.files[f]| && g.files[f][k].Include? && f in files
             && files <= g.files.Keys && Settled(g, f, k, before, files)
    requires ClearStep(g, f, k, files)
    ensures OnlyHere(before + Rest(g, f, k), g.files[f][k].statement, |before|)
  {
    hide Content, Start, InStatement, Occurs, Adjacent, Sound, IsStatement, Rest, ClearStep, IsMark;
    hide Settled, Linewise, Shaped, NoCopies;
    var s, t := g.files[f][k].statement, before + Rest(g, f, k);
    SettledText(g, f, k, before, files);
    LastChar(s);
    forall q | Occurs(t, s, q) ensures |before| <= q < |before| + |s| {
      OccursInside(t, s, q);
      NoBreak(g, f, k);
      SameOccurrence(g, t, q, s);
      var m := t[q];
      if q < |before| {
        BeforeOwn(g, f, k, before, files, m);
        OwnNotBelow(g, m, if m.file == f then k + 1 else |g.files[m.file]|);
        ClearMeans(g, f, k, files, m);
      } else if q >= |before| + |s| {
        RestAt(g, f, k, q - |before|);
        PieceAt(g.files[f], k);
        NotBelow(g.files[f], m.at, k + 1);
        ClearMeans(g, f, k, files, m);
      }
    }
  }

  lemma BeforeOwn(g: Graph, f: File, k: nat, before: seq<Mark>, files: set<File>, m: Mark)
    requires f in g.files && k <= |g.files[f]| && Settled(g, f, k, before, files) && m in before
    ensures IsOwnMark(g, m) && m.file in files
  {
  }

  lemma NotBelow(ps: seq<Piece>, p: int, n: nat)
    requires n <= |ps| && Start(ps, n) <= p
    ensures !InStatement(ps, p, n)
  {
    if InStatement(ps, p, n) { InStatementBelow(ps, p, n); }
  }

  lemma ClearMeans(g: Graph, f: File, k: nat, files: set<File>, m: Mark)
    requires f in g.files && k < |g.files[f]| && g.files[f][k].Include? && files <= g.files.Keys
    requires ClearStep(g, f, k, files) && IsMark(g, m) && m.file in files
    requires Occurs(Source(g, m.file), g.files[f][k].statement, m.at)
    ensures InStatement(g.files[m.file], m.at, if m.file == f then k + 1 else |g.files[m.file]|)
  {
    hide Occurs, InStatement, IsStatement, Content;
  }

  lemma NoBreak(g: Graph, f: File, k: nat)
    requires Linewise(g) && f in g.files && k < |g.files[f]| && g.files[f][k].Include?
    ensures '\n' !in g.files[f][k].statement && EndsLine(Above(g, f, k))
  {
  }

  lemma OwnNotBelow(g: Graph, m: Mark, n: nat)
    requires IsOwnMark(g, m) && n <= |g.files[m.file]|
    ensures !InStatement(g.files[m.file], m.at, n)
  {
    hide Start, Content;
  }

  lemma RestAt(g: Graph, f: File, k: nat, i: nat)
    requires f in g.files && k <= |g.files[f]| && i < |Rest(g, f, k)|
    ensures Start(g.files[f], k) + i < |Source(g, f)|
    ensures Rest(g, f, k)[i] == Source(g, f)[Start(g.files[f], k) + i]
    ensures Rest(g, f, k)[i].file == f && Rest(g, f, k)[i].at == Start(g.files[f], k) + i
  {
    hide Content, Start;
    StartBound(g.files[f], k);
  }

  /** Otherwise it stands before its place, or after it. */
  lemma UnclearElsewhere(g: Graph, f: File, k: nat, before: seq<Mark>, files: set<File>) returns (q: nat)
    requires Linewise(g) && f in g.files && k < |g.files[f]| && g.files[f][k].Include? && f in files
             && files <= g.files.Keys && Settled(g, f, k, before, files)
    requires !ClearStep(g, f, k, files)
    ensures var s := g.files[f][k].statement;
            Occurs(before + Rest(g, f, k), s, q) && (q < |before| || |before| + |s| <= q)
  {
    hide Content, Start, Occurs, Adjacent, Sound, IsStatement, Rest, Linewise, Shaped, NoCopies, ClearStep, IsOwnMark;
    hide Settled;
    var s, t := g.files[f][k].statement, before + Rest(g, f, k);
    SettledText(g, f, k, before, files);
    LastChar(s);
    NoBreak(g, f, k);
    var m := UnclearMark(g, f, k, files);
    if IsOwnMark(g, m) && (m.file == f ==> m.at < Start(g.files[f], k)) {
      BeforeHas(g, f, k, before, files, m);
      q :| 0 <= q < |before| && before[q] == m;
    } else {
      PieceAt(g.files[f], k);
      RestSize(g, f, k);
      q := |before| + (m.at - Start(g.files[f], k));
      RestAt(g, f, k, m.at - Start(g.files[f], k));
    }
    assert t[q] == m;
    SameOccurrence(g, t, q, s);
  }

  lemma BeforeHas(g: Graph, f: File, k: nat, before: seq<Mark>, files: set<File>, m: Mark)
    requires f in g.files && k <= |g.files[f]| && Settled(g, f, k, before, files)
    requires IsOwnMark(g, m) && m.file in files && (m.file == f ==> m.at < Start(g.files[f], k))
    ensures m in before
  {
  }

  lemma UnclearMark(g: Graph, f: File, k: nat, files: set<File>) returns (m: Mark)
    requires f in g.files && k < |g.files[f]| && g.files[f][k].Include? && f in files && files <= g.files.Keys
    requires !ClearStep(g, f, k, files)
    ensures IsMark(g, m) && m.file in files && Occurs(Source(g, m.file), g.files[f][k].statement, m.at)
    ensures || (IsOwnMark(g, m) && (m.file == f ==> m.at < Start(g.files[f], k)))
            || (m.file == f && Start(g.files[f], k + 1) <= m.at)
  {
    hide Content, Start, Occurs, IsStatement;
    var h, p :| h in files && 0 <= p < |Source(g, h)| && Occurs(Source(g, h), g.files[f][k].statement, p)
                && !InStatement(g.files[h], p, if h == f then k + 1 else |g.files[h]|);
    m := Source(g, h)[p];
    if h == f && p < Start(g.files[f], k + 1) { InStatementUpTo(g.files[f], p, k + 1); }
  }

  lemma RestSize(g: Graph, f: File, k: nat)
    requires f in g.files && k <= |g.files[f]|
    ensures Start(g.files[f], k) + |Rest(g, f, k)| == |Source(g, f)|
  {
    StartBound(g.files[f], k);
  }

  // ----- a statement inside a later one -----

  /** The parts of a statement: one number sign after blanks, then no quote before the two quotes around the name. */
  lemma StatementParts(s: Statement) returns (hash: nat, quote: nat)
    ensures hash < quote < |s| - 1 && s[hash] == '#' && s[quote] == '"' && s[|s| - 1] == '"'
    ensures forall i :: 0 <= i < hash ==> IsBlank(s[i])
    ensures forall i :: hash < i < quote ==> s[i] != '#' && s[i] != '"'
    ensures forall i :: quote < i < |s| - 1 ==> s[i] != '"'
  {
    hash := SkipBlanks(s, 0);
    var r := s[hash + 1..];
    var word := DirectiveParts(r);
    quote := hash + 1 + word;
    forall i | hash < i < quote ensures s[i] != '#' && s[i] != '"' { assert s[i] == r[i - hash - 1]; }
    forall i | quote < i < |s| - 1 ensures s[i] != '"' { assert s[i] == r[i - hash - 1]; }
  }

  lemma DirectiveParts(s: string) returns (quote: nat)
    requires IsDirective(s)
    ensures quote < |s| - 1 && s[quote] == '"' && s[|s| - 1] == '"'
    ensures forall i :: 0 <= i < quote ==> s[i] != '#' && s[i] != '"'
    ensures forall i :: quote < i < |s| - 1 ==> s[i] != '"'
  {
    var word := SkipBlanks(s, 0);
    var r := s[word + 7..];
    var first := SkipBlanks(r, 0);
    quote := word + 7 + first;
    forall i | word <= i < word + 7 ensures s[i] != '#' && s[i] != '"' { assert s[i] == s[word..word + 7][i - word]; }
    forall i | word + 7 <= i < quote ensures s[i] != '#' && s[i] != '"' { assert s[i] == r[i - word - 7]; }
    forall i | quote < i < |s| - 1 ensures s[i] != '"' {
      assert s[i] == r[first + 1..|r| - 1][i - word - 7 - first - 1];
    }
  }

  /** A statement stands in another one only at its end, after blanks. */
  lemma StatementInside(s: Statement, t: Statement, d: nat)
    requires d + |s| <= |t| && t[d..d + |s|] == s
    ensures d + |s| == |t| && forall i :: 0 <= i < d ==> IsBlank(t[i])
    ensures s != t ==> d > 0
  {
    hide IsStatement, SkipBlanks;
    var h1, q1 := StatementParts(s);
    var h2, q2 := StatementParts(t);
    InsideAt(s, t, d, h1);
    InsideAt(s, t, d, q1);
    InsideAt(s, t, d, |s| - 1);
    BlankIsNone('#');
    BlankIsNone('"');
    assert d == 0 ==> t[d..d + |s|] == t;
  }

  lemma InsideAt(s: string, t: string, d: nat, i: nat)
    requires d + |s| <= |t| && t[d..d + |s|] == s && i < |s|
    ensures t[d + i] == s[i]
  {
    assert t[d..d + |s|][i] == t[d + i];
  }

  lemma BlankIsNone(c: char)
    requires c == '#' || c == '"'
    ensures !IsBlank(c)
  {
  }

  lemma StatementAt(g: Graph, f: File, j: nat)
    requires f in g.files && j < |g.files[f]| && g.files[f][j].Include?
    ensures var ps := g.files[f];
            && Start(ps, j) < Start(ps, j + 1) <= |Source(g, f)|
            && Start(ps, j + 1) == Start(ps, j) + |ps[j].statement|
            && Content(ps)[Start(ps, j)..Start(ps, j + 1)] == ps[j].statement
            && Source(g, f)[Start(ps, j + 1) - 1].c == '"'
  {
    hide Content, Start;
    var ps := g.files[f];
    PieceAt(ps, j);
    var _, _ := StatementParts(ps[j].statement);
    var n := |ps[j].statement|;
    assert Content(ps)[Start(ps, j)..Start(ps, j + 1)][n - 1] == Content(ps)[Start(ps, j + 1) - 1];
  }

  /** No statement starts right after another one. */
  lemma StatementsApart(g: Graph, f: File, j: nat, i: nat)
    requires Linewise(g) && f in g.files && j < |g.files[f]| && g.files[f][j].Include?
             && i < |g.files[f]| && g.files[f][i].Include?
    ensures Start(g.files[f], i) != Start(g.files[f], j + 1)
  {
    hide Content, Start, IsStatement, Above, EndsLine;
    StatementAt(g, f, j);
    NoBreak(g, f, i);
    if Start(g.files[f], i) == Start(g.files[f], j + 1) {
      LastAbove(g, f, i, Source(g, f)[Start(g.files[f], j + 1) - 1]);
    }
  }

  /** An occurrence inside statements is the end of one later statement, after blanks. */
  lemma InsideLater(g: Graph, f: File, k: nat, p: nat) returns (j: nat)
    requires Linewise(g) && f in g.files && g.Parses(f) && k < |g.files[f]| && g.files[f][k].Include?
    requires var ps := g.files[f];
             && Start(ps, k + 1) <= p && Occurs(Source(g, f), ps[k].statement, p)
             && forall i :: p <= i < p + |ps[k].statement| ==> InStatement(ps, i, |ps|)
    ensures var ps := g.files[f];
            && k < j < |ps| && ps[j].Include?
            && Start(ps, j) < p && p + |ps[k].statement| == Start(ps, j + 1) <= |Source(g, f)|
            && forall i :: Start(ps, j) <= i < p ==> IsBlank(Source(g, f)[i].c)
  {
    hide Content, Start, Occurs, Linewise, IsStatement, IsBlank, InStatement;
    var ps, s := g.files[f], g.files[f][k].statement;
    LastChar(s);
    assert InStatement(ps, p, |ps|);
    j := StatementOf(ps, p);
    StatementAt(g, f, j);
    LaterPiece(ps, k, j, p);
    OneStatement(g, f, j, p, |s|);
    var d := p - Start(ps, j);
    StandsInside(g, f, s, p, Start(ps, j), ps[j].statement);
    DifferentStatements(g, f, k, j);
    StatementInside(s, ps[j].statement, d);
    forall i | Start(ps, j) <= i < p ensures IsBlank(Source(g, f)[i].c) {
      assert Source(g, f)[i].c == ps[j].statement[i - Start(ps, j)];
    }
  }

  lemma LaterPiece(ps: seq<Piece>, k: nat, j: nat, p: int)
    requires k < |ps| && j < |ps| && Start(ps, k + 1) <= p < Start(ps, j + 1)
    ensures k < j
  {
    hide Start, Content;
    if j <= k { StartsMonotone(ps, j + 1, k + 1); }
  }

  lemma StatementOf(ps: seq<Piece>, p: int) returns (j: nat)
    requires InStatement(ps, p, |ps|)
    ensures j < |ps| && ps[j].Include? && Start(ps, j) <= p < Start(ps, j + 1)
  {
    j :| 0 <= j < |ps| && ps[j].Include? && Start(ps, j) <= p < Start(ps, j + 1);
  }

  lemma DifferentStatements(g: Graph, f: File, k: nat, j: nat)
    requires g.Parses(f) && k < |g.files[f]| && j < |g.files[f]| && j != k
             && g.files[f][k].Include? && g.files[f][j].Include?
    ensures g.files[f][k].statement != g.files[f][j].statement
  {
    hide IsStatement;
  }

  lemma OneStatement(g: Graph, f: File, j: nat, p: nat, n: nat)
    requires Linewise(g) && f in g.files && j < |g.files[f]| && g.files[f][j].Include?
    requires Start(g.files[f], j) <= p < Start(g.files[f], j + 1)
    requires forall i :: p <= i < p + n ==> InStatement(g.files[f], i, |g.files[f]|)
    ensures p + n <= Start(g.files[f], j + 1)
  {
    hide Content, Start, Linewise, IsStatement;
    var ps, e := g.files[f], Start(g.files[f], j + 1);
    if p + n > e {
      assert InStatement(ps, e, |ps|);
      var i :| 0 <= i < |ps| && ps[i].Include? && Start(ps, i) <= e < Start(ps, i + 1);
      StatementsApart(g, f, j, i);
      SpansApart(ps, e - 1, j);
    }
  }

  lemma StandsInside(g: Graph, f: File, s: string, p: nat, a: nat, t: string)
    requires f in g.files && Occurs(Source(g, f), s, p) && a <= p && p + |s| <= a + |t| <= |Source(g, f)|
             && Content(g.files[f])[a..a + |t|] == t
    ensures t[p - a..p - a + |s|] == s
    ensures forall i :: a <= i < a + |t| ==> Source(g, f)[i].c == t[i - a]
  {
    hide Content;
    var text := Content(g.files[f]);
    forall i | a <= i < a + |t| ensures Source(g, f)[i].c == t[i - a] { assert text[a..a + |t|][i - a] == text[i]; }
    forall i | 0 <= i < |s| ensures t[p - a..p - a + |s|][i] == s[i] { OccursChar(Source(g, f), s, p, i); }
  }

  /** The rest of the line after a statement is the file's own. */
  lemma LineTail(g: Graph, f: File, j: nat) returns (e: nat)
    requires Linewise(g) && f in g.files && j < |g.files[f]| && g.files[f][j].Include?
    ensures Start(g.files[f], j + 1) <= e < |Source(g, f)| && Source(g, f)[e].c == '\n'
    ensures forall i :: Start(g.files[f], j + 1) <= i <= e ==> IsOwnMark(g, Source(g, f)[i])
  {
    hide Content, Start, IsStatement, Source, Linewise;
    var ps, t := g.files[f], Source(g, f);
    StatementAt(g, f, j);
    LastLineEnds(g, f);
    e := FirstBreak(t, Start(ps, j + 1));
    forall i: nat | Start(ps, j + 1) <= i <= e ensures IsOwnMark(g, t[i]) {
      OwnOutside(g, f, i);
      if InStatement(ps, i, |ps|) {
        var h :| 0 <= h < |ps| && ps[h].Include? && Start(ps, h) <= i < Start(ps, h + 1);
        if h <= j { StartsMonotone(ps, h + 1, j + 1); } else { StartsMonotone(ps, j + 1, h); }
        StatementsApart(g, f, j, h);
        BreakAbove(g, f, h);
      }
    }
  }

  lemma OwnOutside(g: Graph, f: File, i: nat)
    requires f in g.files && i < |Source(g, f)|
    ensures IsOwnMark(g, Source(g, f)[i]) <==> !InStatement(g.files[f], i, |g.files[f]|)
  {
    hide Content, InStatement;
  }

  lemma LastLineEnds(g: Graph, f: File)
    requires Linewise(g) && f in g.files
    ensures EndsLine(Source(g, f))
  {
  }

  lemma BreakAbove(g: Graph, f: File, h: nat)
    requires Linewise(g) && f in g.files && h < |g.files[f]| && g.files[f][h].Include? && Start(g.files[f], h) > 0
    ensures Start(g.files[f], h) <= |Source(g, f)| && Source(g, f)[Start(g.files[f], h) - 1].c == '\n'
  {
    hide Content, Start;
    StartBound(g.files[f], h);
    NoBreak(g, f, h);
  }

  lemma {:induction false} FirstBreak(t: seq<Mark>, a: nat) returns (e: nat)
    requires a < |t| && EndsLine(t)
    ensures a <= e < |t| && t[e].c == '\n' && forall i :: a <= i < e ==> t[i].c != '\n'
    decreases |t| - a
  {
    if t[a].c == '\n' { e := a; } else { e := FirstBreak(t, a + 1); }
  }

  // ----- every slip leaves damage -----

  /** An own character that is lost behind the include is missing. */
  lemma RestMissing(g: Graph, f: File, k: nat, before: seq<Mark>, files: set<File>, put: seq<Mark>, more: set<File>,
                    m: Mark)
    requires f in g.files && k < |g.files[f]| && g.files[f][k].Include? && f in files
             && Settled(g, f, k, before, files) && Shaped(put, more) && files !! more
    requires var s, t := g.files[f][k].statement, before + Rest(g, f, k);
             ReplaceMarks(t, s, []) == before + ReplaceMarks(Rest(g, f, k + 1), s, [])
    requires IsOwnMark(g, m) && m.file == f && m.at >= Start(g.files[f], k + 1)
             && m !in ReplaceMarks(Rest(g, f, k + 1), g.files[f][k].statement, [])
    ensures Missing(g, ReplaceMarks(before + Rest(g, f, k), g.files[f][k].statement, put), files + more)
  {
    hide Content, Start, ReplaceMarks, IsStatement, Rest, IsOwnMark, Shaped, NoCopies, Adjacent;
    PieceAt(g.files[f], k);
    LostIsMissing(g, before + Rest(g, f, k), files, g.files[f][k].statement, put, more, m);
  }

  lemma RestFacts(g: Graph, f: File, k: nat, before: seq<Mark>, files: set<File>)
    requires Linewise(g) && f in g.files && k < |g.files[f]| && f in files && Settled(g, f, k, before, files)
    ensures NoCopies(Rest(g, f, k + 1)) && EndsLine(Rest(g, f, k + 1))
  {
    hide Content, Start, Rest, Linewise, IsOwnMark, PieceMarks, NoCopies, Settled;
    SettledText(g, f, k, before, files);
    RestSplits(g, f, k);
    var here, rest := PieceMarks(g, f, k), Rest(g, f, k + 1);
    Regroup(before, here, rest);
    NoCopiesLast(before + here, rest);
    if rest != [] { assert (before + here + rest)[|before + here + rest| - 1] == rest[|rest| - 1]; }
  }

  lemma NoCopiesLast(t: seq<Mark>, u: seq<Mark>)
    requires NoCopies(t + u)
    ensures NoCopies(u)
  {
    assert t + u == t + u + [];
    NoCopiesInside(t, u, []);
  }

  /** A second occurrence, behind the include: the text put in is doubled, own text is lost, or blanks are left over. */
  lemma RestDamages(g: Graph, f: File, k: nat, before: seq<Mark>, files: set<File>, put: seq<Mark>, more: set<File>,
                    q: int)
    requires Linewise(g) && f in g.files && g.Parses(f) && k < |g.files[f]| && g.files[f][k].Include? && f in files
             && Settled(g, f, k, before, files) && Shaped(put, more) && files !! more
    requires var s, t, rest := g.files[f][k].statement, before + Rest(g, f, k), Rest(g, f, k + 1);
             && Occurs(rest, s, q) && Hits(t, s) == 1 + Hits(rest, s)
             && ReplaceMarks(t, s, put) == before + put + ReplaceMarks(rest, s, put)
             && ReplaceMarks(t, s, []) == before + ReplaceMarks(rest, s, [])
    ensures Damaged(g, ReplaceMarks(before + Rest(g, f, k), g.files[f][k].statement, put), files + more)
  {
    hide Content, Start, Occurs, ReplaceMarks, Hits, IsStatement, Rest, IsOwnMark, Settled, Linewise, InStatement;
    hide Missing, Stray, Doubled;
    var ps, s, t, rest := g.files[f], g.files[f][k].statement, before + Rest(g, f, k), Rest(g, f, k + 1);
    LastChar(s);
    NoBreak(g, f, k);
    SettledText(g, f, k, before, files);
    RestFacts(g, f, k, before, files);
    var first := FirstLost(rest, s, q);
    if put != [] {
      StaysTellable(t, s, put);
    } else {
      var p := Start(ps, k + 1) + first;
      RestSize(g, f, k + 1);
      RestOccurs(g, f, k + 1, s, first);
      if i: nat :| p <= i < p + |s| && !InStatement(ps, i, |ps|) {
        RestAt(g, f, k + 1, first + (i - p));
        OwnOutside(g, f, i);
        RestMissing(g, f, k, before, files, put, more, Source(g, f)[i]);
      } else {
        var j := InsideLater(g, f, k, p);
        InsideDamages(g, f, k, before, files, put, more, first, j);
      }
    }
  }

  lemma RestOccurs(g: Graph, f: File, k: nat, s: string, q: nat)
    requires f in g.files && k <= |g.files[f]| && Occurs(Rest(g, f, k), s, q)
    ensures Occurs(Source(g, f), s, Start(g.files[f], k) + q)
  {
    hide Content, Start, Occurs;
    StartBound(g.files[f], k);
    OccursInside(Rest(g, f, k), s, q);
    OccursFrom(Source(g, f), s, Start(g.files[f], k), Start(g.files[f], k) + q);
  }

  lemma InsideDamages(g: Graph, f: File, k: nat, before: seq<Mark>, files: set<File>, put: seq<Mark>, more: set<File>,
                      first: nat, j: nat)
    requires Linewise(g) && f in g.files && k < j < |g.files[f]| && g.files[f][k].Include? && g.files[f][j].Include?
             && f in files && Settled(g, f, k, before, files) && Shaped(put, more) && files !! more && put == []
    requires var s, t, rest := g.files[f][k].statement, before + Rest(g, f, k), Rest(g, f, k + 1);
             && '\n' !in s && first + |s| <= |rest|
             && ReplaceMarks(t, s, put) == before + put + ReplaceMarks(rest, s, put)
             && ReplaceMarks(rest, s, []) == rest[..first] + ReplaceMarks(rest[first + |s|..], s, [])
    requires var ps, p := g.files[f], Start(g.files[f], k + 1) + first;
             && Start(ps, j) < p && p + |ps[k].statement| == Start(ps, j + 1) <= |Source(g, f)|
             && forall i :: Start(ps, j) <= i < p ==> IsBlank(Source(g, f)[i].c)
    ensures Damaged(g, ReplaceMarks(before + Rest(g, f, k), g.files[f][k].statement, put), files + more)
  {
    hide Content, Start, Occurs, ReplaceMarks, Hits, IsStatement, Rest, IsOwnMark, Settled, Linewise, InStatement;
    hide Missing, Stray, Doubled, Shaped, NoCopies, StrayLine, IsBlank, EndsLine, Source;
    var ps, s, t, rest := g.files[f], g.files[f][k].statement, before + Rest(g, f, k), Rest(g, f, k + 1);
    var u, a, b := Source(g, f), Start(ps, j), Start(ps, j + 1);
    LastChar(s);
    RestFacts(g, f, k, before, files);
    var e := LineTail(g, f, j);
    var c := Start(ps, k + 1);
    var tail, y := u[b..e + 1], u[e + 1..];
    RestIs(g, f, k + 1);
    StartsMonotone(ps, k + 1, j);
    LineParts(u, rest, c, a, c + first, b, e);
    LastOf(before, u, b, e + 1);
    if q :| Occurs(tail, s, q) {
      var m := LostInTail(rest, s, first, rest[..b - c], tail, y, q);
      assert IsOwnMark(g, m) && m.at >= c;
      PutNothing(before, ReplaceMarks(rest, s, []));
      RestMissing(g, f, k, before, files, put, more, m);
    } else {
      StatementsApart(g, f, k, j);
      BreakAbove(g, f, j);
      StrayLineIs(g, f, j, c + first, e, u[a..c + first] + tail);
      LastOf(before, u, c, a);
      LeftInTail(g, before, s, u[c..a], u[a..c + first], tail, y);
    }
  }

  lemma LineParts(u: seq<Mark>, rest: seq<Mark>, c: nat, a: nat, p: nat, b: nat, e: nat)
    requires c <= a < p <= b <= e < |u| && rest == u[c..]
    ensures rest == rest[..b - c] + u[b..e + 1] + u[e + 1..] && rest[b - c..] == u[b..e + 1] + u[e + 1..]
    ensures rest[..p - c] == u[c..a] + u[a..p]
  {
  }

  lemma LastOf(before: seq<Mark>, u: seq<Mark>, c: nat, a: nat)
    requires c < a <= |u| && u[a - 1].c == '\n'
    ensures EndsLine(before + u[c..a]) && EndsLine(u[c..a])
  {
    assert (before + u[c..a])[|before| + (a - c) - 1] == u[a - 1];
  }

  lemma LostInTail(rest: seq<Mark>, s: Statement, first: nat, x: seq<Mark>, tail: seq<Mark>, y: seq<Mark>, q: int)
      returns (m: Mark)
    requires '\n' !in s && NoCopies(rest) && rest == x + tail + y && first <= |x| && EndsLine(tail)
             && Occurs(tail, s, q)
    requires ReplaceMarks(rest, s, []) == rest[..first] + ReplaceMarks(tail + y, s, [])
    ensures m in tail && m !in ReplaceMarks(rest, s, [])
  {
    hide Occurs, ReplaceMarks, Hits, IsStatement, NoCopies, EndsLine;
    LastChar(s);
    NoCopiesInside(x, tail, y);
    var i := FirstLost(tail, s, q);
    m := tail[i];
    NotInOthers(x, tail, y, m);
    Cut(tail, y, s, []);
    if m in ReplaceMarks(y, s, []) { MarksFrom(y, s, [], m); }
    assert rest[..first] == x[..first];
  }

  lemma LeftInTail(g: Graph, before: seq<Mark>, s: Statement, x: seq<Mark>, blanks: seq<Mark>, tail: seq<Mark>,
                   y: seq<Mark>)
    requires '\n' !in s && EndsLine(tail) && EndsLine(before + x) && StrayLine(g, blanks + tail)
    requires forall q :: !Occurs(tail, s, q)
    ensures Stray(g, before + [] + ((x + blanks) + ReplaceMarks(tail + y, s, [])))
  {
    hide Occurs, ReplaceMarks, Hits, IsStatement, EndsLine, Stray, StrayLine;
    LastChar(s);
    Cut(tail, y, s, []);
    NoHit(tail, s, []);
    var z := ReplaceMarks(y, s, []);
    assert before + [] + ((x + blanks) + (tail + z)) == (before + x) + (blanks + tail) + z;
    IsStray(g, before + x, blanks + tail, z);
  }

  lemma PutNothing(before: seq<Mark>, t: seq<Mark>)
    ensures before + [] + t == before + t
  {
  }

  lemma IsStray(g: Graph, x: seq<Mark>, line: seq<Mark>, y: seq<Mark>)
    requires EndsLine(x) && StrayLine(g, line)
    ensures Stray(g, x + line + y)
  {
  }

  lemma RestIs(g: Graph, f: File, k: nat)
    requires f in g.files && k <= |g.files[f]|
    ensures Start(g.files[f], k) <= |Source(g, f)| && Rest(g, f, k) == Source(g, f)[Start(g.files[f], k)..]
  {
    StartBound(g.files[f], k);
  }

  lemma StrayLineIs(g: Graph, f: File, j: nat, p: nat, e: nat, line: seq<Mark>)
    requires Linewise(g) && f in g.files && j < |g.files[f]| && g.files[f][j].Include?
    requires var ps, u := g.files[f], Source(g, f);
             && Start(ps, j) < p <= Start(ps, j + 1) <= e < |u| && u[e].c == '\n'
             && (forall i :: Start(ps, j) <= i < p ==> IsBlank(u[i].c))
             && (forall i :: Start(ps, j + 1) <= i <= e ==> IsOwnMark(g, u[i]))
             && line == u[Start(ps, j)..p] + u[Start(ps, j + 1)..e + 1]
    ensures StrayLine(g, line)
  {
    hide Content, Start, IsOwnMark, IsBlank;
    var ps, u := g.files[f], Source(g, f);
    OwnOutside(g, f, Start(ps, j));
    assert InStatement(ps, Start(ps, j), |ps|);
  }

  /** An include whose own text is damaged, or whose step is not clear, leaves damage. */
  lemma StepDamages(g: Graph, f: File, k: nat, before: seq<Mark>, files: set<File>, put: seq<Mark>, more: set<File>)
    requires Linewise(g) && f in g.files && g.Parses(f) && k < |g.files[f]| && g.files[f][k].Include? && f in files
             && files <= g.files.Keys && Settled(g, f, k, before, files) && Shaped(put, more) && files !! more
    requires Damaged(g, put, more) || !ClearStep(g, f, k, files)
    ensures Damaged(g, ReplaceMarks(before + Rest(g, f, k), g.files[f][k].statement, put), files + more)
  {
    hide Content, Start, Occurs, ReplaceMarks, Hits, IsStatement, Rest, IsOwnMark, Settled, Linewise, ClearStep,
         PieceMarks;
    hide Missing, Stray, Doubled, Shaped, NoCopies, Damaged;
    var s, t, rest := g.files[f][k].statement, before + Rest(g, f, k), Rest(g, f, k + 1);
    LastChar(s);
    SettledText(g, f, k, before, files);
    RestSplits(g, f, k);
    Regroup(before, PieceMarks(g, f, k), rest);
    OccursHere(before, PieceMarks(g, f, k), rest, s);
    if early: nat :| early < |before| && Occurs(t, s, early) {
      EarlyDamages(g, f, k, before, files, put, more, early);
    } else {
      FirstIs(t, s, put, before, PieceMarks(g, f, k), rest);
      if ClearStep(g, f, k, files) {
        DamageInside(g, f, k, before, files, put, more);
      } else {
        var q := UnclearElsewhere(g, f, k, before, files);
        OccursFrom(t, s, |before| + |s|, q);
        assert t[|before| + |s|..] == rest;
        RestDamages(g, f, k, before, files, put, more, q - (|before| + |s|));
      }
    }
  }

  lemma EarlyDamages(g: Graph, f: File, k: nat, before: seq<Mark>, files: set<File>, put: seq<Mark>, more: set<File>,
                     q: nat)
    requires f in g.files && k < |g.files[f]| && g.files[f][k].Include? && f in files
             && Settled(g, f, k, before, files) && Shaped(put, more) && files !! more
             && NoCopies(before + Rest(g, f, k))
    requires q < |before| && Occurs(before + Rest(g, f, k), g.files[f][k].statement, q)
    ensures Damaged(g, ReplaceMarks(before + Rest(g, f, k), g.files[f][k].statement, put), files + more)
  {
    hide Content, Start, Occurs, ReplaceMarks, Hits, IsStatement, Rest, IsOwnMark, Settled, Shaped, NoCopies;
    hide Missing, Stray, Doubled;
    var s, t := g.files[f][k].statement, before + Rest(g, f, k);
    LastChar(s);
    var first := FirstLost(t, s, q);
    BeforeOwn(g, f, k, before, files, t[first]);
    LostIsMissing(g, t, files, s, put, more, t[first]);
  }

  lemma FirstIs(t: seq<Mark>, s: Statement, put: seq<Mark>, before: seq<Mark>, here: seq<Mark>, rest: seq<Mark>)
    requires t == before + here + rest && |here| == |s| && Occurs(t, s, |before|)
    requires forall q: nat :: q < |before| ==> !Occurs(t, s, q)
    ensures ReplaceMarks(t, s, put) == before + put + ReplaceMarks(rest, s, put)
    ensures ReplaceMarks(t, s, []) == before + ReplaceMarks(rest, s, [])
    ensures Hits(t, s) == 1 + Hits(rest, s)
  {
    hide Occurs, ReplaceMarks, Hits, IsStatement;
    LastChar(s);
    var first := FirstHit(t, s, put, |before|);
    var again := FirstHit(t, s, [], |before|);
    assert t[..|before|] == before && t[|before| + |s|..] == rest;
    PutNothing(before, ReplaceMarks(rest, s, []));
  }

  /** Damage in an included text is put in with it. */
  lemma DamageInside(g: Graph, f: File, k: nat, before: seq<Mark>, files: set<File>, put: seq<Mark>, more: set<File>)
    requires Linewise(g) && f in g.files && k < |g.files[f]| && g.files[f][k].Include? && f in files
             && Settled(g, f, k, before, files) && Shaped(put, more) && files !! more && Damaged(g, put, more)
    requires var s, t, rest := g.files[f][k].statement, before + Rest(g, f, k), Rest(g, f, k + 1);
             Hits(t, s) > 0 && ReplaceMarks(t, s, put) == before + put + ReplaceMarks(rest, s, put)
    ensures Damaged(g, ReplaceMarks(before + Rest(g, f, k), g.files[f][k].statement, put), files + more)
  {
    hide Content, Start, Occurs, ReplaceMarks, Hits, IsStatement, Rest, IsOwnMark, Settled, Linewise, Tellable;
    hide Doubled;
    var s, t := g.files[f][k].statement, before + Rest(g, f, k);
    LastChar(s);
    NoBreak(g, f, k);
    SettledText(g, f, k, before, files);
    StaysTellable(t, s, put);
    if Missing(g, put, more) {
      var m :| IsOwnMark(g, m) && m.file in more && m !in put;
      if m in ReplaceMarks(t, s, put) { MarksFrom(t, s, put, m); }
    } else if Stray(g, put) {
      LineBefore(g, f, k, before, files);
      StrayInside(g, before, put, ReplaceMarks(Rest(g, f, k + 1), s, put));
    }
  }

  lemma StrayInside(g: Graph, x: seq<Mark>, t: seq<Mark>, y: seq<Mark>)
    requires Stray(g, t) && EndsLine(x)
    ensures Stray(g, x + t + y)
  {
    hide StrayLine;
    var x1: seq<Mark>, line: seq<Mark>, y1: seq<Mark> :| t == x1 + line + y1 && EndsLine(x1) && StrayLine(g, line);
    assert x + t + y == (x + x1) + line + (y1 + y);
  }
}
