/** Families of inputs on which a replaced statement stands elsewhere too: two on which that is not splicing, and one,
    with a file without line end, on which the text is the splicing all the same. */
module IncludeSample {
  import opened Amalgamation
  import opened TextReplacement
  import opened IncludeReplacement
  import opened IncludeTexts
  import opened IncludeSlips
  import opened IncludeOnce

  const X := "y\n"

  /** A file that includes x twice: on a line of its own and, say in another branch of a condition, indented. */
  function Indented(s: Statement): Graph {
    IndentedStatement(s);
    Graph(map["a" := [Include(s, "x"), Own("\n"), Include("\t" + s, "x"), Own("\n")], "x" := [Own(X)]], {})
  }

  /** A file with its include in a comment as well. */
  function Commented(s: Statement): Graph {
    Graph(map["a" := [Own("// " + s + "\n"), Include(s, "x"), Own("\n")], "x" := [Own(X)]], {})
  }

  lemma {:induction false} SkipShifted(c: char, s: string, i: nat)
    requires i <= |s|
    ensures SkipBlanks([c] + s, i + 1) == SkipBlanks(s, i) + 1
    decreases |s| - i
  {
    if i < |s| && IsBlank(s[i]) { SkipShifted(c, s, i + 1); }
  }

  lemma IndentedStatement(s: Statement)
    ensures IsStatement("\t" + s)
  {
    hide SkipBlanks, IsDirective;
    var t := "\t" + s;
    SkipShifted('\t', s, 0);
    FirstSkipped(s);
    var hash := SkipBlanks(s, 0);
    assert t[hash + 1 + 1..] == s[hash + 1..];
  }

  lemma FirstSkipped(s: string)
    ensures SkipBlanks("\t" + s, 0) == SkipBlanks("\t" + s, 1)
  {
  }

  // ----- replacing by hand -----

  lemma Hit(s: string, rest: string, put: string)
    requires s != ""
    ensures Replace(s + rest, s, put) == put + Replace(rest, s, put)
  {
    assert (s + rest)[..|s|] == s && (s + rest)[|s|..] == rest;
  }

  lemma Skip(c: char, rest: string, s: string, put: string)
    requires s != "" && s[0] != c
    ensures Replace([c] + rest, s, put) == [c] + Replace(rest, s, put)
  {
    var text := [c] + rest;
    assert text[1..] == rest;
    if |text| >= |s| { assert text[..|s|][0] == c; }
  }

  lemma Short(text: string, s: string, put: string)
    requires |text| < |s|
    ensures Replace(text, s, put) == text
  {
  }

  lemma LongStatement(s: Statement)
    ensures |s| > 10
  {
  }

  lemma Extended(ps: seq<Piece>, p: Piece)
    ensures Content(ps + [p]) == Content(ps) + Text(p)
  {
    assert (ps + [p])[..|ps|] == ps;
  }

  lemma {:induction false} FromFront(p: Piece, ps: seq<Piece>)
    ensures Content([p] + ps) == Text(p) + Content(ps)
  {
    hide Content, Text;
    EmptyContent();
    if ps == [] {
      Extended([], p);
      assert [] + [p] == [p] + ps && "" + Text(p) == Text(p) + "";
    } else {
      var front, last := ps[..|ps| - 1], ps[|ps| - 1];
      FromFront(p, front);
      Extended([p] + front, last);
      Extended(front, last);
      assert front + [last] == ps && ([p] + front) + [last] == [p] + ps;
    }
  }

  lemma XWritten(g: Graph, w: set<File>)
    requires w <= g.files.Keys && g.NeedToWrite("x", w) && "x" in g.files && g.files["x"] == [Own(X)]
    ensures WriteFile(g, "x", w) == Written(Source(g, "x"), w + {"x"}) && Chars(Source(g, "x")) == X
  {
    var ps := g.files["x"];
    assert ps[..0] == [] && Content(ps) == Content(ps[..0]) + X;
    assert ReplaceIncludes(g, "x", 1, Source(g, "x"), w + {"x"}) == Written(Source(g, "x"), w + {"x"});
  }

  // ----- an indented include -----

  lemma IndentedText(s: Statement, g: Graph)
    requires g == Indented(s)
    ensures Content(g.files["a"]) == s + ("\n" + ("\t" + (s + "\n")))
  {
    hide IsStatement, Content;
    var ps := g.files["a"];
    FromFront(ps[0], ps[1..]);
    FromFront(ps[1], ps[2..]);
    FromFront(ps[2], ps[3..]);
    FromFront(ps[3], []);
    EmptyContent();
    assert ps == [ps[0]] + ps[1..] && ps[1..] == [ps[1]] + ps[2..] && ps[2..] == [ps[2]] + ps[3..];
    assert ps[3..] == [ps[3]] + [];
    assert ("\t" + s) + "\n" == "\t" + (s + "\n");
  }

  lemma EmptyContent()
    ensures Content([]) == ""
  {
  }

  lemma IndentedReplaced(s: Statement)
    requires s[0] == '#'
    ensures Replace(s + ("\n" + ("\t" + (s + "\n"))), s, X) == X + "\n\t" + X + "\n"
  {
    hide IsStatement, Replace;
    LongStatement(s);
    Hit(s, "\n" + ("\t" + (s + "\n")), X);
    Skip('\n', "\t" + (s + "\n"), s, X);
    Skip('\t', s + "\n", s, X);
    Hit(s, "\n", X);
    Short("\n", s, X);
  }

  /** The statements differ, so no exception is thrown, but the one stands in the other: x is written twice. */
  lemma IndentedIncludeWritesTwice(s: Statement, g: Graph)
    requires s[0] == '#' && g == Indented(s)
    ensures g.Parses("a") && WriteFile(g, "a", {}).Written?
    ensures Chars(WriteFile(g, "a", {}).text) == X + "\n\t" + X + "\n"
  {
    hide IsStatement, Replace, ReplaceMarks, Content, Source;
    LongStatement(s);
    var t, w := Source(g, "a"), {"a", "x"};
    assert ("\t" + s)[0] != s[0];
    XWritten(g, {"a"});
    IndentedText(s, g);
    IndentedReplaced(s);
    SourceChars(g, "a");
    assert {} + {"a"} == {"a"} && {"a"} + {"x"} == w;
    var t1 := ReplaceMarks(t, s, Source(g, "x"));
    CharsReplaced(t, s, Source(g, "x"));
    ShortMarks(t1, "\t" + s);
    assert ReplaceIncludes(g, "a", 3, t1, w) == Written(t1, w) by {
      assert ReplaceIncludes(g, "a", 4, t1, w) == Written(t1, w);
    }
    assert ReplaceIncludes(g, "a", 2, t1, w) == Written(t1, w);
    assert ReplaceIncludes(g, "a", 1, t1, w) == Written(t1, w);
    assert ReplaceIncludes(g, "a", 0, t, {"a"}) == Written(t1, w);
  }

  lemma ShortMarks(t: seq<Mark>, s: string)
    requires |t| < |s|
    ensures ReplaceMarks(t, s, []) == t
  {
  }

  // ----- an include in a comment -----

  lemma CommentedText(s: Statement, g: Graph)
    requires g == Commented(s)
    ensures Content(g.files["a"]) == "/" + ("/" + (" " + (s + ("\n" + (s + "\n")))))
  {
    hide IsStatement, Content;
    var ps := g.files["a"];
    FromFront(ps[0], ps[1..]);
    FromFront(ps[1], ps[2..]);
    FromFront(ps[2], []);
    EmptyContent();
    assert ps == [ps[0]] + ps[1..] && ps[1..] == [ps[1]] + ps[2..] && ps[2..] == [ps[2]] + [];
    assert ("// " + s + "\n") + (s + "\n") == "/" + ("/" + (" " + (s + ("\n" + (s + "\n")))));
  }

  lemma CommentedReplaced(s: Statement)
    requires s[0] == '#'
    ensures Replace("/" + ("/" + (" " + (s + ("\n" + (s + "\n"))))), s, X) == "// " + X + "\n" + X + "\n"
  {
    hide IsStatement, Replace;
    LongStatement(s);
    Skip('/', "/" + (" " + (s + ("\n" + (s + "\n")))), s, X);
    Skip('/', " " + (s + ("\n" + (s + "\n"))), s, X);
    Skip(' ', s + ("\n" + (s + "\n")), s, X);
    Hit(s, "\n" + (s + "\n"), X);
    Skip('\n', s + "\n", s, X);
    Hit(s, "\n", X);
    Short("\n", s, X);
  }

  /** The comment is replaced too: its own text is lost, and x stands in it. */
  lemma CommentIsReplaced(s: Statement, g: Graph)
    requires s[0] == '#' && g == Commented(s)
    ensures g.Parses("a") && WriteFile(g, "a", {}).Written?
    ensures Chars(WriteFile(g, "a", {}).text) == "// " + X + "\n" + X + "\n"
  {
    hide IsStatement, Replace, ReplaceMarks, Content, Source;
    LongStatement(s);
    var t, w := Source(g, "a"), {"a", "x"};
    XWritten(g, {"a"});
    CommentedText(s, g);
    CommentedReplaced(s);
    SourceChars(g, "a");
    assert {} + {"a"} == {"a"} && {"a"} + {"x"} == w;
    var t1 := ReplaceMarks(t, s, Source(g, "x"));
    CharsReplaced(t, s, Source(g, "x"));
    assert ReplaceIncludes(g, "a", 3, t1, w) == Written(t1, w);
    assert ReplaceIncludes(g, "a", 2, t1, w) == Written(t1, w);
    assert ReplaceIncludes(g, "a", 1, t, {"a"}) == Written(t1, w);
    assert ReplaceIncludes(g, "a", 0, t, {"a"}) == Written(t1, w);
  }

  // ----- both inputs are not clear -----

  lemma Stands(t: seq<Mark>, x: string, s: string, y: string)
    requires Chars(t) == x + s + y
    ensures Occurs(t, s, |x|)
  {
    assert Chars(t)[|x|..|x| + |s|] == s;
    assert Chars(t[|x|..|x| + |s|]) == Chars(t)[|x|..|x| + |s|];
  }

  /** A statement that stands elsewhere in its own file, outside the statements above it. */
  lemma StandsElsewhere(g: Graph, f: File, k: nat, p: nat)
    requires g.Parses(f) && f !in g.excluded && k < |g.files[f]| && g.files[f][k].Include?
             && forall j :: 0 <= j < k ==> g.files[f][j].Own?
    requires Occurs(Source(g, f), g.files[f][k].statement, p) && !InStatement(g.files[f], p, k + 1)
    ensures !ClearFile(g, f, {})
  {
    hide IsStatement, Content, Start, Occurs, InStatement;
    LastChar(g.files[f][k].statement);
    OccursInside(Source(g, f), g.files[f][k].statement, p);
    assert {} + {f} - {} == {f} && {} + {f} == {f};
    assert !ClearStep(g, f, k, {f});
    NotClearFrom(g, f, 0, k);
  }

  lemma {:induction false} NotClearFrom(g: Graph, f: File, i: nat, k: nat)
    requires g.Parses(f) && i <= k < |g.files[f]| && g.files[f][k].Include? && !ClearStep(g, f, k, {f} - {})
             && forall j :: 0 <= j < k ==> g.files[f][j].Own?
    ensures !ClearPieces(g, f, i, {}, {f})
    decreases k - i
  {
    hide IsStatement, ClearStep;
    if i < k { NotClearFrom(g, f, i + 1, k); }
  }

  lemma NeitherIsClear(s: Statement)
    requires s[0] == '#'
    ensures !ClearFile(Indented(s), "a", {}) && !ClearFile(Commented(s), "a", {})
  {
    hide IsStatement, Content, InStatement, Occurs, Source;
    LongStatement(s);
    var g, h := Indented(s), Commented(s);
    IndentedIncludeWritesTwice(s, g);
    CommentIsReplaced(s, h);
    IndentedText(s, g);
    CommentedText(s, h);
    SourceChars(g, "a");
    SourceChars(h, "a");
    Stands(Source(g, "a"), s + "\n\t", s, "\n");
    Before(g.files["a"], 0, |s| + 2);
    StandsElsewhere(g, "a", 0, |s| + 2);
    Stands(Source(h, "a"), "// ", s, "\n" + (s + "\n"));
    Before(h.files["a"], 1, 3);
    StandsElsewhere(h, "a", 1, 3);
  }

  /** Offset p is not in the include statement that stands at piece k, the first one. */
  lemma Before(ps: seq<Piece>, k: nat, p: nat)
    requires k < |ps| && ps[k].Include? && forall j :: 0 <= j < k ==> ps[j].Own?
    requires (k == 0 && p >= |ps[0].statement|) || (k == 1 && p < |Text(ps[0])|)
    ensures !InStatement(ps, p, k + 1)
  {
    hide Content, IsStatement;
    PieceAt(ps, 0);
    StartBound(ps, 0);
  }

  // ----- a slip that is made up for, in a file without line end -----

  /** x is included twice as above, and holds, as its own text and without line end, a statement that stands indented
      below; z is never written. */
  function Hidden(s: Statement, r: Statement): Graph {
    IndentedStatement(s);
    IndentedStatement(r);
    Graph(
      map[
        "a" := [Include(s, "x"), Own("\n"), Include("\t" + s, "x"), Own("\n"), Include("\t" + r, "z"), Own("\n")],
        "x" := [Own(r)]
      ],
      {"z"})
  }

  lemma HiddenText(s: Statement, r: Statement, g: Graph)
    requires g == Hidden(s, r)
    ensures Content(g.files["a"]) == s + ("\n" + ("\t" + (s + ("\n" + ("\t" + (r + "\n"))))))
  {
    hide IsStatement, Content;
    var ps := g.files["a"];
    FromFront(ps[0], ps[1..]);
    FromFront(ps[1], ps[2..]);
    FromFront(ps[2], ps[3..]);
    FromFront(ps[3], ps[4..]);
    FromFront(ps[4], ps[5..]);
    FromFront(ps[5], []);
    EmptyContent();
    assert ps == [ps[0]] + ps[1..] && ps[1..] == [ps[1]] + ps[2..] && ps[2..] == [ps[2]] + ps[3..];
    assert ps[3..] == [ps[3]] + ps[4..] && ps[4..] == [ps[4]] + ps[5..] && ps[5..] == [ps[5]] + [];
    assert ("\t" + r) + "\n" == "\t" + (r + "\n");
    assert ("\t" + s) + ("\n" + ("\t" + (r + "\n"))) == "\t" + (s + ("\n" + ("\t" + (r + "\n"))));
  }

  lemma {:induction false} SkipAll(u: string, rest: string, s: string, put: string)
    requires s != "" && s[0] !in u
    ensures Replace(u + rest, s, put) == u + Replace(rest, s, put)
  {
    if u == "" {
      assert u + rest == rest;
    } else {
      assert u + rest == [u[0]] + (u[1..] + rest);
      Skip(u[0], u[1..] + rest, s, put);
      SkipAll(u[1..], rest, s, put);
    }
  }

  lemma HiddenReplaced(s: Statement, r: Statement)
    requires s[0] == r[0] == '#' && '\t' !in r && |s| > 3 * |r| + 5
    ensures var text := s + ("\n" + ("\t" + (s + ("\n" + ("\t" + (r + "\n"))))));
            && |Replace(text, s, r)| <= |s|
            && Replace(Replace(text, s, r), "\t" + r, "") == r + "\n\n\n"
  {
    hide IsStatement, Replace;
    LongStatement(r);
    var end := "\n" + ("\t" + (r + "\n"));
    Hit(s, "\n" + ("\t" + (s + end)), r);
    Skip('\n', "\t" + (s + end), s, r);
    Skip('\t', s + end, s, r);
    Hit(s, end, r);
    Short(end, s, r);
    var t := "\t" + r;
    SkipAll(r, "\n" + ("\t" + (r + end)), t, "");
    Skip('\n', "\t" + (r + end), t, "");
    assert "\t" + (r + end) == t + end && "\t" + (r + "\n") == t + "\n";
    Hit(t, end, "");
    Skip('\n', t + "\n", t, "");
    Hit(t, "\n", "");
    Short("\n", t, "");
  }

  /** Without line ends the condition is not needed: the second text of x makes a statement, and that is removed. */
  lemma SlipMadeUpFor(s: Statement, r: Statement, g: Graph)
    requires s[0] == r[0] == '#' && '\t' !in r && |s| > 3 * |r| + 5 && g == Hidden(s, r)
    ensures g.Parses("a") && WriteFile(g, "a", {}).Written? && SpliceFile(g, "a", {}).Written?
    ensures Chars(WriteFile(g, "a", {}).text) == r + "\n\n\n" == Chars(Marks(g, SpliceFile(g, "a", {}).text))
    ensures !AloneFile(g, "a", {})
  {
    HiddenWritten(s, r, g);
    HiddenSpliced(s, r, g);
    HiddenNotAlone(s, r, g);
  }

  lemma HiddenParses(s: Statement, r: Statement, g: Graph)
    requires s[0] == r[0] == '#' && |s| > |r| && g == Hidden(s, r)
    ensures g.Parses("a")
  {
    hide IsStatement;
    assert ("\t" + s)[0] != s[0] && ("\t" + r)[0] != s[0];
    assert |"\t" + s| > |"\t" + r|;
  }

  lemma OwnWritten(g: Graph, r: string, w: set<File>)
    requires w <= g.files.Keys && g.NeedToWrite("x", w) && "x" in g.files && g.files["x"] == [Own(r)]
    ensures WriteFile(g, "x", w) == Written(Source(g, "x"), w + {"x"}) && Chars(Source(g, "x")) == r
    ensures SpliceFile(g, "x", w) == Written([Emitted("x", 0)], w + {"x"})
  {
    var ps := g.files["x"];
    assert ps[..0] == [] && Content(ps) == Content(ps[..0]) + r;
    assert ReplaceIncludes(g, "x", 1, Source(g, "x"), w + {"x"}) == Written(Source(g, "x"), w + {"x"});
    SpliceOwn(g, "x", 0, w + {"x"}, [], [Emitted("x", 0)]);
  }

  lemma HiddenWritten(s: Statement, r: Statement, g: Graph)
    requires s[0] == r[0] == '#' && '\t' !in r && |s| > 3 * |r| + 5 && g == Hidden(s, r)
    ensures g.Parses("a") && WriteFile(g, "a", {}).Written?
    ensures Chars(WriteFile(g, "a", {}).text) == r + "\n\n\n"
  {
    hide IsStatement, Replace, ReplaceMarks, Content, Source;
    LongStatement(r);
    var t, w := Source(g, "a"), {"a", "x"};
    HiddenParses(s, r, g);
    OwnWritten(g, r, {"a"});
    HiddenText(s, r, g);
    HiddenReplaced(s, r);
    SourceChars(g, "a");
    assert {} + {"a"} == {"a"} && {"a"} + {"x"} == w;
    var t1 := ReplaceMarks(t, s, Source(g, "x"));
    CharsReplaced(t, s, Source(g, "x"));
    ShortMarks(t1, "\t" + s);
    var t2 := ReplaceMarks(t1, "\t" + r, []);
    CharsReplaced(t1, "\t" + r, []);
    assert Chars([]) == "";
    assert ReplaceIncludes(g, "a", 6, t2, w) == Written(t2, w);
    assert ReplaceIncludes(g, "a", 5, t2, w) == Written(t2, w);
    assert ReplaceIncludes(g, "a", 4, t1, w) == Written(t2, w);
    assert ReplaceIncludes(g, "a", 3, t1, w) == Written(t2, w);
    assert ReplaceIncludes(g, "a", 2, t1, w) == Written(t2, w);
    assert ReplaceIncludes(g, "a", 1, t1, w) == Written(t2, w);
    assert ReplaceIncludes(g, "a", 0, t, {"a"}) == Written(t2, w);
  }

  lemma HiddenSpliced(s: Statement, r: Statement, g: Graph)
    requires s[0] == r[0] == '#' && |s| > |r| && g == Hidden(s, r)
    ensures SpliceFile(g, "a", {}).Written?
    ensures Chars(Marks(g, SpliceFile(g, "a", {}).text)) == r + "\n\n\n"
  {
    hide IsStatement, Content, Source, PieceMarks, Marks, SpliceFile;
    HiddenPieces(s, r, g);
    var rest := [Emitted("a", 3), Emitted("a", 5)];
    NoMarks(g);
    assert Chars([]) == "";
    MarksStep(g, "a", 5, []);
    MarksStep(g, "a", 3, [Emitted("a", 5)]);
    MarksStep(g, "a", 1, rest);
    MarksStep(g, "x", 0, [Emitted("a", 1)] + rest);
    assert [Emitted("a", 5)] + [] == [Emitted("a", 5)] && [Emitted("a", 3)] + [Emitted("a", 5)] == rest;
  }

  lemma HiddenPieces(s: Statement, r: Statement, g: Graph)
    requires s[0] == r[0] == '#' && |s| > |r| && g == Hidden(s, r)
    ensures var text := [Emitted("x", 0)] + ([Emitted("a", 1)] + [Emitted("a", 3), Emitted("a", 5)]);
            SpliceFile(g, "a", {}) == Written(text, {"a", "x"})
  {
    hide IsStatement;
    var w := {"a", "x"};
    HiddenParses(s, r, g);
    OwnWritten(g, r, {"a"});
    assert {} + {"a"} == {"a"} && {"a"} + {"x"} == w;
    SpliceOwn(g, "a", 5, w, [], [Emitted("a", 5)]);
    SpliceNothing(g, "a", 4, w, [Emitted("a", 5)]);
    var rest := [Emitted("a", 3), Emitted("a", 5)];
    SpliceOwn(g, "a", 3, w, [Emitted("a", 5)], rest);
    SpliceNothing(g, "a", 2, w, rest);
    SpliceOwn(g, "a", 1, w, rest, [Emitted("a", 1)] + rest);
  }

  lemma SpliceNothing(g: Graph, f: File, k: nat, w: set<File>, rest: seq<Emitted>)
    requires f in w && w <= g.files.Keys && g.Parses(f) && k < |g.files[f]| && g.files[f][k].Include?
             && !g.NeedToWrite(g.files[f][k].target, w) && SplicePieces(g, f, k + 1, w) == Written(rest, w)
    ensures SplicePieces(g, f, k, w) == Written(rest, w)
  {
    hide IsStatement;
    assert [] + rest == rest;
  }

  lemma SpliceOwn(g: Graph, f: File, k: nat, w: set<File>, rest: seq<Emitted>, text: seq<Emitted>)
    requires f in w && w <= g.files.Keys && g.Parses(f) && k < |g.files[f]| && g.files[f][k].Own?
    requires (if k + 1 == |g.files[f]| then rest == [] else SplicePieces(g, f, k + 1, w) == Written(rest, w))
    requires text == [Emitted(f, k)] + rest
    ensures SplicePieces(g, f, k, w) == Written(text, w)
  {
    hide IsStatement;
  }

  lemma CharsConcat(t: seq<Mark>, u: seq<Mark>)
    ensures Chars(t + u) == Chars(t) + Chars(u)
  {
  }

  lemma MarksStep(g: Graph, f: File, k: nat, text: seq<Emitted>)
    requires f in g.files && k < |g.files[f]|
    ensures Chars(Marks(g, [Emitted(f, k)] + text)) == Text(g.files[f][k]) + Chars(Marks(g, text))
  {
    hide PieceMarks, Chars, Text, Rest, Marks;
    RestSplits(g, f, k);
    MarksConcat(g, [Emitted(f, k)], text);
    MarksOne(g, f, k);
    CharsConcat(PieceMarks(g, f, k), Marks(g, text));
  }

  lemma HiddenNotAlone(s: Statement, r: Statement, g: Graph)
    requires s[0] == r[0] == '#' && |s| > |r| && g == Hidden(s, r)
    ensures !AloneFile(g, "a", {})
  {
    hide IsStatement, Content, Source, PieceMarks, Marks, Rest, Occurs;
    HiddenParses(s, r, g);
    HiddenText(s, r, g);
    SourceChars(g, "a");
    WholeRest(g, "a");
    var t, q := [] + Rest(g, "a", 0), |s| + 2;
    assert t == Source(g, "a");
    Stands(t, s + "\n\t", s, "\n" + ("\t" + (r + "\n")));
    assert !OnlyHere(t, s, 0);
    assert {} + {"a"} == {"a"};
    assert !AlonePieces(g, "a", 0, [], {"a"});
  }
}
