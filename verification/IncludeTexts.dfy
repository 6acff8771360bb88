/** Texts in which includes are replaced one by one: where each character comes from, when a statement is clear, and
    what the text looks like as long as nothing but the statements in their places has been replaced. */
module IncludeTexts {
  import opened Amalgamation
  import opened TextReplacement
  import opened IncludeReplacement

  // ----- where characters come from -----

  /** The text of f above piece k. */
  function Above(g: Graph, f: File, k: nat): seq<Mark>
    requires f in g.files && k <= |g.files[f]|
  {
    StartBound(g.files[f], k);
    Source(g, f)[..Start(g.files[f], k)]
  }

  lemma StartBound(ps: seq<Piece>, k: nat)
    requires k <= |ps|
    ensures Start(ps, k) <= |Content(ps)|
    ensures k == 0 ==> Start(ps, k) == 0
    ensures k == |ps| ==> Start(ps, k) == |Content(ps)|
  {
    StartsMonotone(ps, k, |ps|);
    assert ps[..|ps|] == ps;
  }

  /** Texts are made of lines: a file that is not empty ends its last one, and a statement stands in one line, at its
      start, as the regular expression demands. */
  predicate Linewise(g: Graph) {
    forall f :: f in g.files ==>
      && EndsLine(Source(g, f))
      && forall k :: 0 <= k < |g.files[f]| && g.files[f][k].Include?
           ==> '\n' !in g.files[f][k].statement && EndsLine(Above(g, f, k))
  }

  /** Offset p is in one of the first n pieces, and that is an include statement. */
  predicate InStatement(ps: seq<Piece>, p: int, n: nat)
    requires n <= |ps|
  {
    exists k :: 0 <= k < n && ps[k].Include? && Start(ps, k) <= p < Start(ps, k + 1)
  }

  predicate IsMark(g: Graph, m: Mark) {
    m.file in g.files && m.at < |Content(g.files[m.file])| && m == Source(g, m.file)[m.at]
  }

  /** A character of a file outside its include statements. */
  predicate IsOwnMark(g: Graph, m: Mark) {
    IsMark(g, m) && !InStatement(g.files[m.file], m.at, |g.files[m.file]|)
  }

  // ----- the condition -----

  /** In the files written so far, the statement of include k of f stands only inside include statements that have been
      replaced by then, or in its own place. */
  predicate ClearStep(g: Graph, f: File, k: nat, files: set<File>)
    requires f in g.files && k < |g.files[f]| && g.files[f][k].Include? && files <= g.files.Keys
  {
    forall h :: h in files ==>
      forall p :: 0 <= p < |Source(g, h)| && Occurs(Source(g, h), g.files[f][k].statement, p)
        ==> InStatement(g.files[h], p, if h == f then k + 1 else |g.files[h]|)
  }

  predicate ClearFile(g: Graph, f: File, w: set<File>)
    requires w <= g.files.Keys
    decreases g.files.Keys - w, 0, 0
  {
    g.NeedToWrite(f, w) && g.Parses(f) ==> ClearPieces(g, f, 0, w, w + {f})
  }

  /** The includes of f from piece k on are clear, with w written, of which w0 before f. */
  predicate ClearPieces(g: Graph, f: File, k: nat, w0: set<File>, w: set<File>)
    requires f in g.files && g.Parses(f) && f in w && w <= g.files.Keys && k <= |g.files[f]|
    decreases g.files.Keys - w, 1, |g.files[f]| - k
  {
    k < |g.files[f]| ==>
      match g.files[f][k]
      case Own(_) => ClearPieces(g, f, k + 1, w0, w)
      case Include(_, h) =>
        && ClearStep(g, f, k, w - w0)
        && ClearFile(g, h, w)
        && match SpliceFile(g, h, w)
           case Failed => true
           case Written(_, w1) => ClearPieces(g, f, k + 1, w0, w1)
  }

  predicate ClearAll(g: Graph, sources: seq<File>, w: set<File>)
    requires w <= g.files.Keys
    decreases |sources|
  {
    sources != [] ==>
      && ClearFile(g, sources[0], w)
      && match SpliceFile(g, sources[0], w)
         case Failed => true
         case Written(_, w1) => ClearAll(g, sources[1..], w1)
  }

  // ----- spans -----

  lemma SpansApart(ps: seq<Piece>, p: int, k: nat)
    requires k < |ps| && Start(ps, k) <= p < Start(ps, k + 1)
    ensures forall j: nat :: j < |ps| && Start(ps, j) <= p < Start(ps, j + 1) ==> j == k
  {
    hide Start, Content;
    forall j: nat | j < |ps| && Start(ps, j) <= p < Start(ps, j + 1) ensures j == k {
      if j < k { StartsMonotone(ps, j + 1, k); }
      if k < j { StartsMonotone(ps, k + 1, j); }
    }
  }

  /** Whether an offset is in a statement is decided by the pieces before the next piece. */
  lemma InStatementUpTo(ps: seq<Piece>, p: int, n: nat)
    requires n <= |ps| && p < Start(ps, n)
    ensures InStatement(ps, p, |ps|) <==> InStatement(ps, p, n)
  {
    if InStatement(ps, p, |ps|) {
      var k :| 0 <= k < |ps| && ps[k].Include? && Start(ps, k) <= p < Start(ps, k + 1);
      if k >= n { StartsMonotone(ps, n, k); }
    }
  }

  lemma InStatementBelow(ps: seq<Piece>, p: int, n: nat)
    requires n <= |ps| && InStatement(ps, p, n)
    ensures p < Start(ps, n) && InStatement(ps, p, |ps|)
  {
    var k :| 0 <= k < n && ps[k].Include? && Start(ps, k) <= p < Start(ps, k + 1);
    StartsMonotone(ps, k + 1, n);
  }

  lemma SourceMarks(g: Graph, f: File)
    requires f in g.files
    ensures NoCopies(Source(g, f))
    ensures forall m :: m in Source(g, f) <==> IsMark(g, m) && m.file == f
  {
    var t := Source(g, f);
    forall m | IsMark(g, m) && m.file == f ensures m in t { assert t[m.at] == m; }
    forall m ensures multiset(t)[m] <= 1 { DistinctPlaces(t, 0, m); }
  }

  lemma {:induction false} DistinctPlaces(t: seq<Mark>, from: nat, m: Mark)
    requires forall p :: 0 <= p < |t| ==> t[p].at == from + p
    ensures multiset(t)[m] <= 1 && (m in t ==> m.at >= from)
  {
    if t != [] {
      forall p | 0 <= p < |t[1..]| ensures t[1..][p].at == from + 1 + p { assert t[1..][p] == t[p + 1]; }
      DistinctPlaces(t[1..], from + 1, m);
      assert t == [t[0]] + t[1..];
    }
  }

  // ----- texts without slips -----

  /** Position q ends a line, or the next character of the same file follows. */
  predicate Follows(t: seq<Mark>, q: nat)
    requires q < |t|
  {
    t[q].c == '\n' || (q + 1 < |t| && t[q + 1].file == t[q].file && t[q + 1].at == t[q].at + 1)
  }

  predicate Adjacent(t: seq<Mark>) {
    forall q :: 0 <= q < |t| ==> Follows(t, q)
  }

  ghost predicate Sound(g: Graph, t: seq<Mark>) {
    forall m :: m in t ==> IsMark(g, m)
  }

  /** An occurrence in the text is one in the file that its first character comes from. */
  lemma SameOccurrence(g: Graph, t: seq<Mark>, q: nat, s: string)
    requires Adjacent(t) && Sound(g, t) && q < |t| && s != "" && '\n' !in s
    ensures IsMark(g, t[q]) && (Occurs(t, s, q) <==> Occurs(Source(g, t[q].file), s, t[q].at))
  {
    var m := t[q];
    assert m in t;
    var u := Source(g, m.file);
    if Occurs(t, s, q) || Occurs(u, s, m.at) {
      Along(g, t, q, s, |s|);
      assert t[q..q + |s|] == u[m.at..m.at + |s|];
    }
  }

  lemma {:induction false} Along(g: Graph, t: seq<Mark>, q: nat, s: string, n: nat)
    requires Adjacent(t) && Sound(g, t) && q < |t| && '\n' !in s && 0 < n <= |s|
    requires IsMark(g, t[q]) && (Occurs(t, s, q) || Occurs(Source(g, t[q].file), s, t[q].at))
    ensures q + n <= |t| && t[q].at + n <= |Source(g, t[q].file)|
    ensures t[q..q + n] == Source(g, t[q].file)[t[q].at..t[q].at + n]
  {
    hide Occurs, Sound, Adjacent, Content;
    var u, at := Source(g, t[q].file), t[q].at;
    if n > 1 {
      Along(g, t, q, s, n - 1);
      var last := q + n - 2;
      assert t[last] == t[q..q + (n - 1)][n - 2] == u[at + n - 2];
      if Occurs(t, s, q) { OccursChar(t, s, q, n - 2); } else { OccursChar(u, s, at, n - 2); }
      NextMark(g, t, last);
      assert t[q..q + n] == t[q..q + (n - 1)] + [t[last + 1]];
      assert u[at..at + n] == u[at..at + (n - 1)] + [u[at + n - 1]];
    } else {
      assert t[q..q + 1] == [t[q]] && u[at..at + 1] == [u[at]];
    }
  }

  lemma NextMark(g: Graph, t: seq<Mark>, q: nat)
    requires Adjacent(t) && Sound(g, t) && q < |t| && t[q].c != '\n' && t[q].file in g.files
    ensures q + 1 < |t| && t[q].at + 1 < |Source(g, t[q].file)| && t[q + 1] == Source(g, t[q].file)[t[q].at + 1]
  {
    assert Follows(t, q);
    assert t[q + 1] in t;
  }

  /** The own text of the files, once each. */
  ghost predicate Whole(g: Graph, t: seq<Mark>, files: set<File>) {
    && NoCopies(t) && Adjacent(t)
    && (forall m :: m in t <==> IsOwnMark(g, m) && m.file in files)
  }

  /** The same but for f, of which only the pieces before k are there; the rest of its text follows. */
  ghost predicate Settled(g: Graph, f: File, k: nat, before: seq<Mark>, files: set<File>)
    requires f in g.files && k <= |g.files[f]|
  {
    && NoCopies(before) && Adjacent(before + Rest(g, f, k))
    && (forall m ::
         m in before <==> IsOwnMark(g, m) && m.file in files && (m.file == f ==> m.at < Start(g.files[f], k)))
  }

  lemma StartSettled(g: Graph, f: File)
    requires f in g.files && Linewise(g)
    ensures Settled(g, f, 0, [], {f})
  {
    hide Adjacent, IsOwnMark, Start, Content, Source, Rest, Linewise;
    WholeRest(g, f);
    StartBound(g.files[f], 0);
    SourceAdjacent(g, f);
    assert [] + Rest(g, f, 0) == Source(g, f);
  }

  lemma SourceAdjacent(g: Graph, f: File)
    requires f in g.files && Linewise(g)
    ensures Adjacent(Source(g, f))
  {
    hide Content, Occurs, IsStatement;
    assert EndsLine(Source(g, f));
  }

  lemma EndSettled(g: Graph, f: File, before: seq<Mark>, files: set<File>)
    requires f in g.files && Settled(g, f, |g.files[f]|, before, files)
    ensures Whole(g, before, files)
  {
    hide Adjacent, IsOwnMark, Start, Content, Source, Rest;
    WholeRest(g, f);
    assert before + Rest(g, f, |g.files[f]|) == before;
    forall m | IsOwnMark(g, m) && m.file == f ensures m.at < Start(g.files[f], |g.files[f]|) { OwnInside(g, m); }
  }

  lemma OwnInside(g: Graph, m: Mark)
    requires IsOwnMark(g, m)
    ensures m.file in g.files && m.at < Start(g.files[m.file], |g.files[m.file]|)
  {
    hide InStatement, Content;
    StartBound(g.files[m.file], |g.files[m.file]|);
  }

  /** The characters of piece k. */
  lemma PieceMarksAre(g: Graph, f: File, k: nat)
    requires f in g.files && k < |g.files[f]|
    ensures var ps := g.files[f];
            && NoCopies(PieceMarks(g, f, k))
            && (forall m ::
                 m in PieceMarks(g, f, k)
                 <==> IsMark(g, m) && m.file == f && Start(ps, k) <= m.at < Start(ps, k + 1))
  {
    hide Content, Start, InStatement;
    var ps := g.files[f];
    PieceAt(ps, k);
    var a, b := Start(ps, k), Start(ps, k + 1);
    var t, u := Source(g, f), Source(g, f)[a..b];
    forall m ensures multiset(u)[m] <= 1 { DistinctPlaces(u, a, m); }
    forall m | IsMark(g, m) && m.file == f && a <= m.at < b ensures m in u { assert u[m.at - a] == m; }
  }

  lemma InPiece(g: Graph, f: File, k: nat, m: Mark)
    requires f in g.files && k < |g.files[f]| && m.file == f && IsMark(g, m)
    requires Start(g.files[f], k) <= m.at < Start(g.files[f], k + 1)
    ensures IsOwnMark(g, m) <==> g.files[f][k].Own?
  {
    hide Start, Content, IsMark;
    SpansApart(g.files[f], m.at, k);
  }

  lemma OwnSettled(g: Graph, f: File, k: nat, before: seq<Mark>, files: set<File>)
    requires f in g.files && k < |g.files[f]| && f in files && g.files[f][k].Own?
             && Settled(g, f, k, before, files)
    ensures Settled(g, f, k + 1, before + PieceMarks(g, f, k), files)
  {
    hide Start, Content, Adjacent, IsOwnMark, IsMark, PieceMarks, Rest;
    var here := PieceMarks(g, f, k);
    RestSplits(g, f, k);
    PieceMarksAre(g, f, k);
    PieceAt(g.files[f], k);
    Regroup(before, here, Rest(g, f, k + 1));
    forall m ensures m in here <==> IsOwnMark(g, m) && m.file == f
                                    && Start(g.files[f], k) <= m.at < Start(g.files[f], k + 1) {
      if m.file == f && IsMark(g, m) && Start(g.files[f], k) <= m.at < Start(g.files[f], k + 1) { InPiece(g, f, k, m); }
      if IsOwnMark(g, m) { OwnIsMark(g, m); }
    }
    NoCopiesConcat(before, here);
  }

  lemma OwnIsMark(g: Graph, m: Mark)
    requires IsOwnMark(g, m)
    ensures IsMark(g, m)
  {
  }

  lemma NoCopiesConcat(t: seq<Mark>, u: seq<Mark>)
    requires Apart(t, u)
    ensures NoCopies(t + u) <==> NoCopies(t) && NoCopies(u)
  {
    forall m ensures multiset(t + u)[m] == multiset(t)[m] + multiset(u)[m] { }
    forall m ensures multiset(t)[m] == 0 || multiset(u)[m] == 0 { if m in t { assert m !in u; } }
    if NoCopies(t + u) {
      forall m ensures multiset(t)[m] <= 1 && multiset(u)[m] <= 1 { assert multiset(t + u)[m] <= 1; }
    }
  }

  lemma IncludeSettled(g: Graph, f: File, k: nat, before: seq<Mark>, files: set<File>, put: seq<Mark>, more: set<File>)
    requires Linewise(g) && f in g.files && k < |g.files[f]| && f in files && g.files[f][k].Include?
             && Settled(g, f, k, before, files)
    requires Whole(g, put, more) && files !! more
    ensures Settled(g, f, k + 1, before + put, files + more)
  {
    PieceAt(g.files[f], k);
    LineBefore(g, f, k, before, files);
    RestSplits(g, f, k);
    hide Start, Content, IsMark, PieceMarks, Rest, Linewise, IsOwnMark, Follows;
    Regroup(before, PieceMarks(g, f, k), Rest(g, f, k + 1));
    AdjacentSplice(before, PieceMarks(g, f, k), Rest(g, f, k + 1), put);
    forall m | IsOwnMark(g, m) && m.file == f && m.at < Start(g.files[f], k + 1) ensures m.at < Start(g.files[f], k) {
      OwnIsMark(g, m);
      if Start(g.files[f], k) <= m.at { InPiece(g, f, k, m); }
    }
    NoCopiesConcat(before, put);
  }

  /** An include stands at the start of a line, also in the text spliced so far. */
  lemma LineBefore(g: Graph, f: File, k: nat, before: seq<Mark>, files: set<File>)
    requires Linewise(g) && f in g.files && k < |g.files[f]| && g.files[f][k].Include?
             && Settled(g, f, k, before, files)
    ensures EndsLine(before)
  {
    hide Content, Start, InStatement, IsStatement, NoCopies;
    if before != [] {
      var q, t := |before| - 1, before + Rest(g, f, k);
      assert Follows(t, q) && t[q] == before[q] && before[q] in before && IsMark(g, before[q]);
      assert EndsLine(Above(g, f, k));
      PieceAt(g.files[f], k);
      if t[q].c != '\n' {
        assert t[q + 1] == Rest(g, f, k)[0];
        LastAbove(g, f, k, t[q]);
      }
    }
  }

  lemma LastAbove(g: Graph, f: File, k: nat, m: Mark)
    requires f in g.files && k <= |g.files[f]| && EndsLine(Above(g, f, k))
    requires IsMark(g, m) && m.file == f && m.at + 1 == Start(g.files[f], k)
    ensures m.c == '\n'
  {
    assert Above(g, f, k)[m.at] == m;
  }

  lemma AdjacentSplice(before: seq<Mark>, here: seq<Mark>, rest: seq<Mark>, put: seq<Mark>)
    requires Adjacent(before + here + rest) && EndsLine(before) && Adjacent(put)
    ensures Adjacent(before + put + rest)
  {
    var t, u := before + here + rest, before + put + rest;
    forall q | 0 <= q < |u| ensures Follows(u, q) {
      if q < |before| {
        assert Follows(t, q);
      } else if q < |before| + |put| {
        assert Follows(put, q - |before|);
      } else {
        assert Follows(t, q - |put| + |here|);
      }
    }
  }

  /** The splicing is whole, whatever the statements are. */
  lemma {:induction false} FileWhole(g: Graph, f: File, w: set<File>)
    requires Linewise(g) && w <= g.files.Keys && SpliceFile(g, f, w).Written?
    ensures Whole(g, Marks(g, SpliceFile(g, f, w).text), SpliceFile(g, f, w).files - w)
    decreases g.files.Keys - w, 0, 0
  {
    hide Linewise, Whole, Settled;
    if g.NeedToWrite(f, w) {
      StartSettled(g, f);
      var r := SplicePieces(g, f, 0, w + {f});
      assert w + {f} - w == {f};
      PiecesSettled(g, f, 0, [], w, w + {f});
      assert [] + Marks(g, r.text) == Marks(g, r.text);
      EndSettled(g, f, Marks(g, r.text), r.files - w);
    } else {
      NothingWhole(g, w);
    }
  }

  lemma NothingWhole(g: Graph, w: set<File>)
    ensures Whole(g, Marks(g, []), w - w)
  {
  }

  lemma {:induction false} PiecesSettled(g: Graph, f: File, k: nat, before: seq<Mark>, w0: set<File>, w: set<File>)
    requires Linewise(g) && f in g.files && g.Parses(f) && f in w && w <= g.files.Keys && k <= |g.files[f]|
             && SplicePieces(g, f, k, w).Written?
    requires w0 <= w && f !in w0 && Settled(g, f, k, before, w - w0)
    ensures var r := SplicePieces(g, f, k, w);
            Settled(g, f, |g.files[f]|, before + Marks(g, r.text), r.files - w0)
    decreases g.files.Keys - w, 1, |g.files[f]| - k
  {
    hide Linewise, Whole, Settled, Marks, PieceMarks;
    if k == |g.files[f]| {
      NoMarks(g);
      assert before + [] == before;
    } else {
      match g.files[f][k] {
        case Own(_) =>
          OwnSettled(g, f, k, before, w - w0);
          PiecesSettled(g, f, k + 1, before + PieceMarks(g, f, k), w0, w);
          var t := SplicePieces(g, f, k + 1, w).text;
          MarksConcat(g, [Emitted(f, k)], t);
          MarksOne(g, f, k);
          Regroup(before, PieceMarks(g, f, k), Marks(g, t));
        case Include(_, h) =>
          var r := SpliceFile(g, h, w);
          FileWhole(g, h, w);
          IncludeSettled(g, f, k, before, w - w0, Marks(g, r.text), r.files - w);
          assert (w - w0) + (r.files - w) == r.files - w0;
          PiecesSettled(g, f, k + 1, before + Marks(g, r.text), w0, r.files);
          var t := SplicePieces(g, f, k + 1, r.files).text;
          MarksConcat(g, r.text, t);
          Regroup(before, Marks(g, r.text), Marks(g, t));
      }
    }
  }
}
