/** Exactly when the amalgamation writes every file once: the texts it replaces are compared with the splicing. */
module IncludeOnce {
  import opened Amalgamation
  import opened TextReplacement
  import opened IncludeReplacement
  import opened IncludeTexts
  import opened IncludeSlips

  // ----- the whole run -----

  lemma {:induction false} FileShaped(g: Graph, f: File, w: set<File>)
    requires Linewise(g) && w <= g.files.Keys && WriteFile(g, f, w).Written?
    ensures Shaped(WriteFile(g, f, w).text, WriteFile(g, f, w).files - w)
    decreases g.files.Keys - w, 0, 0
  {
    hide Linewise, NoCopies, Doubled, Source;
    if g.NeedToWrite(f, w) {
      LastLineEnds(g, f);
      SourceMarks(g, f);
      PiecesShaped(g, f, 0, Source(g, f), w, w + {f});
    } else {
      EmptyShaped();
    }
  }

  lemma EmptyShaped()
    ensures Shaped([], {})
  {
    assert NoCopies([]);
  }

  /** Damage in a text stays through all the replacements that follow. */
  lemma {:induction false} PiecesShaped(g: Graph, f: File, k: nat, text: seq<Mark>, w0: set<File>, w: set<File>)
    requires Linewise(g) && f in g.files && g.Parses(f) && f in w && w <= g.files.Keys && k <= |g.files[f]|
             && w0 <= w && ReplaceIncludes(g, f, k, text, w).Written?
    requires Shaped(text, w - w0)
    ensures var r := ReplaceIncludes(g, f, k, text, w);
            Shaped(r.text, r.files - w0) && (Damaged(g, text, w - w0) ==> Damaged(g, r.text, r.files - w0))
    decreases g.files.Keys - w, 1, |g.files[f]| - k
  {
    hide Linewise, Shaped, Damaged, ReplaceMarks, IsStatement;
    if k < |g.files[f]| {
      match g.files[f][k] {
        case Own(_) => PiecesShaped(g, f, k + 1, text, w0, w);
        case Include(s, h) =>
          var r := WriteFile(g, h, w);
          FileShaped(g, h, w);
          LastChar(s);
          NoBreak(g, f, k);
          StepShaped(g, text, w - w0, s, r.text, r.files - w);
          assert (w - w0) + (r.files - w) == r.files - w0;
          PiecesShaped(g, f, k + 1, ReplaceMarks(text, s, r.text), w0, r.files);
      }
    }
  }

  /** The text of a file is the splicing when all its steps are clear, and damaged otherwise. */
  lemma {:induction false} FileExactly(g: Graph, f: File, w: set<File>)
    requires Linewise(g) && w <= g.files.Keys && SpliceFile(g, f, w).Written?
    ensures var r, spliced := WriteFile(g, f, w), SpliceFile(g, f, w);
            && r.Written? && r.files == spliced.files
            && if ClearFile(g, f, w) then r.text == Marks(g, spliced.text) else Damaged(g, r.text, r.files - w)
    decreases g.files.Keys - w, 0, 0
  {
    hide Linewise, Damaged, Settled, Marks;
    SameFiles(g, f, w);
    if g.NeedToWrite(f, w) {
      StartSettled(g, f);
      assert w + {f} - w == {f};
      PiecesExactly(g, f, 0, [], w, w + {f});
      WholeRest(g, f);
      assert [] + Rest(g, f, 0) == Source(g, f);
      var t := Marks(g, SplicePieces(g, f, 0, w + {f}).text);
      assert [] + t == t;
    } else {
      NoMarks(g);
    }
  }

  lemma {:induction false} PiecesExactly(g: Graph, f: File, k: nat, before: seq<Mark>, w0: set<File>, w: set<File>)
    requires Linewise(g) && f in g.files && g.Parses(f) && f in w && w <= g.files.Keys && k <= |g.files[f]|
             && SplicePieces(g, f, k, w).Written?
    requires w0 <= w && f !in w0 && Settled(g, f, k, before, w - w0)
    ensures var r, spliced := ReplaceIncludes(g, f, k, before + Rest(g, f, k), w), SplicePieces(g, f, k, w);
            && r.Written? && r.files == spliced.files
            && if ClearPieces(g, f, k, w0, w) then r.text == before + Marks(g, spliced.text)
               else Damaged(g, r.text, r.files - w0)
    decreases g.files.Keys - w, 1, |g.files[f]| - k, 1
  {
    hide Linewise, Settled, Marks, PieceMarks, Rest, ReplaceMarks, IsStatement, Damaged, ClearStep;
    SameFilesFrom(g, f, k, before + Rest(g, f, k), w);
    if k == |g.files[f]| {
      NoMarks(g);
      WholeRest(g, f);
    } else {
      RestSplits(g, f, k);
      Regroup(before, PieceMarks(g, f, k), Rest(g, f, k + 1));
      match g.files[f][k] {
        case Own(_) =>
          OwnSettled(g, f, k, before, w - w0);
          PiecesExactly(g, f, k + 1, before + PieceMarks(g, f, k), w0, w);
          var t := SplicePieces(g, f, k + 1, w).text;
          MarksConcat(g, [Emitted(f, k)], t);
          MarksOne(g, f, k);
          Regroup(before, PieceMarks(g, f, k), Marks(g, t));
        case Include(s, h) => IncludeExactly(g, f, k, before, w0, w);
      }
    }
  }

  lemma {:induction false} IncludeExactly(g: Graph, f: File, k: nat, before: seq<Mark>, w0: set<File>, w: set<File>)
    requires Linewise(g) && f in g.files && g.Parses(f) && f in w && w <= g.files.Keys && k < |g.files[f]|
             && SplicePieces(g, f, k, w).Written? && g.files[f][k].Include?
    requires w0 <= w && f !in w0 && Settled(g, f, k, before, w - w0)
    ensures var r, spliced := ReplaceIncludes(g, f, k, before + Rest(g, f, k), w), SplicePieces(g, f, k, w);
            && r.Written? && r.files == spliced.files
            && if ClearPieces(g, f, k, w0, w) then r.text == before + Marks(g, spliced.text)
               else Damaged(g, r.text, r.files - w0)
    decreases g.files.Keys - w, 1, |g.files[f]| - k, 0
  {
    hide Linewise, Settled, Marks, PieceMarks, Rest, ReplaceMarks, IsStatement, Damaged, ClearStep, Whole, Shaped;
    var s, h, t := g.files[f][k].statement, g.files[f][k].target, before + Rest(g, f, k);
    SameFilesFrom(g, f, k, t, w);
    LastChar(s);
    var r, spliced := WriteFile(g, h, w), SpliceFile(g, h, w);
    var u := ReplaceMarks(t, s, r.text);
    FileExactly(g, h, w);
    FileShaped(g, h, w);
    assert (w - w0) + (r.files - w) == r.files - w0;
    if ClearStep(g, f, k, w - w0) && ClearFile(g, h, w) {
      var put := Marks(g, spliced.text);
      FileWhole(g, h, w);
      IncludeSettled(g, f, k, before, w - w0, put, r.files - w);
      ClearOnlyHere(g, f, k, before, w - w0);
      RestSplits(g, f, k);
      Regroup(before, PieceMarks(g, f, k), Rest(g, f, k + 1));
      Alone(before, PieceMarks(g, f, k), Rest(g, f, k + 1), s, put);
      PiecesExactly(g, f, k + 1, before + put, w0, r.files);
      var rest := SplicePieces(g, f, k + 1, r.files).text;
      MarksConcat(g, spliced.text, rest);
      Regroup(before, put, Marks(g, rest));
    } else {
      StepDamages(g, f, k, before, w - w0, r.text, r.files - w);
      SettledText(g, f, k, before, w - w0);
      NoBreak(g, f, k);
      StepShaped(g, t, w - w0, s, r.text, r.files - w);
      PiecesShaped(g, f, k + 1, u, w0, r.files);
    }
  }

  // ----- all sources -----

  lemma ShapedConcat(g: Graph, t: seq<Mark>, files: set<File>, u: seq<Mark>, more: set<File>)
    requires Shaped(t, files) && Shaped(u, more) && files !! more
    ensures Shaped(t + u, files + more)
    ensures Damaged(g, t, files) || Damaged(g, u, more) ==> Damaged(g, t + u, files + more)
  {
    hide IsOwnMark, Stray, NoCopies, Doubled;
    NoCopiesConcat(t, u);
    DoubledConcat(t, u);
    if Missing(g, t, files) { MissingConcat(g, t, files, u, more); }
    if Missing(g, u, more) { MissingConcat(g, u, more, t, files); }
    if Stray(g, t) {
      StrayInside(g, [], t, u);
      assert [] + t + u == t + u;
    }
    if Stray(g, u) {
      StrayInside(g, t, u, []);
      assert t + u + [] == t + u;
    }
  }

  lemma MissingConcat(g: Graph, t: seq<Mark>, files: set<File>, u: seq<Mark>, more: set<File>)
    requires Missing(g, t, files) && Shaped(u, more) && files !! more
    ensures Missing(g, t + u, files + more) && Missing(g, u + t, files + more)
  {
    hide IsOwnMark, Tellable;
    var m :| IsOwnMark(g, m) && m.file in files && m !in t;
    assert m !in t + u && m !in u + t;
  }

  lemma DoubledConcat(t: seq<Mark>, u: seq<Mark>)
    ensures Doubled(t) || Doubled(u) ==> Doubled(t + u)
  {
    forall m ensures multiset(t + u)[m] == multiset(t)[m] + multiset(u)[m] { }
    if Doubled(t) {
      var m: Mark :| m.c == '\n' && multiset(t)[m] >= 2;
      assert multiset(t + u)[m] >= 2;
    }
    if Doubled(u) {
      var m: Mark :| m.c == '\n' && multiset(u)[m] >= 2;
      assert multiset(t + u)[m] >= 2;
    }
  }

  lemma WholeConcat(g: Graph, t: seq<Mark>, files: set<File>, u: seq<Mark>, more: set<File>)
    requires Whole(g, t, files) && Whole(g, u, more) && files !! more
    ensures Whole(g, t + u, files + more)
  {
    hide IsOwnMark, NoCopies;
    NoCopiesConcat(t, u);
    forall q | 0 <= q < |t + u| ensures Follows(t + u, q) {
      if q < |t| { assert Follows(t, q); } else { assert Follows(u, q - |t|); }
    }
  }

  lemma {:induction false} AllExactly(g: Graph, sources: seq<File>, w: set<File>)
    requires Linewise(g) && w <= g.files.Keys && SpliceAll(g, sources, w).Written?
    ensures var r, spliced := WriteAll(g, sources, w), SpliceAll(g, sources, w);
            && r.Written? && r.files == spliced.files
            && Shaped(r.text, r.files - w) && Whole(g, Marks(g, spliced.text), r.files - w)
            && if ClearAll(g, sources, w) then r.text == Marks(g, spliced.text) else Damaged(g, r.text, r.files - w)
    decreases |sources|
  {
    hide Linewise, Damaged, Whole, Shaped, Marks;
    if sources == [] {
      NoMarks(g);
      NothingWhole(g, w);
      EmptyShaped();
      assert w - w == {};
    } else {
      var r, spliced := WriteFile(g, sources[0], w), SpliceFile(g, sources[0], w);
      FileExactly(g, sources[0], w);
      FileShaped(g, sources[0], w);
      FileWhole(g, sources[0], w);
      AllExactly(g, sources[1..], r.files);
      var rest, others := WriteAll(g, sources[1..], r.files), SpliceAll(g, sources[1..], r.files);
      assert (r.files - w) + (rest.files - r.files) == rest.files - w;
      ShapedConcat(g, r.text, r.files - w, rest.text, rest.files - r.files);
      MarksConcat(g, spliced.text, others.text);
      WholeConcat(g, Marks(g, spliced.text), r.files - w, Marks(g, others.text), rest.files - r.files);
    }
  }

  lemma {:induction false} SameFailures(g: Graph, sources: seq<File>, w: set<File>)
    requires w <= g.files.Keys
    ensures match SpliceAll(g, sources, w)
            case Failed => WriteAll(g, sources, w).Failed?
            case Written(_, files) => WriteAll(g, sources, w).Written? && WriteAll(g, sources, w).files == files
    decreases |sources|
  {
    if sources != [] {
      SameFiles(g, sources[0], w);
      if SpliceFile(g, sources[0], w).Written? {
        SameFailures(g, sources[1..], SpliceFile(g, sources[0], w).files);
      }
    }
  }

  /** The amalgamation is the splicing of the files exactly when every step is clear. */
  lemma SplicedExactly(g: Graph, sources: seq<File>)
    requires Linewise(g) && WriteAll(g, sources, {}).Written?
    ensures SpliceAll(g, sources, {}).Written?
    ensures WriteAll(g, sources, {}).text == Marks(g, SpliceAll(g, sources, {}).text) <==> ClearAll(g, sources, {})
  {
    hide Linewise, Damaged, Whole, Shaped, Marks, ClearAll;
    SameFailures(g, sources, {});
    AllExactly(g, sources, {});
    var r := WriteAll(g, sources, {});
    if Damaged(g, r.text, r.files - {}) { DamagedIsNotWhole(g, r.text, r.files - {}); }
  }

  ghost predicate OnceEach(g: Graph, t: seq<Mark>, files: set<File>) {
    forall m :: multiset(t)[m] == if m.file in files && IsOwnMark(g, m) then 1 else 0
  }

  lemma WholeIsOnce(g: Graph, t: seq<Mark>, files: set<File>)
    requires Whole(g, t, files)
    ensures OnceEach(g, t, files)
  {
    hide IsOwnMark, Adjacent;
    forall m ensures multiset(t)[m] == if m.file in files && IsOwnMark(g, m) then 1 else 0 {
      assert m in t <==> IsOwnMark(g, m) && m.file in files;
      assert multiset(t)[m] <= 1;
    }
  }

  lemma DamagedIsNotOnce(g: Graph, t: seq<Mark>, files: set<File>)
    requires Damaged(g, t, files)
    ensures !OnceEach(g, t, files)
  {
    hide IsOwnMark, EndsLine;
    if Stray(g, t) {
      var x: seq<Mark>, line: seq<Mark>, y: seq<Mark> :| t == x + line + y && EndsLine(x) && StrayLine(g, line);
      assert line[0] in t && multiset(t)[line[0]] > 0;
    } else if Missing(g, t, files) {
      var m :| IsOwnMark(g, m) && m.file in files && m !in t;
      assert multiset(t)[m] == 0;
    }
  }

  /** Include-once for the texts: every own character of the files that a source reaches stands exactly once in the
      amalgamation, and nothing else does, if and only if every step is clear. */
  lemma EveryReachableFileOnceExactly(g: Graph, sources: seq<File>)
    requires Linewise(g) && WriteAll(g, sources, {}).Written?
    ensures (forall m ::
               multiset(WriteAll(g, sources, {}).text)[m] ==
                 if (exists s :: s in sources && Reaches(g, s, m.file)) && IsOwnMark(g, m) then 1 else 0)
            <==> ClearAll(g, sources, {})
  {
    hide Linewise, Damaged, Whole, Shaped, Marks, ClearAll, IsOwnMark, Reaches;
    SameFailures(g, sources, {});
    AllExactly(g, sources, {});
    var r := WriteAll(g, sources, {});
    assert r.files - {} == r.files;
    forall m: Mark ensures m.file in r.files <==> exists s :: s in sources && Reaches(g, s, m.file) {
      WrittenAreReached(g, sources, m.file);
    }
    if ClearAll(g, sources, {}) { WholeIsOnce(g, r.text, r.files); } else { DamagedIsNotOnce(g, r.text, r.files); }
  }

  // ----- a condition on the files alone -----

  /** An include statement of the file stands at p with just this text. */
  predicate IsIncludeAt(ps: seq<Piece>, s: string, p: int) {
    exists k :: 0 <= k < |ps| && ps[k].Include? && ps[k].statement == s && Start(ps, k) == p
  }

  /** Wherever the text of an include statement stands in a file, it is an include statement there. */
  predicate Unmistakable(g: Graph) {
    forall f, k, h :: f in g.files && 0 <= k < |g.files[f]| && g.files[f][k].Include? && h in g.files ==>
      forall p :: 0 <= p < |Source(g, h)| && Occurs(Source(g, h), g.files[f][k].statement, p)
        ==> IsIncludeAt(g.files[h], g.files[f][k].statement, p)
  }

  lemma UnmistakableStep(g: Graph, f: File, k: nat, files: set<File>)
    requires Unmistakable(g) && g.Parses(f) && k < |g.files[f]| && g.files[f][k].Include? && files <= g.files.Keys
    ensures ClearStep(g, f, k, files)
  {
    hide Content, Start, Occurs, IsStatement;
    var s := g.files[f][k].statement;
    forall h, p | h in files && 0 <= p < |Source(g, h)| && Occurs(Source(g, h), s, p)
      ensures InStatement(g.files[h], p, if h == f then k + 1 else |g.files[h]|)
    {
      assert IsIncludeAt(g.files[h], s, p);
      var j :| 0 <= j < |g.files[h]| && g.files[h][j].Include? && g.files[h][j].statement == s
               && Start(g.files[h], j) == p;
      StatementAt(g, h, j);
    }
  }

  lemma {:induction false} UnmistakableFile(g: Graph, f: File, w: set<File>)
    requires Unmistakable(g) && w <= g.files.Keys
    ensures ClearFile(g, f, w)
    decreases g.files.Keys - w, 0, 0
  {
    if g.NeedToWrite(f, w) && g.Parses(f) { UnmistakablePieces(g, f, 0, w, w + {f}); }
  }

  lemma {:induction false} UnmistakablePieces(g: Graph, f: File, k: nat, w0: set<File>, w: set<File>)
    requires Unmistakable(g)
    requires f in g.files && g.Parses(f) && f in w && w <= g.files.Keys && k <= |g.files[f]|
    ensures ClearPieces(g, f, k, w0, w)
    decreases g.files.Keys - w, 1, |g.files[f]| - k
  {
    hide Unmistakable, ClearStep, IsStatement;
    if k < |g.files[f]| {
      match g.files[f][k] {
        case Own(_) => UnmistakablePieces(g, f, k + 1, w0, w);
        case Include(_, h) =>
          UnmistakableStep(g, f, k, w - w0);
          UnmistakableFile(g, h, w);
          var r := SpliceFile(g, h, w);
          if r.Written? { UnmistakablePieces(g, f, k + 1, w0, r.files); }
      }
    }
  }

  /** When no file holds the text of an include statement anywhere else, every step is clear. */
  lemma {:induction false} UnmistakableIsClear(g: Graph, sources: seq<File>, w: set<File>)
    requires Unmistakable(g) && w <= g.files.Keys
    ensures ClearAll(g, sources, w)
    decreases |sources|
  {
    hide Unmistakable;
    if sources != [] {
      UnmistakableFile(g, sources[0], w);
      var r := SpliceFile(g, sources[0], w);
      if r.Written? { UnmistakableIsClear(g, sources[1..], r.files); }
    }
  }

  // ----- includes come first, in the text -----

  /** All own text of the files included above the character m stands before it. */
  ghost predicate AboveBefore(g: Graph, before: seq<Mark>, m: Mark)
    requires m.file in g.files
  {
    var ps := g.files[m.file];
    forall k, x ::
      0 <= k < |ps| && ps[k].Include? && ps[k].target !in g.excluded && Start(ps, k + 1) <= m.at
      && IsOwnMark(g, x) && x.file == ps[k].target
      ==> x in before
  }

  lemma {:induction false} PieceOf(ps: seq<Piece>, p: nat, n: nat) returns (k: nat)
    requires n <= |ps| && p < Start(ps, n)
    ensures k < n && Start(ps, k) <= p < Start(ps, k + 1)
  {
    hide Content;
    StartBound(ps, 0);
    if Start(ps, n - 1) <= p { k := n - 1; } else { k := PieceOf(ps, p, n - 1); }
  }

  lemma {:induction false} MarksOf(g: Graph, text: seq<Emitted>, e: Emitted, m: Mark)
    requires e in text && e.file in g.files && e.k < |g.files[e.file]| && m in PieceMarks(g, e.file, e.k)
    ensures m in Marks(g, text)
  {
    hide PieceMarks;
    if text[0] != e { MarksOf(g, text[1..], e, m); }
  }

  /** The piece that a character comes from, and the pieces before it. */
  lemma {:induction false} EmittedAt(g: Graph, text: seq<Emitted>, p: nat) returns (i: nat)
    requires p < |Marks(g, text)|
    ensures i < |text| && |Marks(g, text[..i])| <= p && Marks(g, text[..i]) == Marks(g, text)[..|Marks(g, text[..i])|]
    ensures text[i].file in g.files && text[i].k < |g.files[text[i].file]|
    ensures Marks(g, text)[p] in PieceMarks(g, text[i].file, text[i].k)
  {
    hide PieceMarks;
    var first := Marks(g, [text[0]]);
    assert text == [text[0]] + text[1..];
    MarksConcat(g, [text[0]], text[1..]);
    if p < |first| {
      i := 0;
      assert [text[0]][1..] == [];
      NoMarks(g);
      assert Marks(g, text)[p] == first[p];
    } else {
      var j := EmittedAt(g, text[1..], p - |first|);
      i := j + 1;
      assert text[..i] == [text[0]] + text[1..][..j];
      MarksConcat(g, [text[0]], text[1..][..j]);
    }
  }

  lemma CompleteMarks(g: Graph, before: seq<Emitted>, h: File, x: Mark)
    requires Complete(g, before, h) && IsOwnMark(g, x) && x.file == h
    ensures x in Marks(g, before)
  {
    OwnInside(g, x);
    OwnIsMark(g, x);
    hide Content, Start, IsOwnMark, IsMark, Marks, PieceMarks;
    var k := PieceOf(g.files[h], x.at, |g.files[h]|);
    InPiece(g, h, k, x);
    PieceMarksAre(g, h, k);
    MarksOf(g, before, Emitted(h, k), x);
  }

  lemma MarksInOrder(g: Graph, text: seq<Emitted>, p: nat)
    requires InOrder(g, text) && p < |Marks(g, text)| && Marks(g, text)[p].file in g.files
    ensures AboveBefore(g, Marks(g, text)[..p], Marks(g, text)[p])
  {
    hide Content, Start, IsOwnMark, Marks, PieceMarks, Complete;
    var i := EmittedAt(g, text, p);
    var m, e, before := Marks(g, text)[p], text[i], Marks(g, text[..i]);
    PieceMarksAre(g, e.file, e.k);
    assert IncludedBefore(g, text[..i], e);
    var ps := g.files[m.file];
    forall k, x | 0 <= k < |ps| && ps[k].Include? && ps[k].target !in g.excluded && Start(ps, k + 1) <= m.at
                  && IsOwnMark(g, x) && x.file == ps[k].target
      ensures x in Marks(g, text)[..p]
    {
      if k >= e.k { StartsMonotone(ps, e.k + 1, k + 1); }
      CompleteMarks(g, text[..i], ps[k].target, x);
      assert x in before && before == Marks(g, text)[..|before|];
    }
  }

  /** When every step is clear and includes have no cycle, a file stands whole before any text that follows its
      include. */
  lemma IncludesComeFirstInText(g: Graph, rank: File -> nat, sources: seq<File>, p: nat)
    requires Linewise(g) && Acyclic(g, rank) && WriteAll(g, sources, {}).Written? && ClearAll(g, sources, {})
    requires p < |WriteAll(g, sources, {}).text|
    ensures var text := WriteAll(g, sources, {}).text;
            text[p].file in g.files && AboveBefore(g, text[..p], text[p])
  {
    hide Linewise, Damaged, Shaped, Marks, ClearAll, InOrder, Acyclic, IsOwnMark, AboveBefore;
    SameFailures(g, sources, {});
    AllExactly(g, sources, {});
    IncludesComeFirst(g, rank, sources);
    var text := WriteAll(g, sources, {}).text;
    assert text[p] in text;
    OwnIsMark(g, text[p]);
    MarksInOrder(g, SpliceAll(g, sources, {}).text, p);
  }
}
