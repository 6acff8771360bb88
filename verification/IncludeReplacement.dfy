/** The amalgamation script on texts: each include statement of a file is replaced, wherever its text stands, by the
    text of the file it names. Proved is exactly when that is the splicing of files, and so when every file is written
    once: when no statement's text stands anywhere else in the text it is replaced in. */
module IncludeReplacement {
  import opened Options
  import opened Amalgamation
  import opened TextReplacement

  // ----- the texts of files -----

  function Text(p: Piece): string {
    match p case Own(text) => text case Include(statement, _) => statement
  }

  function Content(ps: seq<Piece>): string {
    if ps == [] then "" else Content(ps[..|ps| - 1]) + Text(ps[|ps| - 1])
  }

  /** The offset of piece k. */
  function Start(ps: seq<Piece>, k: nat): nat
    requires k <= |ps|
  {
    |Content(ps[..k])|
  }

  /** The text of a file as it is read. */
  function Source(g: Graph, f: File): (t: seq<Mark>)
    requires f in g.files
    ensures |t| == |Content(g.files[f])|
    ensures forall p :: 0 <= p < |t| ==> t[p] == Mark(Content(g.files[f])[p], f, p)
  {
    var text := Content(g.files[f]);
    seq(|text|, p requires 0 <= p < |text| => Mark(text[p], f, p))
  }

  lemma {:induction false} StartsMonotone(ps: seq<Piece>, j: nat, k: nat)
    requires j <= k <= |ps|
    ensures Start(ps, j) <= Start(ps, k) && Content(ps[..j]) == Content(ps[..k])[..Start(ps, j)]
    decreases k - j
  {
    if j < k {
      StartsMonotone(ps, j, k - 1);
      assert ps[..k][..k - 1] == ps[..k - 1];
      assert Content(ps[..k]) == Content(ps[..k - 1]) + Text(ps[k - 1]);
    } else {
      assert Content(ps[..k])[..|Content(ps[..k])|] == Content(ps[..k]);
    }
  }

  /** Where the text of piece k stands. */
  lemma PieceAt(ps: seq<Piece>, k: nat)
    requires k < |ps|
    ensures Start(ps, k + 1) == Start(ps, k) + |Text(ps[k])| <= |Content(ps)|
    ensures Content(ps)[Start(ps, k)..Start(ps, k + 1)] == Text(ps[k])
  {
    StartsMonotone(ps, k + 1, |ps|);
    assert ps[..|ps|] == ps && ps[..k + 1][..k] == ps[..k];
    assert Content(ps[..k + 1]) == Content(ps[..k]) + Text(ps[k]);
    assert Content(ps)[..Start(ps, k + 1)][Start(ps, k)..] == Text(ps[k]);
  }

  lemma SourceChars(g: Graph, f: File)
    requires f in g.files
    ensures Chars(Source(g, f)) == Content(g.files[f])
  {
  }

  lemma NotEmpty(s: Statement)
    ensures s != ""
  {
  }

  /** The text of f from piece k on. */
  function Rest(g: Graph, f: File, k: nat): seq<Mark>
    requires f in g.files && k <= |g.files[f]|
  {
    StartsMonotone(g.files[f], k, |g.files[f]|);
    assert g.files[f][..|g.files[f]|] == g.files[f];
    Source(g, f)[Start(g.files[f], k)..]
  }

  function PieceMarks(g: Graph, f: File, k: nat): seq<Mark>
    requires f in g.files && k < |g.files[f]|
  {
    PieceAt(g.files[f], k);
    Source(g, f)[Start(g.files[f], k)..Start(g.files[f], k + 1)]
  }

  lemma RestSplits(g: Graph, f: File, k: nat)
    requires f in g.files && k < |g.files[f]|
    ensures Rest(g, f, k) == PieceMarks(g, f, k) + Rest(g, f, k + 1)
    ensures Chars(PieceMarks(g, f, k)) == Text(g.files[f][k])
  {
    hide Content, Start;
    PieceAt(g.files[f], k);
    SliceSplits(Source(g, f), Content(g.files[f]), Start(g.files[f], k), Start(g.files[f], k + 1));
  }

  lemma SliceSplits(t: seq<Mark>, text: string, a: nat, b: nat)
    requires a <= b <= |t| && Chars(t) == text
    ensures t[a..] == t[a..b] + t[b..] && Chars(t[a..b]) == text[a..b]
  {
  }

  // ----- what the script writes -----

  function WriteFile(g: Graph, f: File, written: set<File>): (r: Output<seq<Mark>>)
    requires written <= g.files.Keys
    ensures r.Written? ==> written <= r.files <= g.files.Keys
    decreases g.files.Keys - written, 0, 0
  {
    if !g.NeedToWrite(f, written) then Written([], written)
    else if !g.Parses(f) then Failed
    else ReplaceIncludes(g, f, 0, Source(g, f), written + {f})
  }

  /** The includes of f from piece k on are replaced in the text. */
  function ReplaceIncludes(g: Graph, f: File, k: nat, text: seq<Mark>, written: set<File>): (r: Output<seq<Mark>>)
    requires f in g.files && g.Parses(f) && f in written && written <= g.files.Keys && k <= |g.files[f]|
    ensures r.Written? ==> written <= r.files <= g.files.Keys
    decreases g.files.Keys - written, 1, |g.files[f]| - k
  {
    if k == |g.files[f]| then Written(text, written)
    else
      match g.files[f][k]
      case Own(_) => ReplaceIncludes(g, f, k + 1, text, written)
      case Include(s, h) =>
        match WriteFile(g, h, written)
        case Failed => Failed
        case Written(include_text, w) => ReplaceIncludes(g, f, k + 1, ReplaceMarks(text, s, include_text), w)
  }

  function WriteAll(g: Graph, sources: seq<File>, written: set<File>): (r: Output<seq<Mark>>)
    requires written <= g.files.Keys
    ensures r.Written? ==> written <= r.files <= g.files.Keys
    decreases |sources|
  {
    if sources == [] then Written([], written)
    else
      match WriteFile(g, sources[0], written)
      case Failed => Failed
      case Written(t1, w1) =>
        match WriteAll(g, sources[1..], w1) case Failed => Failed case Written(t2, w2) => Written(t1 + t2, w2)
  }

  // ----- the script -----

  /** The global state of the script: the files already written. */
  class Amalgamator {
    const g: Graph
    var written_files: set<File>

    ghost predicate Valid()
      reads this
    {
      written_files <= g.files.Keys
    }

    constructor (graph: Graph)
      ensures Valid() && g == graph && written_files == {}
    {
      g, written_files := graph, {};
    }

    /** `write_file`: the file is marked before its includes are written, so cycles end. */
    method Write(current_file: File) returns (r: Option<string>)
      requires Valid()
      modifies this
      ensures Valid() && old(written_files) <= written_files
      ensures match WriteFile(g, current_file, old(written_files))
              case Failed => r.None?
              case Written(text, files) => r == Some(Chars(text)) && written_files == files
      decreases g.files.Keys - written_files
    {
      hide IsStatement, Replace, ReplaceMarks, Content, Source;
      if !g.NeedToWrite(current_file, written_files) {
        return Some("");
      }
      if !g.Parses(current_file) {
        return None;
      }
      written_files := written_files + {current_file};
      ghost var marked := written_files;
      var pieces := g.files[current_file];
      var text := Content(pieces);
      ghost var marks := Source(g, current_file);
      SourceChars(g, current_file);
      for k := 0 to |pieces|
        invariant Valid() && marked <= written_files && text == Chars(marks)
        invariant ReplaceIncludes(g, current_file, k, marks, written_files) ==
                  ReplaceIncludes(g, current_file, 0, Source(g, current_file), marked)
      {
        if pieces[k].Include? {
          ghost var include_marks := WriteFile(g, pieces[k].target, written_files);
          var include_text := Write(pieces[k].target);
          if include_text.None? {
            return None;
          }
          NotEmpty(pieces[k].statement);
          CharsReplaced(marks, pieces[k].statement, include_marks.text);
          text := Replace(text, pieces[k].statement, include_text.value);
          marks := ReplaceMarks(marks, pieces[k].statement, include_marks.text);
        }
      }
      return Some(text);
    }

    /** The sources in order, as `write_dir` collects them. */
    method WriteSources(sources: seq<File>) returns (r: Option<string>)
      requires Valid()
      modifies this
      ensures match WriteAll(g, sources, old(written_files))
              case Failed => r.None?
              case Written(text, files) => r == Some(Chars(text)) && written_files == files
    {
      var text := "";
      ghost var marks: seq<Mark> := [];
      ghost var all := WriteAll(g, sources, written_files);
      assert sources[0..] == sources && After([], all) == all
             by { if all.Written? { assert [] + all.text == all.text; } }
      for k := 0 to |sources|
        invariant Valid() && text == Chars(marks)
        invariant After(marks, WriteAll(g, sources[k..], written_files)) == all
      {
        assert sources[k..][1..] == sources[k + 1..];
        NextSource(g, sources[k..], written_files, marks);
        ghost var file_marks := WriteFile(g, sources[k], written_files);
        var file_text := Write(sources[k]);
        if file_text.None? {
          return None;
        }
        text := text + file_text.value;
        marks := marks + file_marks.text;
      }
      assert marks + [] == marks;
      return Some(text);
    }
  }

  function After(before: seq<Mark>, r: Output<seq<Mark>>): Output<seq<Mark>> {
    match r case Failed => Failed case Written(text, files) => Written(before + text, files)
  }

  lemma NextSource(g: Graph, sources: seq<File>, w: set<File>, before: seq<Mark>)
    requires w <= g.files.Keys && sources != []
    ensures match WriteFile(g, sources[0], w)
            case Failed => WriteAll(g, sources, w).Failed?
            case Written(t, w1) =>
              After(before, WriteAll(g, sources, w)) == After(before + t, WriteAll(g, sources[1..], w1))
  {
    var r := WriteFile(g, sources[0], w);
    if r.Written? && WriteAll(g, sources[1..], r.files).Written? {
      Regroup(before, r.text, WriteAll(g, sources[1..], r.files).text);
    }
  }

  // ----- the splicing that is meant -----

  function Marks(g: Graph, text: seq<Emitted>): seq<Mark> {
    if text == [] then []
    else
      (if text[0].file in g.files && text[0].k < |g.files[text[0].file]|
       then PieceMarks(g, text[0].file, text[0].k) else []) + Marks(g, text[1..])
  }

  lemma {:induction false} MarksConcat(g: Graph, a: seq<Emitted>, b: seq<Emitted>)
    ensures Marks(g, a + b) == Marks(g, a) + Marks(g, b)
  {
    if a == [] {
      assert a + b == b;
    } else {
      assert (a + b)[1..] == a[1..] + b;
      MarksConcat(g, a[1..], b);
    }
  }

  lemma MarksOne(g: Graph, f: File, k: nat)
    requires f in g.files && k < |g.files[f]|
    ensures Marks(g, [Emitted(f, k)]) == PieceMarks(g, f, k)
  {
    assert Marks(g, [Emitted(f, k)][1..]) == [];
  }

  /** Replacing and splicing write the same files, and fail on the same inputs, whatever the texts are. */
  lemma {:induction false} SameFiles(g: Graph, f: File, w: set<File>)
    requires w <= g.files.Keys
    ensures match SpliceFile(g, f, w)
            case Failed => WriteFile(g, f, w).Failed?
            case Written(_, files) => WriteFile(g, f, w).Written? && WriteFile(g, f, w).files == files
    decreases g.files.Keys - w, 0, 0
  {
    if g.NeedToWrite(f, w) && g.Parses(f) { SameFilesFrom(g, f, 0, Source(g, f), w + {f}); }
  }

  lemma {:induction false} SameFilesFrom(g: Graph, f: File, k: nat, text: seq<Mark>, w: set<File>)
    requires f in g.files && g.Parses(f) && f in w && w <= g.files.Keys && k <= |g.files[f]|
    ensures match SplicePieces(g, f, k, w)
            case Failed => ReplaceIncludes(g, f, k, text, w).Failed?
            case Written(_, files) =>
              ReplaceIncludes(g, f, k, text, w).Written? && ReplaceIncludes(g, f, k, text, w).files == files
    decreases g.files.Keys - w, 1, |g.files[f]| - k
  {
    if k < |g.files[f]| {
      match g.files[f][k] {
        case Own(_) => SameFilesFrom(g, f, k + 1, text, w);
        case Include(s, h) =>
          SameFiles(g, h, w);
          var r := WriteFile(g, h, w);
          if r.Written? { SameFilesFrom(g, f, k + 1, ReplaceMarks(text, s, r.text), r.files); }
      }
    }
  }

  // ----- replacing is splicing when each statement is found alone -----

  /** The text s stands nowhere before `at`, and nowhere after its occurrence there. */
  ghost predicate OnlyHere(t: seq<Mark>, s: string, at: nat) {
    forall q :: Occurs(t, s, q) ==> at <= q < at + |s|
  }

  /** Whenever an include is replaced, its statement is found in the text spliced so far only in its place. */
  ghost predicate AloneFile(g: Graph, f: File, w: set<File>)
    requires w <= g.files.Keys
    decreases g.files.Keys - w, 0, 0
  {
    g.NeedToWrite(f, w) && g.Parses(f) ==> AlonePieces(g, f, 0, [], w + {f})
  }

  ghost predicate AlonePieces(g: Graph, f: File, k: nat, before: seq<Mark>, w: set<File>)
    requires f in g.files && g.Parses(f) && f in w && w <= g.files.Keys && k <= |g.files[f]|
    decreases g.files.Keys - w, 1, |g.files[f]| - k
  {
    k < |g.files[f]| ==>
      match g.files[f][k]
      case Own(_) => AlonePieces(g, f, k + 1, before + PieceMarks(g, f, k), w)
      case Include(s, h) =>
        && OnlyHere(before + Rest(g, f, k), s, |before|)
        && AloneFile(g, h, w)
        && match SpliceFile(g, h, w)
           case Failed => true
           case Written(t, w1) => AlonePieces(g, f, k + 1, before + Marks(g, t), w1)
  }

  ghost predicate AloneAll(g: Graph, sources: seq<File>, w: set<File>)
    requires w <= g.files.Keys
    decreases |sources|
  {
    sources != [] ==>
      && AloneFile(g, sources[0], w)
      && (SpliceFile(g, sources[0], w).Written? ==>
            AloneAll(g, sources[1..], SpliceFile(g, sources[0], w).files))
  }

  lemma {:induction false} AloneFileSpliced(g: Graph, f: File, w: set<File>)
    requires w <= g.files.Keys && AloneFile(g, f, w) && SpliceFile(g, f, w).Written?
    ensures WriteFile(g, f, w) == Written(Marks(g, SpliceFile(g, f, w).text), SpliceFile(g, f, w).files)
    decreases g.files.Keys - w, 0, 0
  {
    if g.NeedToWrite(f, w) {
      AlonePiecesSpliced(g, f, 0, [], w + {f});
      WholeRest(g, f);
      assert [] + Rest(g, f, 0) == Source(g, f);
      var t := SplicePieces(g, f, 0, w + {f}).text;
      assert [] + Marks(g, t) == Marks(g, t);
    }
  }

  lemma WholeRest(g: Graph, f: File)
    requires f in g.files
    ensures Rest(g, f, 0) == Source(g, f) && Rest(g, f, |g.files[f]|) == []
  {
    var ps := g.files[f];
    assert ps[..|ps|] == ps;
  }

  lemma {:induction false} AlonePiecesSpliced(g: Graph, f: File, k: nat, before: seq<Mark>, w: set<File>)
    requires f in g.files && g.Parses(f) && f in w && w <= g.files.Keys && k <= |g.files[f]|
    requires AlonePieces(g, f, k, before, w) && SplicePieces(g, f, k, w).Written?
    ensures ReplaceIncludes(g, f, k, before + Rest(g, f, k), w) ==
            Written(before + Marks(g, SplicePieces(g, f, k, w).text), SplicePieces(g, f, k, w).files)
    decreases g.files.Keys - w, 1, |g.files[f]| - k
  {
    hide OnlyHere, Rest, PieceMarks, Marks, ReplaceMarks, IsStatement;
    if k == |g.files[f]| {
      WholeRest(g, f);
      NoMarks(g);
    } else {
      RestSplits(g, f, k);
      match g.files[f][k] {
        case Own(_) =>
          AlonePiecesSpliced(g, f, k + 1, before + PieceMarks(g, f, k), w);
          var t := SplicePieces(g, f, k + 1, w).text;
          MarksConcat(g, [Emitted(f, k)], t);
          MarksOne(g, f, k);
          Regroup(before, PieceMarks(g, f, k), Rest(g, f, k + 1));
          Regroup(before, PieceMarks(g, f, k), Marks(g, t));
        case Include(s, h) =>
          var r := SpliceFile(g, h, w);
          AloneFileSpliced(g, h, w);
          Regroup(before, PieceMarks(g, f, k), Rest(g, f, k + 1));
          Alone(before, PieceMarks(g, f, k), Rest(g, f, k + 1), s, Marks(g, r.text));
          AlonePiecesSpliced(g, f, k + 1, before + Marks(g, r.text), r.files);
          var t := SplicePieces(g, f, k + 1, r.files).text;
          MarksConcat(g, r.text, t);
          Regroup(before, Marks(g, r.text), Marks(g, t));
      }
    }
  }

  lemma NoMarks(g: Graph)
    ensures Marks(g, []) == []
  {
  }

  lemma Regroup(a: seq<Mark>, b: seq<Mark>, c: seq<Mark>)
    ensures a + (b + c) == (a + b) + c
  {
  }

  lemma Alone(before: seq<Mark>, here: seq<Mark>, rest: seq<Mark>, s: Statement, put: seq<Mark>)
    requires Chars(here) == s && OnlyHere(before + here + rest, s, |before|)
    ensures ReplaceMarks(before + here + rest, s, put) == before + put + rest
  {
    FoundAlone(before, here, rest, s, put);
  }

  /** For all texts: with each statement found alone, what the script writes is the splicing of the files. */
  lemma {:induction false} AloneAllSpliced(g: Graph, sources: seq<File>, w: set<File>)
    requires w <= g.files.Keys && AloneAll(g, sources, w) && SpliceAll(g, sources, w).Written?
    ensures WriteAll(g, sources, w) == Written(Marks(g, SpliceAll(g, sources, w).text), SpliceAll(g, sources, w).files)
    decreases |sources|
  {
    if sources != [] {
      var r := SpliceFile(g, sources[0], w);
      AloneFileSpliced(g, sources[0], w);
      AloneAllSpliced(g, sources[1..], r.files);
      MarksConcat(g, r.text, SpliceAll(g, sources[1..], r.files).text);
    }
  }
}
