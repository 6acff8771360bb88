/** Include-once flattening of source files as a splicing of their pieces, and the split of the result into partitions.
    The text of a file is a list of pieces: its own text, and include statements, for which the text of the file they
    name is spliced in, or nothing when that file has been written already or is never written. The script replaces the
    texts of the statements instead: `IncludeReplacement` follows it, and `IncludeOnce` says when that is the same. */
module Amalgamation {
  type File = string

  predicate IsBlank(c: char) {
    c == ' ' || c == '\t'
  }

  function SkipBlanks(s: string, i: nat): (r: nat)
    requires i <= |s|
    ensures i <= r <= |s| && (forall j :: i <= j < r ==> IsBlank(s[j])) && (r < |s| ==> !IsBlank(s[r]))
    decreases |s| - i
  {
    if i < |s| && IsBlank(s[i]) then SkipBlanks(s, i + 1) else i
  }

  /** A name in quotes, after at least one blank. */
  predicate IsQuoted(s: string) {
    var quote := SkipBlanks(s, 0);
    0 < quote < |s| - 2 && s[quote] == '"' && s[|s| - 1] == '"' && '"' !in s[quote + 1..|s| - 1]
  }

  predicate IsDirective(s: string) {
    var word := SkipBlanks(s, 0);
    word + 7 <= |s| && s[word..word + 7] == "include" && IsQuoted(s[word + 7..])
  }

  /** What the regular expression of `get_includes` takes for an include statement, with the blanks before it. */
  predicate IsStatement(s: string) {
    var hash := SkipBlanks(s, 0);
    hash < |s| && s[hash] == '#' && IsDirective(s[hash + 1..])
  }

  type Statement = s: string | IsStatement(s) witness (StatementExists(); "#include \"a\"")

  lemma StatementExists()
    ensures IsStatement("#include \"a\"")
  {
    hide IsDirective;
    var s := "#include \"a\"";
    DirectiveExists();
    assert s[1..] == "include \"a\"" && SkipBlanks(s, 0) == 0;
  }

  lemma DirectiveExists()
    ensures IsDirective("include \"a\"")
  {
    hide IsQuoted;
    var s := "include \"a\"";
    QuotedExists();
    assert s[7..] == " \"a\"" && s[0..7] == "include" && SkipBlanks(s, 0) == 0;
  }

  lemma QuotedExists()
    ensures IsQuoted(" \"a\"")
  {
    var s := " \"a\"";
    assert SkipBlanks(s, 1) == 1 && SkipBlanks(s, 0) == 1;
  }

  /** A source text: its own lines, and include statements by their text and the file they resolve to. */
  datatype Piece = Own(text: string) | Include(statement: Statement, target: File)

  /** Own piece k of a file, as it is written out. */
  datatype Emitted = Emitted(file: File, k: nat)

  /** The files that can be read, and those that are never written. */
  datatype Graph = Graph(files: map<File, seq<Piece>>, excluded: set<File>) {
    predicate NeedToWrite(f: File, written: set<File>) {
      f !in excluded && f !in written
    }

    /** `get_includes` succeeds: no statement stands twice, and every included file is found. */
    predicate Parses(f: File) {
      && f in files
      && var ps := files[f];
         && (forall j, k ::
              0 <= j < k < |ps| && ps[j].Include? && ps[k].Include? ==> ps[j].statement != ps[k].statement)
         && (forall k :: 0 <= k < |ps| && ps[k].Include? ==> ps[k].target in files || ps[k].target in excluded)
    }
  }

  // ----- the splicing -----

  /** The text written for a file and the files written so far; None is an exception. */
  datatype Output<T> = Failed | Written(text: T, files: set<File>)

  function SpliceFile(g: Graph, f: File, written: set<File>): (r: Output<seq<Emitted>>)
    requires written <= g.files.Keys
    ensures r.Written? ==> written <= r.files <= g.files.Keys
    ensures r.Written? && f !in g.excluded ==> f in r.files
    decreases g.files.Keys - written, 0, 0
  {
    if !g.NeedToWrite(f, written) then Written([], written)
    else if !g.Parses(f) then Failed
    else SplicePieces(g, f, 0, written + {f})
  }

  /** The pieces of f from k on, each include replaced by the text of its file. */
  function SplicePieces(g: Graph, f: File, k: nat, written: set<File>): (r: Output<seq<Emitted>>)
    requires f in g.files && g.Parses(f) && f in written && written <= g.files.Keys && k <= |g.files[f]|
    ensures r.Written? ==> written <= r.files <= g.files.Keys
    decreases g.files.Keys - written, 1, |g.files[f]| - k
  {
    if k == |g.files[f]| then Written([], written)
    else
      match g.files[f][k]
      case Own(_) =>
        (match SplicePieces(g, f, k + 1, written)
         case Failed => Failed
         case Written(t, w) => Written([Emitted(f, k)] + t, w))
      case Include(_, h) =>
        match SpliceFile(g, h, written)
        case Failed => Failed
        case Written(t1, w1) =>
          match SplicePieces(g, f, k + 1, w1) case Failed => Failed case Written(t2, w2) => Written(t1 + t2, w2)
  }

  function SpliceAll(g: Graph, sources: seq<File>, written: set<File>): (r: Output<seq<Emitted>>)
    requires written <= g.files.Keys
    ensures r.Written? ==> written <= r.files <= g.files.Keys
    decreases |sources|
  {
    if sources == [] then Written([], written)
    else
      match SpliceFile(g, sources[0], written)
      case Failed => Failed
      case Written(t1, w1) =>
        match SpliceAll(g, sources[1..], w1) case Failed => Failed case Written(t2, w2) => Written(t1 + t2, w2)
  }

  // ----- every file once -----

  predicate IsOwn(g: Graph, f: File, k: nat) {
    f in g.files && k < |g.files[f]| && g.files[f][k].Own?
  }

  /** How often the own piece j of file h is in the text of f. */
  lemma {:induction false} FileOnce(g: Graph, f: File, w: set<File>, h: File, j: nat)
    requires w <= g.files.Keys && SpliceFile(g, f, w).Written?
    ensures multiset(SpliceFile(g, f, w).text)[Emitted(h, j)] ==
              if h in SpliceFile(g, f, w).files - w && IsOwn(g, h, j) then 1 else 0
    decreases g.files.Keys - w, 0, 0
  {
    if g.NeedToWrite(f, w) { PiecesOnce(g, f, 0, w + {f}, h, j); }
  }

  lemma {:induction false} PiecesOnce(g: Graph, f: File, k: nat, w: set<File>, h: File, j: nat)
    requires f in g.files && g.Parses(f) && f in w && w <= g.files.Keys && k <= |g.files[f]|
             && SplicePieces(g, f, k, w).Written?
    ensures multiset(SplicePieces(g, f, k, w).text)[Emitted(h, j)] ==
              if (if h == f then k <= j else h in SplicePieces(g, f, k, w).files - w) && IsOwn(g, h, j) then 1 else 0
    decreases g.files.Keys - w, 1, |g.files[f]| - k
  {
    hide IsStatement;
    if k < |g.files[f]| {
      match g.files[f][k] {
        case Own(_) => PiecesOnce(g, f, k + 1, w, h, j);
        case Include(_, target) =>
          FileOnce(g, target, w, h, j);
          PiecesOnce(g, f, k + 1, SpliceFile(g, target, w).files, h, j);
      }
    }
  }

  lemma {:induction false} AllOnce(g: Graph, sources: seq<File>, w: set<File>, h: File, j: nat)
    requires w <= g.files.Keys && SpliceAll(g, sources, w).Written?
    ensures multiset(SpliceAll(g, sources, w).text)[Emitted(h, j)] ==
              if h in SpliceAll(g, sources, w).files - w && IsOwn(g, h, j) then 1 else 0
    decreases |sources|
  {
    if sources != [] {
      FileOnce(g, sources[0], w, h, j);
      AllOnce(g, sources[1..], SpliceFile(g, sources[0], w).files, h, j);
    }
  }

  // ----- the files written are the files reachable -----

  predicate Includes(g: Graph, f: File, h: File) {
    f in g.files && exists k :: 0 <= k < |g.files[f]| && g.files[f][k].Include? && g.files[f][k].target == h
  }

  /** A chain of includes through files that are written out. */
  predicate IsChain(g: Graph, chain: seq<File>) {
    && chain != []
    && (forall i :: 0 <= i < |chain| ==> chain[i] !in g.excluded)
    && (forall i :: 0 <= i < |chain| - 1 ==> Includes(g, chain[i], chain[i + 1]))
  }

  ghost predicate Reaches(g: Graph, f: File, h: File) {
    exists chain: seq<File> :: IsChain(g, chain) && chain[0] == f && chain[|chain| - 1] == h
  }

  lemma ReachesSelf(g: Graph, f: File)
    requires f !in g.excluded
    ensures Reaches(g, f, f)
  {
    assert IsChain(g, [f]);
  }

  lemma ReachesFurther(g: Graph, f: File, t: File, h: File)
    requires f !in g.excluded && Includes(g, f, t) && Reaches(g, t, h)
    ensures Reaches(g, f, h)
  {
    hide IsStatement, Includes;
    var chain: seq<File> :| IsChain(g, chain) && chain[0] == t && chain[|chain| - 1] == h;
    var longer := [f] + chain;
    forall i | 0 <= i < |longer| - 1 ensures Includes(g, longer[i], longer[i + 1]) {
      if i > 0 { assert Includes(g, chain[i - 1], chain[i - 1 + 1]); }
    }
    assert IsChain(g, longer);
  }

  /** Newly written files are reachable, and what they include is written too, or excluded. */
  ghost predicate Explored(g: Graph, f: File, w: set<File>, files: set<File>) {
    && (forall h :: h in files - w ==> Reaches(g, f, h))
    && (forall h, t :: h in files - w && Includes(g, h, t) ==> t in files || t in g.excluded)
  }

  lemma {:induction false} FileExplores(g: Graph, f: File, w: set<File>)
    requires w <= g.files.Keys && SpliceFile(g, f, w).Written?
    ensures Explored(g, f, w, SpliceFile(g, f, w).files)
    decreases g.files.Keys - w, 0, 0
  {
    if g.NeedToWrite(f, w) {
      ReachesSelf(g, f);
      PiecesExplore(g, f, 0, w + {f});
      var files := SpliceFile(g, f, w).files;
      forall t | Includes(g, f, t) ensures t in files || t in g.excluded {
        var k :| 0 <= k < |g.files[f]| && g.files[f][k].Include? && g.files[f][k].target == t;
        assert TargetsIn(g, f, 0, files);
      }
    }
  }

  predicate TargetsIn(g: Graph, f: File, k: nat, files: set<File>)
    requires f in g.files
  {
    forall j :: k <= j < |g.files[f]| && g.files[f][j].Include?
        ==> g.files[f][j].target in files || g.files[f][j].target in g.excluded
  }

  lemma {:induction false} PiecesExplore(g: Graph, f: File, k: nat, w: set<File>)
    requires f in g.files && g.Parses(f) && f in w && w <= g.files.Keys && k <= |g.files[f]|
             && SplicePieces(g, f, k, w).Written?
    requires f !in g.excluded
    ensures Explored(g, f, w, SplicePieces(g, f, k, w).files) && TargetsIn(g, f, k, SplicePieces(g, f, k, w).files)
    decreases g.files.Keys - w, 1, |g.files[f]| - k
  {
    if k < |g.files[f]| {
      match g.files[f][k] {
        case Own(_) => PiecesExplore(g, f, k + 1, w);
        case Include(_, target) =>
          FileExplores(g, target, w);
          var w1 := SpliceFile(g, target, w).files;
          PiecesExplore(g, f, k + 1, w1);
          forall h | h in w1 - w ensures Reaches(g, f, h) {
            ReachesFurther(g, f, target, h);
          }
      }
    }
  }

  /** From all sources: exactly the files that a source reaches through files that are not excluded. */
  lemma {:induction false} AllExplored(g: Graph, sources: seq<File>, w: set<File>)
    requires w <= g.files.Keys && SpliceAll(g, sources, w).Written?
    requires forall h, t :: h in w && Includes(g, h, t) ==> t in w || t in g.excluded
    ensures var files := SpliceAll(g, sources, w).files;
            && (forall h :: h in files - w ==> exists s :: s in sources && Reaches(g, s, h))
            && (forall h, t :: h in files && Includes(g, h, t) ==> t in files || t in g.excluded)
            && (forall s :: s in sources ==> s in files || s in g.excluded)
    decreases |sources|
  {
    if sources != [] {
      var w1 := SpliceFile(g, sources[0], w).files;
      FileExplores(g, sources[0], w);
      AllExplored(g, sources[1..], w1);
      var files := SpliceAll(g, sources, w).files;
      forall h | h in files - w ensures exists s :: s in sources && Reaches(g, s, h) {
        if h in w1 {
          assert Reaches(g, sources[0], h);
        } else {
          assert files == SpliceAll(g, sources[1..], w1).files && h in files - w1;
          var s :| s in sources[1..] && Reaches(g, s, h);
          assert s in sources;
        }
      }
    }
  }

  lemma {:induction false} ChainWritten(g: Graph, files: set<File>, chain: seq<File>)
    requires IsChain(g, chain) && chain[0] in files
    requires forall h, t :: h in files && Includes(g, h, t) ==> t in files || t in g.excluded
    ensures chain[|chain| - 1] in files
    decreases |chain|
  {
    if |chain| > 1 {
      var rest := chain[1..];
      assert Includes(g, chain[0], chain[0 + 1]);
      forall i | 0 <= i < |rest| - 1 ensures Includes(g, rest[i], rest[i + 1]) {
        assert Includes(g, chain[i + 1], chain[i + 1 + 1]);
      }
      ChainWritten(g, files, rest);
    }
  }

  /** The files written are those that a source reaches through files that are not excluded. */
  lemma WrittenAreReached(g: Graph, sources: seq<File>, h: File)
    requires SpliceAll(g, sources, {}).Written?
    ensures h in SpliceAll(g, sources, {}).files <==> exists s :: s in sources && Reaches(g, s, h)
  {
    hide SpliceAll, Includes;
    AllExplored(g, sources, {});
    var files := SpliceAll(g, sources, {}).files;
    assert files - {} == files;
    if exists s :: s in sources && Reaches(g, s, h) {
      var s :| s in sources && Reaches(g, s, h);
      var chain: seq<File> :| IsChain(g, chain) && chain[0] == s && chain[|chain| - 1] == h;
      ChainStart(g, chain);
      ChainWritten(g, files, chain);
    }
  }

  /** Include-once: whatever the cycles, the own text of each file that a source reaches is spliced exactly once, and
      nothing else is. */
  lemma EveryReachableFileOnce(g: Graph, sources: seq<File>, h: File, j: nat)
    requires SpliceAll(g, sources, {}).Written?
    ensures multiset(SpliceAll(g, sources, {}).text)[Emitted(h, j)] ==
              if (exists s :: s in sources && Reaches(g, s, h)) && IsOwn(g, h, j) then 1 else 0
  {
    hide SpliceAll, Includes, Reaches;
    AllOnce(g, sources, {}, h, j);
    WrittenAreReached(g, sources, h);
  }

  lemma ChainStart(g: Graph, chain: seq<File>)
    requires IsChain(g, chain)
    ensures chain[0] !in g.excluded
  {
  }

  // ----- includes come first -----

  /** A rank that falls along every include: the includes have no cycle. */
  ghost predicate Acyclic(g: Graph, rank: File -> nat) {
    forall f, k :: f in g.files && 0 <= k < |g.files[f]| && g.files[f][k].Include?
        ==> rank(g.files[f][k].target) < rank(f)
  }

  /** All of h's own text stands in the text. */
  predicate Complete(g: Graph, text: seq<Emitted>, h: File) {
    h in g.files ==> forall j :: 0 <= j < |g.files[h]| && g.files[h][j].Own? ==> Emitted(h, j) in text
  }

  /** Before own piece e stands the whole text of every file included above it. */
  predicate IncludedBefore(g: Graph, before: seq<Emitted>, e: Emitted) {
    e.file in g.files ==>
      forall k :: 0 <= k < e.k && k < |g.files[e.file]| && g.files[e.file][k].Include?
          && g.files[e.file][k].target !in g.excluded
        ==> Complete(g, before, g.files[e.file][k].target)
  }

  predicate InOrder(g: Graph, text: seq<Emitted>) {
    forall p :: 0 <= p < |text| ==> IncludedBefore(g, text[..p], text[p])
  }

  lemma CompleteStays(g: Graph, text: seq<Emitted>, more: seq<Emitted>, h: File)
    requires Complete(g, text, h)
    ensures Complete(g, text + more, h)
  {
  }

  /** A file writes only files of its rank or below. */
  lemma {:induction false} FileRanks(g: Graph, rank: File -> nat, f: File, w: set<File>)
    requires Acyclic(g, rank) && w <= g.files.Keys && SpliceFile(g, f, w).Written?
    ensures forall h :: h in SpliceFile(g, f, w).files - w ==> rank(h) <= rank(f)
    decreases g.files.Keys - w, 0, 0
  {
    if g.NeedToWrite(f, w) { PiecesRank(g, rank, f, 0, w + {f}); }
  }

  lemma {:induction false} PiecesRank(g: Graph, rank: File -> nat, f: File, k: nat, w: set<File>)
    requires Acyclic(g, rank)
    requires f in g.files && g.Parses(f) && f in w && w <= g.files.Keys && k <= |g.files[f]|
             && SplicePieces(g, f, k, w).Written?
    ensures forall h :: h in SplicePieces(g, f, k, w).files - w ==> rank(h) <= rank(f)
    decreases g.files.Keys - w, 1, |g.files[f]| - k
  {
    if k < |g.files[f]| {
      match g.files[f][k] {
        case Own(_) => PiecesRank(g, rank, f, k + 1, w);
        case Include(_, target) =>
          FileRanks(g, rank, target, w);
          PiecesRank(g, rank, f, k + 1, SpliceFile(g, target, w).files);
      }
    }
  }

  /** Every written file up to a rank is complete. */
  ghost predicate CompleteTo(g: Graph, rank: File -> nat, text: seq<Emitted>, w: set<File>, top: nat) {
    forall h :: h in w && rank(h) <= top ==> Complete(g, text, h)
  }

  /** And so it is but for f, of which only the pieces before k are there, with what they include. */
  ghost predicate CompleteBut(g: Graph, rank: File -> nat, text: seq<Emitted>, w: set<File>, f: File, k: nat)
    requires f in g.files && k <= |g.files[f]|
  {
    && (forall h :: h in w && h != f && rank(h) <= rank(f) ==> Complete(g, text, h))
    && (forall j :: 0 <= j < k && g.files[f][j].Own? ==> Emitted(f, j) in text)
    && (forall j ::
         0 <= j < k && g.files[f][j].Include? && g.files[f][j].target !in g.excluded
         ==> Complete(g, text, g.files[f][j].target))
  }

  lemma {:induction false} FileInOrder(g: Graph, rank: File -> nat, f: File, w: set<File>, before: seq<Emitted>)
    requires Acyclic(g, rank) && w <= g.files.Keys && SpliceFile(g, f, w).Written?
    requires InOrder(g, before) && CompleteTo(g, rank, before, w, rank(f))
    ensures var r := SpliceFile(g, f, w);
            InOrder(g, before + r.text) && CompleteTo(g, rank, before + r.text, r.files, rank(f))
    decreases g.files.Keys - w, 0, 0
  {
    hide Acyclic, InOrder, Complete;
    if g.NeedToWrite(f, w) {
      PiecesInOrder(g, rank, f, 0, w + {f}, before);
    } else {
      assert before + [] == before;
    }
  }

  lemma {:induction false} PiecesInOrder(g: Graph, rank: File -> nat, f: File, k: nat, w: set<File>,
                                         before: seq<Emitted>)
    requires Acyclic(g, rank)
    requires f in g.files && g.Parses(f) && f in w && w <= g.files.Keys && k <= |g.files[f]|
             && SplicePieces(g, f, k, w).Written?
    requires InOrder(g, before) && CompleteBut(g, rank, before, w, f, k)
    ensures var r := SplicePieces(g, f, k, w);
            InOrder(g, before + r.text) && CompleteTo(g, rank, before + r.text, r.files, rank(f))
    decreases g.files.Keys - w, 1, |g.files[f]| - k
  {
    hide InOrder, CompleteBut, CompleteTo, Complete, IncludedBefore, Acyclic;
    if k == |g.files[f]| {
      assert before + [] == before;
      FileComplete(g, rank, before, w, f);
    } else {
      match g.files[f][k] {
        case Own(_) =>
          var e := Emitted(f, k);
          OwnInOrder(g, rank, before, w, f, k);
          PiecesInOrder(g, rank, f, k + 1, w, before + [e]);
          var rest := SplicePieces(g, f, k + 1, w).text;
          assert before + ([e] + rest) == (before + [e]) + rest;
        case Include(_, target) =>
          var r1 := SpliceFile(g, target, w);
          BelowTop(g, rank, before, w, f, k);
          FileInOrder(g, rank, target, w, before);
          FileRanks(g, rank, target, w);
          IncludeDone(g, rank, before, w, f, k, r1);
          PiecesInOrder(g, rank, f, k + 1, r1.files, before + r1.text);
          var rest := SplicePieces(g, f, k + 1, r1.files).text;
          assert before + (r1.text + rest) == (before + r1.text) + rest;
      }
    }
  }

  lemma FileComplete(g: Graph, rank: File -> nat, text: seq<Emitted>, w: set<File>, f: File)
    requires f in g.files && CompleteBut(g, rank, text, w, f, |g.files[f]|)
    ensures CompleteTo(g, rank, text, w, rank(f))
  {
  }

  lemma OwnInOrder(g: Graph, rank: File -> nat, before: seq<Emitted>, w: set<File>, f: File, k: nat)
    requires f in g.files && k < |g.files[f]| && g.files[f][k].Own?
    requires InOrder(g, before) && CompleteBut(g, rank, before, w, f, k)
    ensures InOrder(g, before + [Emitted(f, k)]) && CompleteBut(g, rank, before + [Emitted(f, k)], w, f, k + 1)
  {
    hide Complete;
    var e := Emitted(f, k);
    var text := before + [e];
    forall h | Complete(g, before, h) ensures Complete(g, text, h) { CompleteStays(g, before, [e], h); }
    forall p | 0 <= p < |text| ensures IncludedBefore(g, text[..p], text[p]) {
      if p < |before| {
        assert text[..p] == before[..p] && IncludedBefore(g, before[..p], before[p]);
      } else {
        assert text[..p] == before;
      }
    }
  }

  /** Below f's rank everything written is complete. */
  lemma BelowTop(g: Graph, rank: File -> nat, text: seq<Emitted>, w: set<File>, f: File, k: nat)
    requires Acyclic(g, rank) && f in g.files && k < |g.files[f]| && g.files[f][k].Include?
             && CompleteBut(g, rank, text, w, f, k)
    ensures CompleteTo(g, rank, text, w, rank(g.files[f][k].target)) && rank(g.files[f][k].target) < rank(f)
  {
    hide Complete;
  }

  lemma IncludeDone(g: Graph, rank: File -> nat, before: seq<Emitted>, w: set<File>, f: File, k: nat,
                    r: Output<seq<Emitted>>)
    requires f in g.files && k < |g.files[f]| && g.files[f][k].Include? && f in w
             && CompleteBut(g, rank, before, w, f, k)
    requires r.Written? && CompleteTo(g, rank, before + r.text, r.files, rank(g.files[f][k].target))
    requires g.files[f][k].target !in g.excluded ==> g.files[f][k].target in r.files
    requires forall h :: h in r.files - w ==> rank(h) <= rank(g.files[f][k].target)
    ensures CompleteBut(g, rank, before + r.text, r.files, f, k + 1)
  {
    hide Complete;
    forall h | Complete(g, before, h) ensures Complete(g, before + r.text, h) { CompleteStays(g, before, r.text, h); }
  }

  lemma {:induction false} AllInOrder(g: Graph, rank: File -> nat, sources: seq<File>, w: set<File>,
                                      before: seq<Emitted>)
    requires Acyclic(g, rank) && w <= g.files.Keys && SpliceAll(g, sources, w).Written?
    requires InOrder(g, before) && forall h :: h in w ==> Complete(g, before, h)
    ensures InOrder(g, before + SpliceAll(g, sources, w).text)
    decreases |sources|
  {
    hide InOrder, Complete, Acyclic;
    if sources == [] {
      assert before + [] == before;
    } else {
      var r := SpliceFile(g, sources[0], w);
      FileInOrder(g, rank, sources[0], w, before);
      FileRanks(g, rank, sources[0], w);
      forall h | h in r.files ensures Complete(g, before + r.text, h) {
        if h in w { CompleteStays(g, before, r.text, h); }
      }
      AllInOrder(g, rank, sources[1..], r.files, before + r.text);
      var rest := SpliceAll(g, sources[1..], r.files).text;
      assert before + (r.text + rest) == (before + r.text) + rest;
    }
  }

  /** When includes have no cycle, a file stands whole before any text that follows its include. */
  lemma IncludesComeFirst(g: Graph, rank: File -> nat, sources: seq<File>)
    requires Acyclic(g, rank) && SpliceAll(g, sources, {}).Written?
    ensures InOrder(g, SpliceAll(g, sources, {}).text)
  {
    AllInOrder(g, rank, sources, {}, []);
    assert [] + SpliceAll(g, sources, {}).text == SpliceAll(g, sources, {}).text;
  }

  // ----- partitions -----

  function Bytes(files: seq<string>): nat {
    if files == [] then 0 else Bytes(files[..|files| - 1]) + |files[|files| - 1]|
  }

  function Joined(partitions: seq<seq<string>>): seq<string> {
    if partitions == [] then [] else Joined(partitions[..|partitions| - 1]) + partitions[|partitions| - 1]
  }

  /** The bytes reach the share total / n: both sides times n. */
  predicate Reached(bytes: nat, total: nat, n: nat) {
    bytes * n >= total
  }

  /** A partition closed by the loop: it reaches the share with its last file and not before. */
  predicate IsFull(p: seq<string>, total: nat, n: nat) {
    p != [] && Reached(Bytes(p), total, n) && (|p| > 1 ==> !Reached(Bytes(p[..|p| - 1]), total, n))
  }

  lemma {:induction false} BytesConcat(a: seq<string>, b: seq<string>)
    ensures Bytes(a + b) == Bytes(a) + Bytes(b)
  {
    if b == [] {
      assert a + b == a;
    } else {
      assert (a + b)[..|a + b| - 1] == a + b[..|b| - 1];
      BytesConcat(a, b[..|b| - 1]);
    }
  }

  lemma {:induction false} FullBytes(partitions: seq<seq<string>>, total: nat, n: nat)
    requires forall k :: 0 <= k < |partitions| ==> IsFull(partitions[k], total, n)
    ensures Bytes(Joined(partitions)) * n >= total * |partitions|
    ensures |Joined(partitions)| >= |partitions|
  {
    hide Bytes;
    if partitions == [] {
      assert Bytes(Joined(partitions)) * n >= 0;
    } else {
      var m := |partitions| - 1;
      var front, last := Joined(partitions[..m]), partitions[m];
      FullBytes(partitions[..m], total, n);
      BytesConcat(front, last);
      assert IsFull(last, total, n);
      AddProducts(Bytes(front), Bytes(last), n, total, m);
    }
  }

  lemma AddProducts(a: nat, b: nat, n: nat, total: nat, m: nat)
    requires a * n >= total * m && b * n >= total
    ensures (a + b) * n >= total * (m + 1)
  {
    assert (a + b) * n == a * n + b * n;
    assert total * (m + 1) == total * m + total;
  }

  /** The partition loop of `generate_amalgamation_splits`: the full partitions, and the rest that is left over. */
  method Partition(source_files: seq<string>, nsplits: nat) returns (partitions: seq<seq<string>>, full: nat)
    requires nsplits > 0
    ensures Joined(partitions) == source_files && full <= |partitions| <= full + 1
    ensures forall k :: 0 <= k < full ==> IsFull(partitions[k], Bytes(source_files), nsplits)
    ensures full < |partitions| ==>
              partitions[full] != [] && !Reached(Bytes(partitions[full]), Bytes(source_files), nsplits)
    ensures full <= nsplits <==> Bytes(source_files) > 0 || |source_files| <= nsplits
  {
    hide Bytes, Reached, Joined;
    var total_bytes := CountBytes(source_files);
    var current_bytes, current_partition := 0, [];
    partitions := [];
    NoBytes();
    for k := 0 to |source_files|
      invariant Joined(partitions) + current_partition == source_files[..k] && current_bytes == Bytes(current_partition)
      invariant forall j :: 0 <= j < |partitions| ==> IsFull(partitions[j], total_bytes, nsplits)
      invariant current_partition != [] ==> !Reached(current_bytes, total_bytes, nsplits)
    {
      var sfile := source_files[k];
      ghost var before := current_partition;
      current_partition := current_partition + [sfile];
      OneMoreFile(before, sfile);
      current_bytes := current_bytes + |sfile|;
      assert source_files[..k + 1] == source_files[..k] + [sfile];
      assert Joined(partitions) + current_partition == (Joined(partitions) + before) + [sfile];
      if Reached(current_bytes, total_bytes, nsplits) {
        OneMorePartition(partitions, current_partition);
        partitions := partitions + [current_partition];
        assert Joined(partitions) + [] == Joined(partitions);
        current_partition := [];
        current_bytes := 0;
      }
    }
    full := |partitions|;
    assert source_files[..|source_files|] == source_files;
    FullCount(source_files, partitions, current_partition, nsplits);
    if |current_partition| > 0 {
      OneMorePartition(partitions, current_partition);
      partitions := partitions + [current_partition];
    } else {
      assert Joined(partitions) + [] == Joined(partitions);
    }
  }

  method CountBytes(files: seq<string>) returns (total_bytes: nat)
    ensures total_bytes == Bytes(files)
  {
    total_bytes := 0;
    for k := 0 to |files|
      invariant total_bytes == Bytes(files[..k])
    {
      assert files[..k + 1] == files[..k] + [files[k]];
      OneMoreFile(files[..k], files[k]);
      total_bytes := total_bytes + |files[k]|;
    }
    assert files[..|files|] == files;
  }

  lemma NoBytes()
    ensures Bytes([]) == 0 && Joined([]) == []
  {
  }

  lemma OneMoreFile(p: seq<string>, f: string)
    ensures Bytes(p + [f]) == Bytes(p) + |f| && (p + [f])[..|p + [f]| - 1] == p
  {
    assert (p + [f])[..|p|] == p;
  }

  lemma OneMorePartition(ps: seq<seq<string>>, p: seq<string>)
    ensures Joined(ps + [p]) == Joined(ps) + p
  {
    assert (ps + [p])[..|ps|] == ps;
  }

  /** At most nsplits full partitions, unless all files are empty: then every file is one. */
  lemma FullCount(files: seq<string>, partitions: seq<seq<string>>, left: seq<string>, nsplits: nat)
    requires nsplits > 0 && Joined(partitions) + left == files
    requires forall k :: 0 <= k < |partitions| ==> IsFull(partitions[k], Bytes(files), nsplits)
    requires left != [] ==> !Reached(Bytes(left), Bytes(files), nsplits)
    ensures |partitions| <= nsplits <==> Bytes(files) > 0 || |files| <= nsplits
  {
    hide Bytes, Joined;
    var total := Bytes(files);
    FullBytes(partitions, total, nsplits);
    BytesConcat(Joined(partitions), left);
    if total > 0 {
      SharesFit(Bytes(Joined(partitions)), total, nsplits, |partitions|);
    } else {
      AnyReachesNothing(Bytes(left), nsplits);
      SingleFiles(partitions, nsplits);
      assert Joined(partitions) + [] == Joined(partitions);
    }
  }

  lemma SharesFit(bytes: nat, total: nat, n: nat, count: nat)
    requires 0 < total && bytes <= total && bytes * n >= total * count
    ensures count <= n
  {
    Cancels(total, count, n);
    Grows(bytes, total, n);
  }

  lemma Cancels(t: nat, a: nat, b: nat)
    requires t > 0
    ensures t * a <= t * b ==> a <= b
  {
    if a > b { assert t * a == t * b + t * (a - b); }
  }

  lemma Grows(a: nat, b: nat, n: nat)
    requires a <= b
    ensures a * n <= b * n
  {
  }

  lemma AnyReachesNothing(bytes: nat, n: nat)
    ensures Reached(bytes, 0, n)
  {
  }

  /** With a share of nothing every partition is a single file. */
  lemma {:induction false} SingleFiles(partitions: seq<seq<string>>, n: nat)
    requires forall k :: 0 <= k < |partitions| ==> IsFull(partitions[k], 0, n)
    ensures |Joined(partitions)| == |partitions|
  {
    hide Bytes, Reached;
    if partitions != [] {
      var m := |partitions| - 1;
      SingleFiles(partitions[..m], n);
      assert IsFull(partitions[m], 0, n);
      if |partitions[m]| > 1 { AnyReachesNothing(Bytes(partitions[m][..|partitions[m]| - 1]), n); }
    }
  }
}
