/** PEG rule bodies: their tokens, their trees, and the machine that reads them.  The machine's steps are those of the
    compiler without the graph, so that the trees of a body are what the compiler builds from its tokens.  Only `)`
    right after `/` is rejected here: the compiler takes it to close the choice, which it adds a second time. */
module PegSyntax {
  import opened Options

  datatype PegToken =
    | Literal(text: string)
    | Reference(name: string)
    | FunctionCall(name: string)
    | Operator(op: char)
    | Regex(text: string)

  /** The tree of a rule body.  `x*` is `Opt(Plus(x))`, `x?` is `Opt(x)`, `x+` is `Plus(x)`.  `Shared` stands in
      meanings only: the choice `alts` passed to function `fname`, with all that the function's body adds to it. */
  datatype Expr =
    | Lit(text: string)
    | Ref(name: string)
    | Call(name: string, args: seq<Expr>)
    | Group(items: seq<Expr>)
    | Choice(alts: seq<Expr>)
    | Opt(inner: Expr)
    | Plus(inner: Expr)
    | Shared(fname: string, alts: seq<Expr>)

  // ----- the machine on trees, whose steps follow `MatcherFactory::CreateMatcher` and `MatcherList` -----

  /** One open bracket.  `pending` says that the last item is a choice still waiting for its next alternative. */
  datatype Frame = Frame(fname: string, items: seq<Expr>, pending: bool)

  function Last<T>(s: seq<T>): T
    requires s != []
  {
    s[|s| - 1]
  }

  function Init<T>(s: seq<T>): seq<T>
    requires s != []
  {
    s[..|s| - 1]
  }

  predicate SomeAlternative(e: Expr) {
    e.Choice? ==> e.alts != []
  }

  /** A pending frame ends in a choice. */
  predicate FrameShape(f: Frame) {
    && (f.pending ==> f.items != [] && Last(f.items).Choice?)
    && (f.items != [] ==> SomeAlternative(Last(f.items)))
  }

  function AddToFrame(f: Frame, e: Expr): (r: Frame)
    requires FrameShape(f) && SomeAlternative(e)
    ensures FrameShape(r) && !r.pending && r.fname == f.fname
  {
    if f.pending then
      Frame(f.fname, Init(f.items) + [Choice(Last(f.items).alts + [e])], false)
    else
      Frame(f.fname, f.items + [e], false)
  }

  predicate FramesShape(fs: seq<Frame>) {
    fs != [] && forall k :: 0 <= k < |fs| ==> FrameShape(fs[k])
  }

  function Add(fs: seq<Frame>, e: Expr): (r: seq<Frame>)
    requires FramesShape(fs) && SomeAlternative(e)
    ensures FramesShape(r) && |r| == |fs| && !Last(r).pending
  {
    Init(fs) + [AddToFrame(Last(fs), e)]
  }

  function Suffixed(op: char, e: Expr): Expr {
    if op == '+' then Plus(e) else if op == '*' then Opt(Plus(e)) else Opt(e)
  }

  function Closed(f: Frame): Expr {
    if f.fname == "" then Group(f.items) else Call(f.fname, f.items)
  }

  /** Opening a choice: a choice in last position is extended, anything else becomes a first alternative. */
  function Opened(e: Expr): Expr {
    if e.Choice? then e else Choice([e])
  }

  function Step(fs: seq<Frame>, t: PegToken): (r: Option<seq<Frame>>)
    requires FramesShape(fs)
    ensures r.Some? ==> FramesShape(r.value)
  {
    var top := Last(fs);
    match t
    case Literal(s) => Some(Add(fs, Lit(s)))
    case Reference(n) => Some(Add(fs, Ref(n)))
    case FunctionCall(n) => Some(fs + [Frame(n, [], false)])
    case Regex(_) => None
    case Operator(op) =>
      if op == '?' || op == '*' || op == '+' then
        if top.pending || top.items == [] then None
        else Some(Init(fs) + [Frame(top.fname, Init(top.items) + [Suffixed(op, Last(top.items))], false)])
      else if op == '/' then
        if top.pending || top.items == [] then None
        else Some(Init(fs) + [Frame(top.fname, Init(top.items) + [Opened(Last(top.items))], true)])
      else if op == '(' then Some(fs + [Frame("", [], false)])
      else if op == ')' then
        if |fs| == 1 || top.pending then None else Some(Add(Init(fs), Closed(top)))
      else if op == '!' then Some(fs)
      else None
  }

  function Run(fs: seq<Frame>, ts: seq<PegToken>): (r: Option<seq<Frame>>)
    requires FramesShape(fs)
    ensures r.Some? ==> FramesShape(r.value)
    decreases |ts|
  {
    if ts == [] then Some(fs)
    else
      var next := Step(fs, ts[0]);
      if next.None? then None else Run(next.value, ts[1..])
  }

  /** The items of a rule body, or None for a body the machine rejects. */
  function Parse(ts: seq<PegToken>): (r: Option<seq<Expr>>) {
    var fs := Run([Frame("", [], false)], ts);
    if fs.Some? && |fs.value| == 1 && !fs.value[0].pending then Some(fs.value[0].items) else None
  }

  lemma {:induction false} RunAppend(fs: seq<Frame>, ts: seq<PegToken>, us: seq<PegToken>)
    requires FramesShape(fs)
    ensures Run(fs, ts + us) == if Run(fs, ts).None? then None else Run(Run(fs, ts).value, us)
    decreases |ts|
  {
    if ts == [] {
      assert ts + us == us;
    } else {
      assert (ts + us)[0] == ts[0] && (ts + us)[1..] == ts[1..] + us;
      if Step(fs, ts[0]).Some? {
        RunAppend(Step(fs, ts[0]).value, ts[1..], us);
      }
    }
  }

  // ----- printing trees -----

  predicate Primary(e: Expr) {
    e.Lit? || e.Ref? || e.Call? || e.Group?
  }

  /** Exactly the trees the notation can express: a choice has at least two alternatives, its first one is not a
      choice, and the later ones carry no suffix (a suffix would apply to the whole choice). */
  predicate Printable(e: Expr)
    decreases e
  {
    match e
    case Lit(_) => true
    case Ref(_) => true
    case Call(f, args) => f != "" && (forall a :: a in args ==> Printable(a))
    case Group(items) => forall a :: a in items ==> Printable(a)
    case Choice(alts) =>
      && |alts| >= 2
      && !alts[0].Choice?
      && (forall k :: 1 <= k < |alts| ==> Primary(alts[k]))
      && (forall a :: a in alts ==> Printable(a))
    case Opt(x) => Printable(x)
    case Plus(x) => Printable(x)
    case Shared(_, _) => false
  }

  function Print(e: Expr): seq<PegToken>
    decreases e
  {
    match e
    case Lit(s) => [Literal(s)]
    case Ref(n) => [Reference(n)]
    case Call(f, args) => [FunctionCall(f)] + PrintSeq(args) + [Operator(')')]
    case Group(items) => [Operator('(')] + PrintSeq(items) + [Operator(')')]
    case Choice(alts) => PrintAlts(alts)
    case Opt(x) => if x.Plus? then Print(x.inner) + [Operator('*')] else Print(x) + [Operator('?')]
    case Plus(x) => Print(x) + [Operator('+')]
    case Shared(_, _) => []
  }

  function PrintSeq(es: seq<Expr>): seq<PegToken>
    decreases es
  {
    if es == [] then [] else PrintSeq(Init(es)) + Print(Last(es))
  }

  function PrintAlts(es: seq<Expr>): seq<PegToken>
    decreases es
  {
    if es == [] then []
    else if |es| == 1 then Print(es[0])
    else PrintAlts(Init(es)) + [Operator('/')] + Print(Last(es))
  }

  // ----- reading a printed tree back -----

  function Appended(fs: seq<Frame>, es: seq<Expr>): (r: seq<Frame>)
    requires FramesShape(fs) && !Last(fs).pending
    requires es != [] ==> SomeAlternative(Last(es))
    ensures FramesShape(r) && |r| == |fs| && !Last(r).pending
  {
    Init(fs) + [Frame(Last(fs).fname, Last(fs).items + es, false)]
  }

  /** Printing then running adds exactly the printed item; a primary may also complete a pending choice. */
  lemma {:induction false} RunPrint(fs: seq<Frame>, e: Expr)
    requires FramesShape(fs) && Printable(e)
    requires Last(fs).pending ==> Primary(e)
    ensures Run(fs, Print(e)) == Some(Add(fs, e))
    decreases e, 1
  {
    match e
    case Lit(s) => RunOne(fs, Literal(s));
    case Ref(n) => RunOne(fs, Reference(n));
    case Call(f, args) => RunBracket(fs, FunctionCall(f), f, args);
    case Group(items) => RunBracket(fs, Operator('('), "", items);
    case Choice(alts) => RunPrintAlts(fs, alts);
    case Opt(x) =>
      if x.Plus? {
        RunPrint(fs, x.inner);
        RunSuffix(fs, x.inner, '*');
      } else {
        RunPrint(fs, x);
        RunSuffix(fs, x, '?');
      }
    case Plus(x) =>
      RunPrint(fs, x);
      RunSuffix(fs, x, '+');
  }

  lemma RunOne(fs: seq<Frame>, t: PegToken)
    requires FramesShape(fs)
    ensures Run(fs, [t]) == Step(fs, t)
  {
    if Step(fs, t).Some? {
      assert [t][1..] == [];
      assert Run(Step(fs, t).value, []) == Some(Step(fs, t).value);
    }
  }

  lemma RunSuffix(fs: seq<Frame>, e: Expr, op: char)
    requires FramesShape(fs) && !Last(fs).pending
    requires (op == '?' || op == '*' || op == '+') && SomeAlternative(e)
    requires Run(fs, Print(e)) == Some(Add(fs, e))
    ensures Run(fs, Print(e) + [Operator(op)]) == Some(Add(fs, Suffixed(op, e)))
  {
    RunAppend(fs, Print(e), [Operator(op)]);
    var mid := Add(fs, e);
    RunOne(mid, Operator(op));
    assert Init(Last(mid).items) + [Suffixed(op, e)] == Last(fs).items + [Suffixed(op, e)];
    assert Init(mid) == Init(fs);
  }

  lemma {:induction false} RunBracket(fs: seq<Frame>, open: PegToken, f: string, items: seq<Expr>)
    requires FramesShape(fs)
    requires forall a :: a in items ==> Printable(a)
    requires if f == "" then open == Operator('(') else open == FunctionCall(f)
    ensures Run(fs, [open] + PrintSeq(items) + [Operator(')')])
         == Some(Add(fs, if f == "" then Group(items) else Call(f, items)))
    decreases items, 2
  {
    var inner := fs + [Frame(f, [], false)];
    RunOne(fs, open);
    RunPrintSeq(inner, items);
    var full := Appended(inner, items);
    assert Last(full).items == items;
    RunOne(full, Operator(')'));
    assert Init(full) == fs;
    RunAppend(fs, [open], PrintSeq(items) + [Operator(')')]);
    RunAppend(inner, PrintSeq(items), [Operator(')')]);
    assert [open] + PrintSeq(items) + [Operator(')')] == [open] + (PrintSeq(items) + [Operator(')')]);
  }

  lemma {:induction false} RunPrintSeq(fs: seq<Frame>, es: seq<Expr>)
    requires FramesShape(fs) && !Last(fs).pending
    requires forall a :: a in es ==> Printable(a)
    ensures es != [] ==> SomeAlternative(Last(es))
    ensures Run(fs, PrintSeq(es)) == Some(Appended(fs, es))
    decreases es, 1
  {
    assert es != [] ==> Last(es) in es;
    if es == [] {
      assert Last(fs).items + [] == Last(fs).items;
      assert Init(fs) + [Last(fs)] == fs;
    } else {
      RunPrintSeq(fs, Init(es));
      var mid := Appended(fs, Init(es));
      assert Last(es) in es;
      RunPrint(mid, Last(es));
      RunAppend(fs, PrintSeq(Init(es)), Print(Last(es)));
      assert Last(fs).items + Init(es) + [Last(es)] == Last(fs).items + es;
      assert Init(mid) == Init(fs);
    }
  }

  function OneOrChoice(es: seq<Expr>): Expr
    requires es != []
  {
    if |es| == 1 then es[0] else Choice(es)
  }

  /** The frames after the alternatives `front` and a `/`. */
  function Waiting(fs: seq<Frame>, front: seq<Expr>): (r: seq<Frame>)
    requires FramesShape(fs) && front != []
    ensures FramesShape(r)
  {
    Init(fs) + [Frame(Last(fs).fname, Last(fs).items + [Choice(front)], true)]
  }

  lemma WaitingStep(fs: seq<Frame>, front: seq<Expr>)
    requires FramesShape(fs) && !Last(fs).pending && front != [] && !front[0].Choice?
    ensures Step(Add(fs, OneOrChoice(front)), Operator('/')) == Some(Waiting(fs, front))
  {
    hide Run, Print;
    var mid := Add(fs, OneOrChoice(front));
    if |front| == 1 { assert front == [front[0]]; }
    assert Init(mid) == Init(fs);
    assert Init(Last(mid).items) == Last(fs).items;
  }

  lemma WaitingAdd(fs: seq<Frame>, front: seq<Expr>, e: Expr)
    requires FramesShape(fs) && !Last(fs).pending && front != [] && SomeAlternative(e)
    ensures Add(Waiting(fs, front), e) == Add(fs, Choice(front + [e]))
  {
    hide Run, Print, Step;
    var open := Waiting(fs, front);
    assert Init(open) == Init(fs);
    assert Init(Last(open).items) == Last(fs).items;
  }

  /** One more alternative: `/` re-opens the choice printed so far and the next primary completes it. */
  lemma RunNextAlt(fs: seq<Frame>, front: seq<Expr>, e: Expr)
    requires FramesShape(fs) && !Last(fs).pending
    requires front != [] && !front[0].Choice? && SomeAlternative(e)
    requires Run(Waiting(fs, front), Print(e)) == Some(Add(Waiting(fs, front), e))
    ensures Run(Add(fs, OneOrChoice(front)), [Operator('/')] + Print(e)) == Some(Add(fs, Choice(front + [e])))
  {
    hide Run, Print, Step, Add;
    var mid := Add(fs, OneOrChoice(front));
    WaitingStep(fs, front);
    WaitingAdd(fs, front, e);
    RunOne(mid, Operator('/'));
    RunAppend(mid, [Operator('/')], Print(e));
  }

  lemma PrintAltsSnoc(es: seq<Expr>)
    requires |es| >= 2
    ensures PrintAlts(es) == PrintAlts(Init(es)) + ([Operator('/')] + Print(Last(es)))
  {
  }

  lemma {:induction false} RunPrintAlts(fs: seq<Frame>, es: seq<Expr>)
    requires FramesShape(fs) && !Last(fs).pending
    requires es != [] && !es[0].Choice?
    requires forall k :: 1 <= k < |es| ==> Primary(es[k])
    requires forall a :: a in es ==> Printable(a)
    ensures Run(fs, PrintAlts(es)) == Some(Add(fs, OneOrChoice(es)))
    decreases es, 1
  {
    if |es| == 1 {
      RunPrint(fs, es[0]);
    } else {
      hide Run, Print, Step, Add;
      var front, e := Init(es), es[|es| - 1];
      forall a | a in front ensures Printable(a) { assert a in es; }
      RunPrintAlts(fs, front);
      RunPrint(Waiting(fs, front), e);
      RunNextAlt(fs, front, e);
      RunAppend(fs, PrintAlts(front), [Operator('/')] + Print(e));
      assert front + [e] == es;
      PrintAltsSnoc(es);
    }
  }

  /** Reading undoes printing: the tokens of a printable body give back that body. */
  lemma {:induction false} ParsePrint(items: seq<Expr>)
    requires forall a :: a in items ==> Printable(a)
    ensures Parse(PrintSeq(items)) == Some(items)
  {
    var start := [Frame("", [], false)];
    RunPrintSeq(start, items);
    assert Last(start).items + items == items;
    assert Appended(start, items) == [Frame("", items, false)];
  }

  // ----- what is read can be printed -----

  predicate AltsPrintable(alts: seq<Expr>) {
    && alts != [] && !alts[0].Choice?
    && (forall k :: 1 <= k < |alts| ==> Primary(alts[k]))
    && (forall a :: a in alts ==> Printable(a))
  }

  /** The finished items can be printed; a choice under way is one from which a printable choice grows. */
  predicate FramePrintable(f: Frame) {
    && FrameShape(f)
    && (forall a :: a in (if f.pending then Init(f.items) else f.items) ==> Printable(a))
    && (f.pending ==> AltsPrintable(Last(f.items).alts))
  }

  predicate FramesPrintable(fs: seq<Frame>) {
    fs != [] && forall k :: 0 <= k < |fs| ==> FramePrintable(fs[k])
  }

  lemma AddPrintable(f: Frame, e: Expr)
    requires FramePrintable(f) && Printable(e) && Primary(e)
    ensures FramePrintable(AddToFrame(f, e))
  {
    if f.pending {
      var alts := Last(f.items).alts;
      assert forall a :: a in alts + [e] ==> Printable(a);
      assert AltsPrintable(alts + [e]) && Printable(Choice(alts + [e]));
    }
  }

  lemma LastPrintable(op: char, e: Expr)
    requires Printable(e)
    ensures Printable(Suffixed(op, e)) && AltsPrintable(Opened(e).alts)
  {
    if op == '*' { assert Printable(Plus(e)); }
    if !e.Choice? { assert forall a :: a in [e] ==> a == e; }
  }

  lemma StepPrintable(fs: seq<Frame>, t: PegToken)
    requires FramesPrintable(fs) && Step(fs, t).Some?
    ensures FramesPrintable(Step(fs, t).value)
  {
    var top := Last(fs);
    match t
    case Literal(s) => AddPrintable(top, Lit(s));
    case Reference(n) => AddPrintable(top, Ref(n));
    case FunctionCall(_) =>
    case Regex(_) =>
    case Operator(op) =>
      if op == '?' || op == '*' || op == '+' || op == '/' {
        var e := Last(top.items);
        assert e in top.items && forall a :: a in Init(top.items) ==> a in top.items;
        LastPrintable(op, e);
      } else if op == ')' {
        assert Printable(Closed(top));
        AddPrintable(Last(Init(fs)), Closed(top));
      }
  }

  lemma {:induction false} RunPrintable(fs: seq<Frame>, ts: seq<PegToken>)
    requires FramesPrintable(fs) && FramesShape(fs) && Run(fs, ts).Some?
    ensures FramesPrintable(Run(fs, ts).value)
    decreases |ts|
  {
    if ts != [] {
      StepPrintable(fs, ts[0]);
      RunPrintable(Step(fs, ts[0]).value, ts[1..]);
    }
  }

  /** The trees that can be printed are the only ones that the machine reads. */
  lemma ParsedPrintable(ts: seq<PegToken>)
    requires Parse(ts).Some?
    ensures forall a :: a in Parse(ts).value ==> Printable(a)
    ensures Parse(PrintSeq(Parse(ts).value)) == Parse(ts)
  {
    RunPrintable([Frame("", [], false)], ts);
    ParsePrint(Parse(ts).value);
  }
}
