/** What sharing a choice does to its meaning, and when it does nothing. */
module PegSharing {
  import opened Options
  import opened PegSyntax
  import opened PegGraph
  import opened PegMatcher
  import opened Tokens
  import opened PegMeaning

  // ----- functions that add to the choice they are passed -----

  predicate IsParam(params: seq<string>, e: Expr) {
    e.Ref? && e.name in params
  }

  /** A `/` stands directly after the parameter, or the parameter is passed on to a function where one does. */
  ghost predicate Adds(g: Grammar, params: seq<string>, lvl: nat, e: Expr)
    requires g.Ok() && Resolved(g, params, lvl, e)
    decreases lvl, e, 0
  {
    match e
    case Call(f, args) => AddsAny(g, params, lvl, args)
        || (|args| == 1 && IsParam(params, args[0]) && FunctionAdds(g, f))
    case Group(items) => AddsAny(g, params, lvl, items)
    case Choice(alts) => (alts != [] && IsParam(params, alts[0])) || AddsAny(g, params, lvl, alts)
    case Opt(x) => Adds(g, params, lvl, x)
    case Plus(x) => Adds(g, params, lvl, x)
    case _ => false
  }

  ghost predicate AddsAny(g: Grammar, params: seq<string>, lvl: nat, es: seq<Expr>)
    requires g.Ok() && forall a :: a in es ==> Resolved(g, params, lvl, a)
    decreases lvl, es, 0
  {
    es != [] &&
    (assert forall a :: a in Init(es) ==> a in es;
     AddsAny(g, params, lvl, Init(es)) || Adds(g, params, lvl, Last(es)))
  }

  ghost predicate FunctionAdds(g: Grammar, f: string)
    requires g.Ok() && g.FunctionRule(f)
    decreases g.Rank(f)
  {
    BodyResolved(g, f);
    AddsAny(g, g.RuleOf(f).params, g.Rank(f), g.Body(f))
  }

  ghost predicate AllPrintable(es: seq<Expr>) {
    forall a :: a in es ==> Printable(a)
  }

  /** A tree adds nothing to the shared choice if and only if it has no such `/`. */
  lemma {:induction false} ExtExactly(g: Grammar, v: Env, e: Expr)
    requires g.Ok() && v.Ok() && v.Shares() && v.style.Sharing? && Resolved(g, v.params, v.lvl, e) && Printable(e)
    ensures Ext(g, v, e) == [] <==> !Adds(g, v.params, v.lvl, e)
    decreases v.lvl, e, 1
  {
    match e
    case Call(f, args) =>
      ExtAllExactly(g, v, args);
      var arg := Wrapped(ExpandAll(g, v, args));
      BodyResolved(g, f);
      ParamElement(g, v, args);
      if arg.Shared? {
        SharedElement(g, v, args);
        BodyExactly(g, CallEnv(g, f, arg, v.style), f);
      }
    case Group(items) => ExtAllExactly(g, v, items);
    case Choice(alts) => ExtAllExactly(g, v, alts);
    case Opt(x) => ExtExactly(g, v, x);
    case Plus(x) => ExtExactly(g, v, x);
    case _ =>
  }

  lemma ParamElement(g: Grammar, v: Env, args: seq<Expr>)
    requires g.Ok() && v.Ok() && forall a :: a in args ==> Resolved(g, v.params, v.lvl, a)
    ensures |args| == 1 && IsParam(v.params, args[0]) ==> Wrapped(ExpandAll(g, v, args)) == v.arg.value
  {
  }

  /** Only the bare parameter is passed on, or a choice that starts with it. */
  lemma SharedElement(g: Grammar, v: Env, args: seq<Expr>)
    requires g.Ok() && v.Ok() && v.Shares() && (forall a ::
               a in args ==> Resolved(g, v.params, v.lvl, a) && Printable(a))
    requires Wrapped(ExpandAll(g, v, args)).Shared?
    ensures |args| == 1 && Wrapped(ExpandAll(g, v, args)) == v.arg.value
    ensures IsParam(v.params, args[0]) || AddsAny(g, v.params, v.lvl, args)
  {
    assert args[0] in args && Expand(g, v, args[0]).Shared?;
    if args[0].Choice? { assert Last(args) == args[0]; }
  }

  lemma {:induction false} ExtAllExactly(g: Grammar, v: Env, es: seq<Expr>)
    requires g.Ok() && v.Ok() && v.Shares() && v.style.Sharing?
    requires AllPrintable(es) && forall a :: a in es ==> Resolved(g, v.params, v.lvl, a)
    ensures ExtAll(g, v, es) == [] <==> !AddsAny(g, v.params, v.lvl, es)
    ensures ExtLater(g, v, es) == [] <==> |es| <= 1
    decreases v.lvl, es, 0
  {
    hide Adds, Ext, Expand, Resolved, Printable, Grammar.Ok;
    if es != [] {
      assert forall a :: a in Init(es) ==> a in es;
      assert Last(es) in es;
      ExtAllExactly(g, v, Init(es));
      ExtExactly(g, v, Last(es));
    }
  }

  lemma {:induction false} BodyExactly(g: Grammar, v: Env, f: string)
    requires g.Ok() && v.Ok() && v.Shares() && v.style.Sharing? && g.FunctionRule(f)
             && v == CallEnv(g, f, v.arg.value, Sharing)
    ensures (BodyResolved(g, f); ExtAll(g, v, g.Body(f)) == [] <==> !FunctionAdds(g, f))
    decreases v.lvl, g.Body(f), 2
  {
    BodyResolved(g, f);
    ParsedPrintable(g.RuleOf(f).tokens);
    ExtAllExactly(g, v, g.Body(f));
  }

  /** A call leaves the choice it is passed as it is if and only if no `/` of its function extends it. */
  lemma LeftAlone(g: Grammar, s: Expr)
    requires g.Ok() && WellShared(g, s)
    ensures SharedAlts(g, s) == s.alts <==> !FunctionAdds(g, s.fname)
  {
    BodyResolved(g, s.fname);
    BodyExactly(g, CallEnv(g, s.fname, s, Sharing), s.fname);
    assert s.alts + [] == s.alts;
  }

  // ----- grammars in which sharing does no harm -----

  /** How often the parameter is used. */
  function Uses(params: seq<string>, e: Expr): nat
    decreases e, 0
  {
    match e
    case Lit(_) => 0
    case Ref(n) => if n in params then 1 else 0
    case Call(_, args) => UsesIn(params, args)
    case Group(items) => UsesIn(params, items)
    case Choice(alts) => UsesIn(params, alts)
    case Opt(x) => Uses(params, x)
    case Plus(x) => Uses(params, x)
    case Shared(_, _) => 0
  }

  function UsesIn(params: seq<string>, es: seq<Expr>): nat
    decreases es, 1
  {
    if es == [] then 0 else UsesIn(params, Init(es)) + Uses(params, Last(es))
  }

  /** The alternatives after the parameter's own `/`, when it is used once and stands first in a choice. */
  function Later(params: seq<string>, e: Expr): Option<seq<Expr>>
    decreases e, 0
  {
    match e
    case Group(items) => LaterIn(params, items)
    case Choice(alts) => if alts != [] && IsParam(params, alts[0]) then Some(alts[1..]) else LaterIn(params, alts)
    case Opt(x) => Later(params, x)
    case Plus(x) => Later(params, x)
    case _ => None
  }

  function LaterIn(params: seq<string>, es: seq<Expr>): Option<seq<Expr>>
    decreases es, 1
  {
    if es == [] then None
    else if Later(params, Last(es)).Some? then Later(params, Last(es))
    else LaterIn(params, Init(es))
  }

  /** The parameter is used once in the body, as the first alternative of a choice. */
  predicate UsedOnce(g: Grammar, f: string)
    requires g.Has(f) && Parse(g.RuleOf(f).tokens).Some?
  {
    UsesIn(g.RuleOf(f).params, g.Body(f)) == 1 && LaterIn(g.RuleOf(f).params, g.Body(f)).Some?
  }

  /** Every call in the tree that passes a choice goes to a function that leaves it alone, or uses it just once. */
  ghost predicate Harmless(g: Grammar, e: Expr)
    requires g.Ok()
    decreases e
  {
    match e
    case Call(f, args) =>
      && (forall a :: a in args ==> Harmless(g, a))
      && (g.FunctionRule(f) && |args| == 1 && args[0].Choice? ==> !FunctionAdds(g, f) || UsedOnce(g, f))
    case Group(items) => forall a :: a in items ==> Harmless(g, a)
    case Choice(alts) => forall a :: a in alts ==> Harmless(g, a)
    case Opt(x) => Harmless(g, x)
    case Plus(x) => Harmless(g, x)
    case _ => true
  }

  /** No live rule passes a choice to a function that extends it, unless that is the function's only use of it. */
  ghost predicate AllHarmless(g: Grammar)
    requires g.Ok()
  {
    forall r, e :: r in g.live && g.Has(r) && e in g.Body(r) ==> Harmless(g, e)
  }

  // ----- trees with a shared choice, and with copies of it -----

  ghost function AltsOf(g: Grammar, a: Expr): seq<Expr>
    requires g.Ok() && (a.Choice? || WellShared(g, a))
  {
    if a.Choice? then a.alts else SharedAlts(g, a)
  }

  /** Tree a shares choices, tree b has copies of them; a choice that extends a copied one counts as one list. */
  ghost predicate Alike(g: Grammar, a: Expr, b: Expr)
    requires g.Ok()
    decreases b, 2
  {
    match b
    case Lit(_) => a == b
    case Ref(_) => a == b
    case Group(bs) => a.Group? && AlikeAll(g, a.items, bs)
    case Choice(bs) => (a.Choice? || WellShared(g, a)) && AltsAlike(g, AltsOf(g, a), bs)
    case Opt(y) => a.Opt? && Alike(g, a.inner, y)
    case Plus(y) => a.Plus? && Alike(g, a.inner, y)
    case _ => false
  }

  ghost predicate AlikeAll(g: Grammar, xs: seq<Expr>, ys: seq<Expr>)
    requires g.Ok()
    decreases ys, 0
  {
    |xs| == |ys| && forall k :: 0 <= k < |ys| ==> Alike(g, xs[k], ys[k])
  }

  ghost predicate AltsAlike(g: Grammar, xs: seq<Expr>, ys: seq<Expr>)
    requires g.Ok()
    decreases ys, 1
  {
    || AlikeAll(g, xs, ys)
    || (ys != [] && ys[0].Choice? && exists n :: AltsSplit(g, xs, ys, n))
  }

  /** The first n alternatives are those of the copied choice that comes first. */
  ghost predicate AltsSplit(g: Grammar, xs: seq<Expr>, ys: seq<Expr>, n: nat)
    requires g.Ok() && ys != [] && ys[0].Choice?
    decreases ys, 0, 1
  {
    n <= |xs| && AltsAlike(g, xs[..n], ys[0].alts) && AlikeAll(g, xs[n..], ys[1..])
  }

  /** The same body, with a shared argument and with a copied one. */
  ghost predicate Sides(g: Grammar, vs: Env, vc: Env) {
    && vs.Ok() && vc.Ok() && vs.style.Sharing? && vc.style.Copying?
    && vs.params == vc.params && vs.lvl == vc.lvl
  }

  /** What is used of the argument is alike on both sides, and is not extended. */
  ghost predicate ArgAlike(g: Grammar, vs: Env, vc: Env)
    requires g.Ok() && Sides(g, vs, vc)
  {
    vs.arg.Some? ==> Alike(g, vs.arg.value, vc.arg.value)
  }

  lemma {:induction false} NoUseNoAdds(g: Grammar, params: seq<string>, lvl: nat, e: Expr)
    requires g.Ok() && Resolved(g, params, lvl, e) && Uses(params, e) == 0
    ensures !Adds(g, params, lvl, e)
    decreases e, 0
  {
    match e
    case Call(_, args) => NoUseIn(g, params, lvl, args);
    case Group(items) => NoUseIn(g, params, lvl, items);
    case Choice(alts) => NoUseIn(g, params, lvl, alts);
    case Opt(x) => NoUseNoAdds(g, params, lvl, x);
    case Plus(x) => NoUseNoAdds(g, params, lvl, x);
    case _ =>
  }

  lemma {:induction false} NoUseIn(g: Grammar, params: seq<string>, lvl: nat, es: seq<Expr>)
    requires g.Ok() && (forall a :: a in es ==> Resolved(g, params, lvl, a)) && UsesIn(params, es) == 0
    ensures !AddsAny(g, params, lvl, es)
    ensures es != [] ==> !IsParam(params, es[0])
    decreases es, 1
  {
    if es != [] {
      assert forall a :: a in Init(es) ==> a in es;
      assert Last(es) in es;
      NoUseIn(g, params, lvl, Init(es));
      NoUseNoAdds(g, params, lvl, Last(es));
    }
  }

  lemma {:induction false} UsesParts(params: seq<string>, es: seq<Expr>, k: nat)
    requires k < |es|
    ensures Uses(params, es[k]) <= UsesIn(params, es)
    decreases |es|
  {
    if k < |es| - 1 {
      assert Init(es)[k] == es[k];
      UsesParts(params, Init(es), k);
    }
  }

  lemma {:induction false} AddsParts(g: Grammar, params: seq<string>, lvl: nat, es: seq<Expr>, k: nat)
    requires g.Ok() && (forall a :: a in es ==> Resolved(g, params, lvl, a)) && k < |es| && es[k] in es
    ensures Adds(g, params, lvl, es[k]) ==> AddsAny(g, params, lvl, es)
    decreases |es|
  {
    hide Adds, Resolved, Grammar.Ok;
    if k < |es| - 1 {
      assert forall a :: a in Init(es) ==> a in es;
      assert Init(es)[k] == es[k];
      AddsParts(g, params, lvl, Init(es), k);
    }
  }

  /** Where the shared choice is not extended, both sides expand to like trees. */
  lemma {:induction false} ExpandAlike(g: Grammar, vs: Env, vc: Env, e: Expr)
    requires g.Ok() && AllHarmless(g) && Sides(g, vs, vc) && Resolved(g, vs.params, vs.lvl, e) && Printable(e)
             && Harmless(g, e)
    requires Uses(vs.params, e) > 0 ==> ArgAlike(g, vs, vc) && (vs.Shares() ==> !Adds(g, vs.params, vs.lvl, e))
    ensures Alike(g, Expand(g, vs, e), Expand(g, vc, e))
    decreases vs.lvl, e, 1
  {
    match e
    case Lit(_) =>
    case Ref(_) =>
    case Call(f, args) => CallAlike(g, vs, vc, f, args);
    case Group(items) => ExpandAllAlike(g, vs, vc, items);
    case Choice(alts) =>
      ExpandAllAlike(g, vs, vc, alts);
      UsesParts(vs.params, alts, 0);
    case Opt(x) => ExpandAlike(g, vs, vc, x);
    case Plus(x) => ExpandAlike(g, vs, vc, x);
  }

  lemma {:induction false} ExpandAllAlike(g: Grammar, vs: Env, vc: Env, es: seq<Expr>)
    requires g.Ok() && AllHarmless(g) && Sides(g, vs, vc)
    requires forall a :: a in es ==> Resolved(g, vs.params, vs.lvl, a) && Printable(a) && Harmless(g, a)
    requires UsesIn(vs.params, es) > 0 ==> ArgAlike(g, vs, vc) && (vs.Shares() ==> !AddsAny(g, vs.params, vs.lvl, es))
    ensures AlikeAll(g, ExpandAll(g, vs, es), ExpandAll(g, vc, es))
    decreases vs.lvl, es, 0
  {
    hide Expand, Adds, AddsAny, Resolved, Printable, Harmless, Alike, Grammar.Ok, AllHarmless, ArgAlike;
    forall k | 0 <= k < |es| ensures Alike(g, Expand(g, vs, es[k]), Expand(g, vc, es[k])) {
      assert es[k] in es;
      UsesParts(vs.params, es, k);
      AddsParts(g, vs.params, vs.lvl, es, k);
      ExpandAlike(g, vs, vc, es[k]);
    }
  }

  lemma {:induction false} CallAlike(g: Grammar, vs: Env, vc: Env, f: string, args: seq<Expr>)
    requires g.Ok() && AllHarmless(g) && Sides(g, vs, vc)
    requires var e := Call(f, args);
             && Resolved(g, vs.params, vs.lvl, e) && Printable(e) && Harmless(g, e)
             && (Uses(vs.params, e) > 0 ==> ArgAlike(g, vs, vc) && (vs.Shares() ==> !Adds(g, vs.params, vs.lvl, e)))
    ensures Alike(g, Expand(g, vs, Call(f, args)), Expand(g, vc, Call(f, args)))
    decreases vs.lvl, Call(f, args), 0
  {
    ExpandAllAlike(g, vs, vc, args);
    var ts, tc := Wrapped(ExpandAll(g, vs, args)), Wrapped(ExpandAll(g, vc, args));
    assert Alike(g, ts, tc);
    BodyResolved(g, f);
    ParsedPrintable(g.RuleOf(f).tokens);
    var ws, wc := CallEnv(g, f, Passed(Sharing, f, ts), Sharing), CallEnv(g, f, tc, Copying);
    if ts.Choice? {
      ChoiceElement(g, vs, args);
      var s := Shared(f, ts.alts);
      if !FunctionAdds(g, f) {
        LeftAlone(g, s);
        BodyAlike(g, ws, wc, f);
      } else {
        OnceAlike(g, ws, wc, f, ts.alts, tc.alts);
      }
    } else {
      if ts.Shared? { SharedPassed(g, vs, f, args); }
      BodyAlike(g, ws, wc, f);
    }
  }

  lemma ChoiceElement(g: Grammar, v: Env, args: seq<Expr>)
    requires g.Ok() && v.Ok() && v.style.Sharing? && (forall a :: a in args ==> Resolved(g, v.params, v.lvl, a))
    requires Wrapped(ExpandAll(g, v, args)).Choice?
    ensures |args| == 1 && args[0].Choice?
  {
    assert args[0] in args && Expand(g, v, args[0]).Choice?;
  }

  /** A shared choice that is passed on goes to a function that leaves it alone. */
  lemma SharedPassed(g: Grammar, v: Env, f: string, args: seq<Expr>)
    requires g.Ok() && v.Ok() && Resolved(g, v.params, v.lvl, Call(f, args)) && Printable(Call(f, args))
    requires Uses(v.params, Call(f, args)) > 0 ==> v.Shares() ==> !Adds(g, v.params, v.lvl, Call(f, args))
    requires Wrapped(ExpandAll(g, v, args)).Shared?
    ensures !FunctionAdds(g, f)
  {
    assert args[0] in args && Expand(g, v, args[0]).Shared?;
    SharedElement(g, v, args);
    if UsesIn(v.params, args) == 0 {
      NoUseIn(g, v.params, v.lvl, args);
    }
  }

  lemma {:induction false} BodyAlike(g: Grammar, ws: Env, wc: Env, f: string)
    requires g.Ok() && AllHarmless(g) && Sides(g, ws, wc) && g.FunctionRule(f)
    requires ws.arg.Some? && wc.arg.Some? && ws == CallEnv(g, f, ws.arg.value, Sharing)
             && wc == CallEnv(g, f, wc.arg.value, Copying)
    requires ArgAlike(g, ws, wc) && (ws.Shares() ==> !FunctionAdds(g, f))
    ensures (BodyResolved(g, f); AlikeAll(g, ExpandAll(g, ws, g.Body(f)), ExpandAll(g, wc, g.Body(f))))
    decreases ws.lvl, g.Body(f), 1
  {
    BodyResolved(g, f);
    ParsedPrintable(g.RuleOf(f).tokens);
    ExpandAllAlike(g, ws, wc, g.Body(f));
  }

  // ----- the parameter is used once, and extended there -----

  /** The two sides of a body that extends the choice `xs`, copied as `ys`. */
  ghost predicate OnceSides(g: Grammar, ws: Env, wc: Env, xs: seq<Expr>, ys: seq<Expr>)
    requires g.Ok()
  {
    && Sides(g, ws, wc) && ws.Shares() && WellShared(g, ws.arg.value) && wc.arg == Some(Choice(ys))
       && AltsAlike(g, xs, ys)
  }

  ghost predicate Usable(g: Grammar, params: seq<string>, lvl: nat, es: seq<Expr>)
    requires g.Ok()
  {
    forall a :: a in es ==> Resolved(g, params, lvl, a) && Printable(a) && Harmless(g, a)
  }

  /** Alternatives that do not use the parameter are added as they are. */
  lemma {:induction false} PlainLater(g: Grammar, v: Env, alts: seq<Expr>)
    requires g.Ok() && v.Ok() && v.Shares() && v.style.Sharing? && Usable(g, v.params, v.lvl, alts) && alts != []
    requires UsesIn(v.params, alts) == Uses(v.params, alts[0])
    ensures (forall a :: a in alts[1..] ==> a in alts) && ExtLater(g, v, alts) == ExpandAll(g, v, alts[1..])
    ensures UsesIn(v.params, alts[1..]) == 0
    decreases |alts|
  {
    hide Ext, Expand, Adds, Resolved, Printable, Harmless, Grammar.Ok, Uses;
    if |alts| > 1 {
      var front, last := Init(alts), Last(alts);
      assert (forall a :: a in front ==> a in alts) && last in alts && front[0] == alts[0];
      UsesParts(v.params, front, 0);
      PlainLater(g, v, front);
      NoUseNoAdds(g, v.params, v.lvl, last);
      ExtExactly(g, v, last);
      assert Init(alts[1..]) == front[1..] && Last(alts[1..]) == last;
    }
  }

  lemma {:induction false} UsedOrNot(params: seq<string>, e: Expr)
    requires Later(params, e).Some?
    ensures Uses(params, e) >= 1
    decreases e, 0
  {
    match e
    case Group(items) => UsedOrNotIn(params, items);
    case Choice(alts) =>
      if alts != [] && IsParam(params, alts[0]) {
        UsesParts(params, alts, 0);
      } else {
        UsedOrNotIn(params, alts);
      }
    case Opt(x) => UsedOrNot(params, x);
    case Plus(x) => UsedOrNot(params, x);
    case _ =>
  }

  lemma {:induction false} UsedOrNotIn(params: seq<string>, es: seq<Expr>)
    requires LaterIn(params, es).Some?
    ensures UsesIn(params, es) >= 1
    decreases es, 1
  {
    if es != [] {
      if Later(params, Last(es)).Some? {
        UsedOrNot(params, Last(es));
      } else {
        UsedOrNotIn(params, Init(es));
      }
    }
  }

  /** The one use of the parameter: what is added are the later alternatives; with these, both sides are alike. */
  lemma {:induction false} OnceExpr(g: Grammar, ws: Env, wc: Env, xs: seq<Expr>, ys: seq<Expr>, e: Expr)
    requires g.Ok() && AllHarmless(g) && OnceSides(g, ws, wc, xs, ys)
    requires Resolved(g, ws.params, ws.lvl, e) && Printable(e) && Harmless(g, e)
    requires Uses(ws.params, e) == 1 && Later(ws.params, e).Some?
    ensures var later := Later(ws.params, e).value;
            && Usable(g, ws.params, ws.lvl, later) && Ext(g, ws, e) == ExpandAll(g, ws, later)
            && (SharedAlts(g, ws.arg.value) == xs + ExpandAll(g, ws, later) ==>
                  Alike(g, Expand(g, ws, e), Expand(g, wc, e)))
    decreases ws.lvl, e, 1
  {
    match e
    case Group(items) => OnceAll(g, ws, wc, xs, ys, items);
    case Choice(alts) =>
      if IsParam(ws.params, alts[0]) {
        OnceChoice(g, ws, wc, xs, ys, alts);
      } else {
        OnceAll(g, ws, wc, xs, ys, alts);
      }
    case Opt(x) => OnceExpr(g, ws, wc, xs, ys, x);
    case Plus(x) => OnceExpr(g, ws, wc, xs, ys, x);
    case _ =>
  }

  lemma {:induction false} OnceChoice(g: Grammar, ws: Env, wc: Env, xs: seq<Expr>, ys: seq<Expr>, alts: seq<Expr>)
    requires g.Ok() && AllHarmless(g) && OnceSides(g, ws, wc, xs, ys) && Usable(g, ws.params, ws.lvl, alts)
    requires alts != [] && IsParam(ws.params, alts[0]) && UsesIn(ws.params, alts) == 1
    ensures var e := Choice(alts);
            && Resolved(g, ws.params, ws.lvl, e) && Usable(g, ws.params, ws.lvl, alts[1..])
            && Ext(g, ws, e) == ExpandAll(g, ws, alts[1..])
            && (SharedAlts(g, ws.arg.value) == xs + ExpandAll(g, ws, alts[1..]) ==>
                  Alike(g, Expand(g, ws, e), Expand(g, wc, e)))
    decreases ws.lvl, Choice(alts), 0
  {
    hide Adds, Printable, Harmless, Grammar.Ok, Uses;
    assert Uses(ws.params, alts[0]) == 1 by { OneUse(ws.params, alts[0]); }
    PlainLater(g, ws, alts);
    var later, s := alts[1..], ws.arg.value;
    ExpandAllAlike(g, ws, wc, later);
    if SharedAlts(g, s) == xs + ExpandAll(g, ws, later) {
      var bs := ExpandAll(g, wc, alts);
      assert bs[0] == Choice(ys) && bs[1..] == ExpandAll(g, wc, later);
      var all := SharedAlts(g, s);
      assert all[..|xs|] == xs && all[|xs|..] == ExpandAll(g, ws, later);
      assert AltsSplit(g, all, bs, |xs|);
      assert Expand(g, ws, Choice(alts)) == s && Expand(g, wc, Choice(alts)) == Choice(bs);
    }
  }

  lemma OneUse(params: seq<string>, e: Expr)
    requires IsParam(params, e)
    ensures Uses(params, e) == 1
  {
  }

  lemma {:induction false} OnceAll(g: Grammar, ws: Env, wc: Env, xs: seq<Expr>, ys: seq<Expr>, es: seq<Expr>)
    requires g.Ok() && AllHarmless(g) && OnceSides(g, ws, wc, xs, ys) && Usable(g, ws.params, ws.lvl, es)
    requires UsesIn(ws.params, es) == 1 && LaterIn(ws.params, es).Some?
    ensures var later := LaterIn(ws.params, es).value;
            && Usable(g, ws.params, ws.lvl, later) && ExtAll(g, ws, es) == ExpandAll(g, ws, later)
            && (SharedAlts(g, ws.arg.value) == xs + ExpandAll(g, ws, later) ==>
                  AlikeAll(g, ExpandAll(g, ws, es), ExpandAll(g, wc, es)))
    decreases ws.lvl, es, 0
  {
    hide Adds, Printable, Harmless, Grammar.Ok, Uses, Expand, Ext, Alike, Resolved, SharedAlts, AllHarmless;
    var front, last := Init(es), Last(es);
    assert (forall a :: a in front ==> a in es) && last in es;
    if Later(ws.params, last).Some? {
      UsedOrNot(ws.params, last);
      OnceExpr(g, ws, wc, xs, ys, last);
      NoUseIn(g, ws.params, ws.lvl, front);
      ExtAllExactly(g, ws, front);
      ExpandAllAlike(g, ws, wc, front);
    } else {
      UsedOrNotIn(ws.params, front);
      OnceAll(g, ws, wc, xs, ys, front);
      NoUseNoAdds(g, ws.params, ws.lvl, last);
      ExtExactly(g, ws, last);
      ExpandAlike(g, ws, wc, last);
    }
  }

  lemma {:induction false} OnceAlike(g: Grammar, ws: Env, wc: Env, f: string, xs: seq<Expr>, ys: seq<Expr>)
    requires g.Ok() && AllHarmless(g) && Sides(g, ws, wc) && g.FunctionRule(f) && UsedOnce(g, f) && AltsAlike(g, xs, ys)
    requires ws == CallEnv(g, f, Shared(f, xs), Sharing) && wc == CallEnv(g, f, Choice(ys), Copying)
    ensures (BodyResolved(g, f); AlikeAll(g, ExpandAll(g, ws, g.Body(f)), ExpandAll(g, wc, g.Body(f))))
    decreases ws.lvl, g.Body(f), 1
  {
    BodyResolved(g, f);
    ParsedPrintable(g.RuleOf(f).tokens);
    OnceAll(g, ws, wc, xs, ys, g.Body(f));
  }

  /** Every rule means like trees either way. */
  lemma RulesAlike(g: Grammar, r: string)
    requires g.Ok() && AllHarmless(g) && g.PlainRule(r)
    ensures AlikeAll(g, RuleMeaning(g, Sharing, r), RuleMeaning(g, Copying, r))
  {
    BodyResolved(g, r);
    ParsedPrintable(g.RuleOf(r).tokens);
    ExpandAllAlike(g, Env([], None, g.Level(r), Sharing), Env([], None, g.Level(r), Copying), g.Body(r));
  }

  // ----- like trees mean the same -----

  ghost predicate GoalAlike(g: Grammar, a: TreeGoal, b: TreeGoal)
    requires g.Ok()
  {
    match (a, b)
    case (TWhole(x), TWhole(y)) => Alike(g, x, y)
    case (TSeq(xs), TSeq(ys)) => AlikeAll(g, xs, ys)
    case (TAlts(xs), TAlts(ys)) => AltsAlike(g, xs, ys)
    case (TStar(x), TStar(y)) => Alike(g, x, y)
    case _ => false
  }

  function Size(d: Deriv): nat {
    match d
    case Axiom => 1
    case One(x) => 1 + Size(x)
    case Two(x, _, y) => 1 + Size(x) + Size(y)
  }

  /** A derivation for two lists of alternatives in a row is one for the first list, and one for the second if the first
      list fails. */
  lemma {:induction false} AltsCut(g: Grammar, style: Style, accepts: (Kind, string) -> bool, toks: seq<Token>,
                                   d: Deriv, xs: seq<Expr>, ys: seq<Expr>, i: nat, o: Outcome)
    returns (d1: Deriv, o1: Outcome, d2: Deriv)
    requires g.Ok() && TProves(g, style, accepts, toks, d, TAlts(xs + ys), i, o)
    ensures TProves(g, style, accepts, toks, d1, TAlts(xs), i, o1) && Size(d1) <= Size(d)
    ensures o1.Match? ==> o1 == o
    ensures o1 == Fail ==> TProves(g, style, accepts, toks, d2, TAlts(ys), i, o) && Size(d2) <= Size(d)
    decreases |xs|
  {
    d2 := Axiom;
    if xs == [] {
      assert xs + ys == ys;
      d1, o1, d2 := Axiom, Fail, d;
    } else {
      assert (xs + ys)[0] == xs[0] && (xs + ys)[1..] == xs[1..] + ys;
      if d.One? {
        d1, o1 := d, o;
      } else {
        var rest;
        rest, o1, d2 := AltsCut(g, style, accepts, toks, d.second, xs[1..], ys, i, o);
        d1 := Two(d.first, i, rest);
      }
    }
  }

  lemma {:induction false} AltsJoin(g: Grammar, style: Style, accepts: (Kind, string) -> bool, toks: seq<Token>,
                                    d1: Deriv, o1: Outcome, d2: Deriv, xs: seq<Expr>, ys: seq<Expr>, i: nat, o: Outcome)
    returns (d: Deriv)
    requires g.Ok() && TProves(g, style, accepts, toks, d1, TAlts(xs), i, o1)
    requires if o1.Match? then o1 == o else TProves(g, style, accepts, toks, d2, TAlts(ys), i, o)
    ensures TProves(g, style, accepts, toks, d, TAlts(xs + ys), i, o)
    decreases |xs|
  {
    if xs == [] {
      assert xs + ys == ys;
      d := d2;
    } else {
      assert (xs + ys)[0] == xs[0] && (xs + ys)[1..] == xs[1..] + ys;
      if d1.One? {
        d := d1;
      } else {
        var rest := AltsJoin(g, style, accepts, toks, d1.second, o1, d2, xs[1..], ys, i, o);
        d := Two(d1.first, i, rest);
      }
    }
  }

  lemma AlikeTail(g: Grammar, xs: seq<Expr>, ys: seq<Expr>)
    requires g.Ok() && AlikeAll(g, xs, ys) && ys != []
    ensures Alike(g, xs[0], ys[0]) && AlikeAll(g, xs[1..], ys[1..])
  {
    forall k | 0 <= k < |ys| - 1 ensures Alike(g, xs[1..][k], ys[1..][k]) {
      assert Alike(g, xs[k + 1], ys[k + 1]);
    }
  }

  /** What the shared choices derive, the copied ones derive. */
  lemma {:induction false} ToCopied(g: Grammar, accepts: (Kind, string) -> bool, toks: seq<Token>, d: Deriv,
                                    a: TreeGoal, b: TreeGoal, i: nat, o: Outcome)
    returns (d': Deriv)
    requires g.Ok() && AllHarmless(g) && GoalAlike(g, a, b) && TProves(g, Sharing, accepts, toks, d, a, i, o)
    ensures TProves(g, Copying, accepts, toks, d', b, i, o)
    decreases Size(d), 2, b
  {
    match (a, b) {
      case (TWhole(x), TWhole(y)) => d' := WholeToCopied(g, accepts, toks, d, x, y, i, o);
      case (TSeq(xs), TSeq(ys)) =>
        if ys == [] {
          d' := d;
        } else {
          AlikeTail(g, xs, ys);
          d' := PairToCopied(g, accepts, toks, d, xs[0], ys[0], TSeq(xs[1..]), TSeq(ys[1..]), i,
                             if d.One? then Fail else Match(d.mid), o);
        }
      case (TAlts(xs), TAlts(ys)) => d' := AltsToCopied(g, accepts, toks, d, xs, ys, i, o);
      case (TStar(x), TStar(y)) =>
        d' := PairToCopied(g, accepts, toks, d, x, y, a, b, i, if d.One? then Fail else Match(d.mid), o);
    }
  }

  /** The premises of a derivation: the first with outcome q, the second (if any) with o. */
  lemma {:induction false} PairToCopied(g: Grammar, accepts: (Kind, string) -> bool, toks: seq<Token>, d: Deriv,
                                        x: Expr, y: Expr, a: TreeGoal, b: TreeGoal, i: nat, q: Outcome, o: Outcome)
    returns (d': Deriv)
    requires g.Ok() && AllHarmless(g) && Alike(g, x, y) && d != Axiom
    requires d.One? ==> TProves(g, Sharing, accepts, toks, d.sub, TWhole(x), i, q)
    requires d.Two? ==> GoalAlike(g, a, b) && TProves(g, Sharing, accepts, toks, d.first, TWhole(x), i, q)
                        && TProves(g, Sharing, accepts, toks, d.second, a, d.mid, o)
    ensures d.One? ==> d'.One? && TProves(g, Copying, accepts, toks, d'.sub, TWhole(y), i, q)
    ensures d.Two? ==> d'.Two? && d'.mid == d.mid && TProves(g, Copying, accepts, toks, d'.first, TWhole(y), i, q)
                       && TProves(g, Copying, accepts, toks, d'.second, b, d.mid, o)
    decreases Size(d), 0
  {
    hide Alike, GoalAlike, AllHarmless, TProves, Grammar.Ok;
    if d.One? {
      var sub := ToCopied(g, accepts, toks, d.sub, TWhole(x), TWhole(y), i, q) by { WholeAlike(g, x, y); }
      d' := One(sub);
    } else {
      WholeAlike(g, x, y);
      var first := ToCopied(g, accepts, toks, d.first, TWhole(x), TWhole(y), i, q);
      var second := ToCopied(g, accepts, toks, d.second, a, b, d.mid, o);
      d' := Two(first, d.mid, second);
    }
  }

  lemma WholeAlike(g: Grammar, x: Expr, y: Expr)
    requires g.Ok() && Alike(g, x, y)
    ensures GoalAlike(g, TWhole(x), TWhole(y))
  {
  }

  lemma {:induction false} WholeToCopied(g: Grammar, accepts: (Kind, string) -> bool, toks: seq<Token>, d: Deriv,
                                         x: Expr, y: Expr, i: nat, o: Outcome)
    returns (d': Deriv)
    requires g.Ok() && AllHarmless(g) && Alike(g, x, y) && TProves(g, Sharing, accepts, toks, d, TWhole(x), i, o)
    ensures TProves(g, Copying, accepts, toks, d', TWhole(y), i, o)
    decreases Size(d), 1
  {
    d' := d;
    match y {
      case Lit(_) =>
      case Ref(r) =>
        if r !in g.overrides {
          RulesAlike(g, r);
          var sub := ToCopied(g, accepts, toks, d.sub, TSeq(RuleMeaning(g, Sharing, r)),
                              TSeq(RuleMeaning(g, Copying, r)), i, o);
          d' := One(sub);
        }
      case Group(ys) =>
        var sub := ToCopied(g, accepts, toks, d.sub, TSeq(x.items), TSeq(ys), i, o);
        d' := One(sub);
      case Choice(ys) =>
        var sub := ToCopied(g, accepts, toks, d.sub, TAlts(AltsOf(g, x)), TAlts(ys), i, o);
        d' := One(sub);
      case Opt(z) =>
        var q := if TProves(g, Sharing, accepts, toks, d.sub, TWhole(x.inner), i, o) then o else Fail;
        d' := PairToCopied(g, accepts, toks, d, x.inner, z, TStar(x.inner), TStar(z), i, q, o);
      case Plus(z) =>
        d' := PairToCopied(g, accepts, toks, d, x.inner, z, TStar(x.inner), TStar(z), i,
                           if d.One? then Fail else Match(d.mid), o);
    }
  }

  lemma {:induction false} AltsToCopied(g: Grammar, accepts: (Kind, string) -> bool, toks: seq<Token>, d: Deriv,
                                        xs: seq<Expr>, ys: seq<Expr>, i: nat, o: Outcome)
    returns (d': Deriv)
    requires g.Ok() && AllHarmless(g) && AltsAlike(g, xs, ys) && TProves(g, Sharing, accepts, toks, d, TAlts(xs), i, o)
    ensures TProves(g, Copying, accepts, toks, d', TAlts(ys), i, o)
    decreases Size(d), 1, ys
  {
    if AlikeAll(g, xs, ys) {
      if ys == [] {
        d' := d;
      } else {
        AlikeTail(g, xs, ys);
        d' := PairToCopied(g, accepts, toks, d, xs[0], ys[0], TAlts(xs[1..]), TAlts(ys[1..]), i,
                           if d.One? then o else Fail, o);
      }
    } else {
      var n: nat :| AltsSplit(g, xs, ys, n);
      assert xs[..n] + xs[n..] == xs && [ys[0]] + ys[1..] == ys;
      var d1, o1, d2 := AltsCut(g, Sharing, accepts, toks, d, xs[..n], xs[n..], i, o);
      var head := AltsToCopied(g, accepts, toks, d1, xs[..n], ys[0].alts, i, o1);
      assert TProves(g, Copying, accepts, toks, One(head), TWhole(ys[0]), i, o1);
      if o1.Match? {
        d' := One(One(head));
      } else {
        var rest := AltsToCopied(g, accepts, toks, d2, xs[n..], ys[1..], i, o);
        d' := Two(One(head), i, rest);
      }
    }
  }

  /** And the other way round. */
  lemma {:induction false} ToShared(g: Grammar, accepts: (Kind, string) -> bool, toks: seq<Token>, d: Deriv,
                                    a: TreeGoal, b: TreeGoal, i: nat, o: Outcome)
    returns (d': Deriv)
    requires g.Ok() && AllHarmless(g) && GoalAlike(g, a, b) && TProves(g, Copying, accepts, toks, d, b, i, o)
    ensures TProves(g, Sharing, accepts, toks, d', a, i, o)
    decreases Size(d), 2, b
  {
    match (a, b) {
      case (TWhole(x), TWhole(y)) => d' := WholeToShared(g, accepts, toks, d, x, y, i, o);
      case (TSeq(xs), TSeq(ys)) =>
        if ys == [] {
          d' := d;
        } else {
          AlikeTail(g, xs, ys);
          d' := PairToShared(g, accepts, toks, d, xs[0], ys[0], TSeq(xs[1..]), TSeq(ys[1..]), i,
                             if d.One? then Fail else Match(d.mid), o);
        }
      case (TAlts(xs), TAlts(ys)) => d' := AltsToShared(g, accepts, toks, d, xs, ys, i, o);
      case (TStar(x), TStar(y)) =>
        d' := PairToShared(g, accepts, toks, d, x, y, a, b, i, if d.One? then Fail else Match(d.mid), o);
    }
  }

  lemma {:induction false} PairToShared(g: Grammar, accepts: (Kind, string) -> bool, toks: seq<Token>, d: Deriv,
                                        x: Expr, y: Expr, a: TreeGoal, b: TreeGoal, i: nat, q: Outcome, o: Outcome)
    returns (d': Deriv)
    requires g.Ok() && AllHarmless(g) && Alike(g, x, y) && d != Axiom
    requires d.One? ==> TProves(g, Copying, accepts, toks, d.sub, TWhole(y), i, q)
    requires d.Two? ==> GoalAlike(g, a, b) && TProves(g, Copying, accepts, toks, d.first, TWhole(y), i, q)
                        && TProves(g, Copying, accepts, toks, d.second, b, d.mid, o)
    ensures d.One? ==> d'.One? && TProves(g, Sharing, accepts, toks, d'.sub, TWhole(x), i, q)
    ensures d.Two? ==> d'.Two? && d'.mid == d.mid && TProves(g, Sharing, accepts, toks, d'.first, TWhole(x), i, q)
                       && TProves(g, Sharing, accepts, toks, d'.second, a, d.mid, o)
    decreases Size(d), 0
  {
    hide Alike, GoalAlike, AllHarmless, TProves, Grammar.Ok;
    WholeAlike(g, x, y);
    if d.One? {
      var sub := ToShared(g, accepts, toks, d.sub, TWhole(x), TWhole(y), i, q);
      d' := One(sub);
    } else {
      var first := ToShared(g, accepts, toks, d.first, TWhole(x), TWhole(y), i, q);
      var second := ToShared(g, accepts, toks, d.second, a, b, d.mid, o);
      d' := Two(first, d.mid, second);
    }
  }

  lemma {:induction false} WholeToShared(g: Grammar, accepts: (Kind, string) -> bool, toks: seq<Token>, d: Deriv,
                                         x: Expr, y: Expr, i: nat, o: Outcome)
    returns (d': Deriv)
    requires g.Ok() && AllHarmless(g) && Alike(g, x, y) && TProves(g, Copying, accepts, toks, d, TWhole(y), i, o)
    ensures TProves(g, Sharing, accepts, toks, d', TWhole(x), i, o)
    decreases Size(d), 1
  {
    d' := d;
    match y {
      case Lit(_) =>
      case Ref(r) =>
        if r !in g.overrides {
          RulesAlike(g, r);
          var sub := ToShared(g, accepts, toks, d.sub, TSeq(RuleMeaning(g, Sharing, r)),
                              TSeq(RuleMeaning(g, Copying, r)), i, o);
          d' := One(sub);
        }
      case Group(ys) =>
        var sub := ToShared(g, accepts, toks, d.sub, TSeq(x.items), TSeq(ys), i, o);
        d' := One(sub);
      case Choice(ys) =>
        var sub := ToShared(g, accepts, toks, d.sub, TAlts(AltsOf(g, x)), TAlts(ys), i, o);
        d' := One(sub);
      case Opt(z) =>
        var q := if TProves(g, Copying, accepts, toks, d.sub, TWhole(z), i, o) then o else Fail;
        d' := PairToShared(g, accepts, toks, d, x.inner, z, TStar(x.inner), TStar(z), i, q, o);
      case Plus(z) =>
        d' := PairToShared(g, accepts, toks, d, x.inner, z, TStar(x.inner), TStar(z), i,
                           if d.One? then Fail else Match(d.mid), o);
    }
  }

  lemma {:induction false} AltsToShared(g: Grammar, accepts: (Kind, string) -> bool, toks: seq<Token>, d: Deriv,
                                        xs: seq<Expr>, ys: seq<Expr>, i: nat, o: Outcome)
    returns (d': Deriv)
    requires g.Ok() && AllHarmless(g) && AltsAlike(g, xs, ys) && TProves(g, Copying, accepts, toks, d, TAlts(ys), i, o)
    ensures TProves(g, Sharing, accepts, toks, d', TAlts(xs), i, o)
    decreases Size(d), 1, ys
  {
    if AlikeAll(g, xs, ys) {
      if ys == [] {
        d' := d;
      } else {
        AlikeTail(g, xs, ys);
        d' := PairToShared(g, accepts, toks, d, xs[0], ys[0], TAlts(xs[1..]), TAlts(ys[1..]), i,
                           if d.One? then o else Fail, o);
      }
    } else {
      var n: nat :| AltsSplit(g, xs, ys, n);
      assert xs[..n] + xs[n..] == xs;
      var first := if d.One? then d.sub else d.first;
      var o1 := if d.One? then o else Fail;
      assert TProves(g, Copying, accepts, toks, first, TWhole(ys[0]), i, o1) && Size(first) < Size(d);
      assert Size(first.sub) < Size(first);
      var head := AltsToShared(g, accepts, toks, first.sub, xs[..n], ys[0].alts, i, o1);
      var rest := Axiom;
      if d.Two? { rest := AltsToShared(g, accepts, toks, d.second, xs[n..], ys[1..], i, o); }
      d' := AltsJoin(g, Sharing, accepts, toks, head, o1, rest, xs[..n], xs[n..], i, o);
    }
  }

  /** Where no choice is extended by the function it is passed to, or only in the function's one use of it, sharing
      means the same as copying: compiling preserves the meaning of the notation. */
  lemma SharingIsCopying(g: Grammar, accepts: (Kind, string) -> bool, toks: seq<Token>, r: string, i: nat, o: Outcome)
    requires g.Ok() && AllHarmless(g)
    ensures Means(g, Sharing, accepts, toks, Ref(r), i, o) <==> Means(g, Copying, accepts, toks, Ref(r), i, o)
  {
    WholeAlike(g, Ref(r), Ref(r));
    if d :| TProves(g, Sharing, accepts, toks, d, TWhole(Ref(r)), i, o) {
      var d' := ToCopied(g, accepts, toks, d, TWhole(Ref(r)), TWhole(Ref(r)), i, o);
    }
    if d :| TProves(g, Copying, accepts, toks, d, TWhole(Ref(r)), i, o) {
      var d' := ToShared(g, accepts, toks, d, TWhole(Ref(r)), TWhole(Ref(r)), i, o);
    }
  }
}
