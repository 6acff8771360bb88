/** The matcher graph, and what it means for a matcher to stand for a tree: the trees are those of a rule body with
    every function call replaced by the function's body, its parameter by the argument. */
module PegGraph {
  import opened Options
  import opened PegSyntax
  import opened Characters
  import opened Tokens

  /** The terminal matchers other than keywords. */
  datatype Kind = Identifier(suggestion: Suggestion) | ReservedIdentifier(suggestion: Suggestion) | StringLiteral
                | NumberLiteral | OperatorLiteral | ArithmeticOperator

  datatype Node =
    | KeywordMatcher(text: string)
    | ListMatcher(children: seq<nat>)
    | ChoiceMatcher(children: seq<nat>)
    | OptionalMatcher(child: nat)
    | RepeatMatcher(child: nat)
    | Terminal(kind: Kind)

  datatype Rule = Rule(params: seq<string>, tokens: seq<PegToken>)

  /** The rules, found by name in either case, and the rule overrides.  The rest is a certificate: `live` has the names,
      as they are written, that can be reached, and a call in the body of a function goes to a smaller rank. */
  datatype Grammar = Grammar(rules: map<string, Rule>, overrides: map<string, Kind>, live: set<string>,
                             rank: map<string, nat>, top: nat) {
    predicate Has(n: string) {
      Lower(n) in rules
    }

    function RuleOf(n: string): Rule
      requires Has(n)
    {
      rules[Lower(n)]
    }

    function Rank(f: string): nat {
      if f in rank then rank[f] else 0
    }

    /** Functions called in the body of r rank below this. */
    function Level(r: string): nat {
      if Has(r) && RuleOf(r).params != [] then Rank(r) else top
    }

    /** What a token of rule r names is live; a call goes to a smaller rank. */
    predicate Leads(r: string, t: PegToken)
      requires Has(r)
    {
      match t
      case Reference(n) => n in RuleOf(r).params || n in overrides || !Has(n) || n in live
      case FunctionCall(f) => !Has(f) || (f in live && Rank(f) < Level(r))
      case _ => true
    }

    ghost predicate Acyclic() {
      && (forall r :: r in live ==> Has(r) && Rank(r) < top)
      && (forall r, t :: r in live && Has(r) && t in RuleOf(r).tokens ==> Leads(r, t))
    }

    /** A rule without parameters. */
    predicate PlainRule(n: string) {
      n in live && Has(n) && RuleOf(n).params == []
    }

    predicate FunctionRule(n: string) {
      n in live && Has(n) && |RuleOf(n).params| == 1
    }

    /** A plain reference: an override or a rule without parameters. */
    predicate Plain(n: string) {
      n in overrides || PlainRule(n)
    }

    predicate TokenOk(params: seq<string>, lvl: nat, t: PegToken) {
      match t
      case Reference(n) => n in params || Plain(n)
      case FunctionCall(f) => f != "" && FunctionRule(f) && Rank(f) < lvl
      case _ => true
    }

    predicate RuleOk(r: string)
      requires Has(r)
    {
      && |RuleOf(r).params| <= 1
      && Parse(RuleOf(r).tokens).Some?
      && (forall t :: t in RuleOf(r).tokens ==> TokenOk(RuleOf(r).params, Level(r), t))
    }

    /** Every live rule has at most one parameter, a body the machine accepts, and only names that resolve. */
    ghost predicate Ok() {
      forall r :: r in live ==> Has(r) && RuleOk(r)
    }

    function Body(r: string): seq<Expr>
      requires Has(r) && Parse(RuleOf(r).tokens).Some?
    {
      Parse(RuleOf(r).tokens).value
    }
  }

  // ----- names resolve in trees when they do in tokens -----

  predicate Resolved(g: Grammar, params: seq<string>, lvl: nat, e: Expr)
    decreases e
  {
    match e
    case Lit(_) => true
    case Ref(n) => n in params || g.Plain(n)
    case Call(f, args) => g.FunctionRule(f) && g.Rank(f) < lvl && forall a :: a in args ==> Resolved(g, params, lvl, a)
    case Group(items) => forall a :: a in items ==> Resolved(g, params, lvl, a)
    case Choice(alts) => forall a :: a in alts ==> Resolved(g, params, lvl, a)
    case Opt(x) => Resolved(g, params, lvl, x)
    case Plus(x) => Resolved(g, params, lvl, x)
    case Shared(_, _) => false
  }

  predicate FrameResolved(g: Grammar, params: seq<string>, lvl: nat, f: Frame) {
    && (forall a :: a in f.items ==> Resolved(g, params, lvl, a))
    && (f.fname != "" ==> g.TokenOk(params, lvl, FunctionCall(f.fname)))
  }

  predicate FramesResolved(g: Grammar, params: seq<string>, lvl: nat, fs: seq<Frame>) {
    forall k :: 0 <= k < |fs| ==> FrameResolved(g, params, lvl, fs[k])
  }

  lemma AddResolved(g: Grammar, params: seq<string>, lvl: nat, f: Frame, e: Expr)
    requires FrameShape(f) && SomeAlternative(e) && FrameResolved(g, params, lvl, f) && Resolved(g, params, lvl, e)
    ensures FrameResolved(g, params, lvl, AddToFrame(f, e))
  {
    if f.pending {
      var choice := Last(f.items);
      assert choice in f.items;
      assert forall a :: a in choice.alts + [e] ==> Resolved(g, params, lvl, a);
      assert Resolved(g, params, lvl, Choice(choice.alts + [e]));
      assert forall a :: a in Init(f.items) ==> a in f.items;
    }
  }

  lemma OpenedResolved(g: Grammar, params: seq<string>, lvl: nat, e: Expr)
    requires Resolved(g, params, lvl, e)
    ensures Resolved(g, params, lvl, Opened(e))
  {
    if !e.Choice? {
      assert forall a :: a in [e] ==> a == e;
    }
  }

  lemma StepResolved(g: Grammar, params: seq<string>, lvl: nat, fs: seq<Frame>, t: PegToken)
    requires FramesShape(fs) && FramesResolved(g, params, lvl, fs) && g.TokenOk(params, lvl, t)
    requires Step(fs, t).Some?
    ensures FramesResolved(g, params, lvl, Step(fs, t).value)
  {
    var top := Last(fs);
    assert FrameResolved(g, params, lvl, top);
    if t.Literal? {
      AddResolved(g, params, lvl, top, Lit(t.text));
    } else if t.Reference? {
      AddResolved(g, params, lvl, top, Ref(t.name));
    } else if t.Operator? && (t.op == '?' || t.op == '*' || t.op == '+' || t.op == '/') {
      var e := Last(top.items);
      assert e in top.items;
      assert forall a :: a in Init(top.items) ==> a in top.items;
      assert Resolved(g, params, lvl, Suffixed(t.op, e));
      OpenedResolved(g, params, lvl, e);
    } else if t.Operator? && t.op == ')' {
      assert Resolved(g, params, lvl, Closed(top));
      AddResolved(g, params, lvl, Last(Init(fs)), Closed(top));
    }
  }

  lemma {:induction false} RunResolved(g: Grammar, params: seq<string>, lvl: nat, fs: seq<Frame>, ts: seq<PegToken>)
    requires FramesShape(fs) && FramesResolved(g, params, lvl, fs)
    requires forall t :: t in ts ==> g.TokenOk(params, lvl, t)
    requires Run(fs, ts).Some?
    ensures FramesResolved(g, params, lvl, Run(fs, ts).value)
    decreases |ts|
  {
    if ts != [] {
      StepResolved(g, params, lvl, fs, ts[0]);
      RunResolved(g, params, lvl, Step(fs, ts[0]).value, ts[1..]);
    }
  }

  lemma BodyResolved(g: Grammar, r: string)
    requires g.Ok() && r in g.live
    ensures forall a :: a in g.Body(r) ==> Resolved(g, g.RuleOf(r).params, g.Level(r), a)
  {
    var start, rule := [Frame("", [], false)], g.RuleOf(r);
    RunResolved(g, rule.params, g.Level(r), start, rule.tokens);
    assert FrameResolved(g, rule.params, g.Level(r), Run(start, rule.tokens).value[0]);
  }

  // ----- expanding function calls -----

  /** How a call passes a choice: as one matcher shared by all uses of the parameter, which is what the compiler does,
      or as a copy of its tree for each use. */
  datatype Style = Sharing | Copying

  /** The rule being compiled: its parameter name (if any), the expanded argument, and the level of its calls. */
  datatype Env = Env(params: seq<string>, arg: Option<Expr>, lvl: nat, style: Style) {
    predicate Ok() {
      && |params| <= 1
      && (params != [] <==> arg.Some?)
      && (arg.Some? ==> if style.Sharing? then !arg.value.Choice? else !arg.value.Shared?)
    }

    /** The argument is a shared choice. */
    predicate Shares() {
      arg.Some? && arg.value.Shared?
    }

    predicate IsParameter(e: Expr) {
      e.Ref? && e.name in params
    }

    /** A choice that starts with the bare parameter extends the choice passed as the argument. */
    predicate Extends(alts: seq<Expr>) {
      Shares() && alts != [] && IsParameter(alts[0])
    }
  }

  /** A call's argument list counts as one expression: a single element stands for itself. */
  function Wrapped(es: seq<Expr>): Expr {
    if |es| == 1 then es[0] else Group(es)
  }

  function Passed(style: Style, f: string, arg: Expr): (r: Expr)
    ensures style.Sharing? ==> !r.Choice?
  {
    if style.Sharing? && arg.Choice? then Shared(f, arg.alts) else arg
  }

  /** The body of f with this argument, which is passed as it is. */
  function CallEnv(g: Grammar, f: string, arg: Expr, style: Style): Env
    requires g.FunctionRule(f)
  {
    Env(g.RuleOf(f).params, Some(arg), g.Rank(f), style)
  }

  /** The tree without calls: each call is replaced by the body of its function, the parameter by the argument. */
  ghost function Expand(g: Grammar, v: Env, e: Expr): (r: Expr)
    requires g.Ok() && v.Ok() && Resolved(g, v.params, v.lvl, e)
    ensures r.Shared? ==> v.Shares() && r == v.arg.value
    decreases v.lvl, e, 0
  {
    match e
    case Lit(_) => e
    case Ref(n) => if n in v.params then v.arg.value else e
    case Call(f, args) =>
      BodyResolved(g, f);
      var arg := Passed(v.style, f, Wrapped(ExpandAll(g, v, args)));
      Group(ExpandAll(g, CallEnv(g, f, arg, v.style), g.Body(f)))
    case Group(items) => Group(ExpandAll(g, v, items))
    case Choice(alts) => if v.Extends(alts) then v.arg.value else Choice(ExpandAll(g, v, alts))
    case Opt(x) => Opt(Expand(g, v, x))
    case Plus(x) => Plus(Expand(g, v, x))
  }

  ghost function ExpandAll(g: Grammar, v: Env, es: seq<Expr>): (r: seq<Expr>)
    requires g.Ok() && v.Ok() && forall a :: a in es ==> Resolved(g, v.params, v.lvl, a)
    ensures |r| == |es|
    ensures forall k :: 0 <= k < |es| ==> r[k] == Expand(g, v, es[k])
    decreases v.lvl, es, 0
  {
    if es == [] then []
    else
      assert forall a :: a in Init(es) ==> a in es;
      ExpandAll(g, v, Init(es)) + [Expand(g, v, Last(es))]
  }

  /** The alternatives that e adds to the choice passed as the parameter, in the order in which they are compiled. */
  ghost function Ext(g: Grammar, v: Env, e: Expr): seq<Expr>
    requires g.Ok() && v.Ok() && Resolved(g, v.params, v.lvl, e)
    decreases v.lvl, e, 0
  {
    if !v.Shares() then [] else
    match e
    case Call(f, args) =>
      BodyResolved(g, f);
      var arg := Wrapped(ExpandAll(g, v, args));
      ExtAll(g, v, args) + if arg.Shared? then ExtAll(g, CallEnv(g, f, arg, v.style), g.Body(f)) else []
    case Group(items) => ExtAll(g, v, items)
    case Choice(alts) => if v.Extends(alts) then ExtLater(g, v, alts) else ExtAll(g, v, alts)
    case Opt(x) => Ext(g, v, x)
    case Plus(x) => Ext(g, v, x)
    case _ => []
  }

  ghost function ExtAll(g: Grammar, v: Env, es: seq<Expr>): seq<Expr>
    requires g.Ok() && v.Ok() && forall a :: a in es ==> Resolved(g, v.params, v.lvl, a)
    decreases v.lvl, es, 0
  {
    if es == [] then []
    else
      assert forall a :: a in Init(es) ==> a in es;
      ExtAll(g, v, Init(es)) + Ext(g, v, Last(es))
  }

  /** All but the first alternative are added, each after what it adds itself. */
  ghost function ExtLater(g: Grammar, v: Env, alts: seq<Expr>): seq<Expr>
    requires g.Ok() && v.Ok() && forall a :: a in alts ==> Resolved(g, v.params, v.lvl, a)
    decreases v.lvl, alts, 0
  {
    if |alts| <= 1 then []
    else
      assert forall a :: a in Init(alts) ==> a in alts;
      ExtLater(g, v, Init(alts)) + Ext(g, v, Last(alts)) + [Expand(g, v, Last(alts))]
  }

  predicate WellShared(g: Grammar, s: Expr) {
    s.Shared? && g.FunctionRule(s.fname)
  }

  /** The alternatives of a shared choice once the call it was passed to is compiled. */
  ghost function SharedAlts(g: Grammar, s: Expr): seq<Expr>
    requires g.Ok() && WellShared(g, s)
  {
    BodyResolved(g, s.fname);
    s.alts + ExtAll(g, CallEnv(g, s.fname, s, Sharing), g.Body(s.fname))
  }

  /** What a rule without parameters means. */
  ghost function RuleMeaning(g: Grammar, style: Style, r: string): seq<Expr>
    requires g.Ok() && g.PlainRule(r)
  {
    BodyResolved(g, r);
    ExpandAll(g, Env([], None, g.Level(r), style), g.Body(r))
  }

  // ----- a matcher stands for a tree -----

  /** The cache of rule matchers, and the shared choice that a choice matcher is (if it was passed to a function). */
  datatype Table = Table(rules: map<string, nat>, shared: map<nat, Expr>)

  /** Matcher `id` stands for the call-free tree `t`; no matcher on the way is in `open`, the ones still being
      filled.  A rule name stands for whatever matcher the cache holds for it, a shared choice for its one matcher. */
  ghost predicate Rep(nodes: seq<Node>, cache: Table, open: set<nat>, id: nat, t: Expr)
    decreases t, 0
  {
    && id < |nodes|
    && (t.Ref? || t.Shared? || id !in open)
    && match t
       case Lit(s) => nodes[id].KeywordMatcher? && CIEquals(nodes[id].text, s)
       case Ref(r) => r in cache.rules && cache.rules[r] == id
       case Call(_, _) => false
       case Group(ts) => nodes[id].ListMatcher? && RepAll(nodes, cache, open, nodes[id].children, ts)
       case Choice(ts) => nodes[id].ChoiceMatcher? && RepAll(nodes, cache, open, nodes[id].children, ts)
       case Opt(x) => nodes[id].OptionalMatcher? && Rep(nodes, cache, open, nodes[id].child, x)
       case Plus(x) => nodes[id].RepeatMatcher? && Rep(nodes, cache, open, nodes[id].child, x)
       case Shared(_, _) => nodes[id].ChoiceMatcher? && id in cache.shared && cache.shared[id] == t
  }

  ghost predicate RepAll(nodes: seq<Node>, cache: Table, open: set<nat>, ids: seq<nat>, ts: seq<Expr>)
    decreases ts, 1
  {
    |ids| == |ts| && forall k :: 0 <= k < |ts| ==> Rep(nodes, cache, open, ids[k], ts[k])
  }

  predicate Extends<K, V(==)>(m: map<K, V>, m': map<K, V>) {
    forall r :: r in m ==> r in m' && m'[r] == m[r]
  }

  /** Only open or new matchers changed, only open or new ones are open afterwards, lists stay lists and choices stay
      choices, and the table only grew. */
  ghost predicate Keeps(nodes: seq<Node>, cache: Table, open: set<nat>, nodes': seq<Node>, cache': Table,
                        open': set<nat>)
  {
    && |nodes| <= |nodes'|
    && Extends(cache.rules, cache'.rules) && Extends(cache.shared, cache'.shared)
    && (forall k :: 0 <= k < |nodes| && k !in open ==> nodes'[k] == nodes[k] && k !in open')
    && (forall k :: 0 <= k < |nodes| && nodes[k].ListMatcher? ==> nodes'[k].ListMatcher?)
    && (forall k :: 0 <= k < |nodes| && nodes[k].ChoiceMatcher? ==> nodes'[k].ChoiceMatcher?)
  }

  lemma {:induction false} RepKept(nodes: seq<Node>, cache: Table, open: set<nat>,
                                   nodes': seq<Node>, cache': Table, open': set<nat>, id: nat, t: Expr)
    requires Keeps(nodes, cache, open, nodes', cache', open') && Rep(nodes, cache, open, id, t)
    ensures Rep(nodes', cache', open', id, t)
    decreases t, 0
  {
    match t
    case Group(ts) => RepAllKept(nodes, cache, open, nodes', cache', open', nodes[id].children, ts);
    case Choice(ts) => RepAllKept(nodes, cache, open, nodes', cache', open', nodes[id].children, ts);
    case Opt(x) => RepKept(nodes, cache, open, nodes', cache', open', nodes[id].child, x);
    case Plus(x) => RepKept(nodes, cache, open, nodes', cache', open', nodes[id].child, x);
    case _ =>
  }

  lemma {:induction false} RepAllKept(nodes: seq<Node>, cache: Table, open: set<nat>, nodes': seq<Node>, cache': Table,
                                      open': set<nat>, ids: seq<nat>, ts: seq<Expr>)
    requires Keeps(nodes, cache, open, nodes', cache', open') && RepAll(nodes, cache, open, ids, ts)
    ensures RepAll(nodes', cache', open', ids, ts)
    decreases ts, 1
  {
    forall k | 0 <= k < |ts| ensures Rep(nodes', cache', open', ids[k], ts[k]) {
      RepKept(nodes, cache, open, nodes', cache', open', ids[k], ts[k]);
    }
  }
}
