/** The whole engine: what a compiled grammar accepts is what its trees mean. */
module PegParser {
  import opened Options
  import opened PegSyntax
  import opened PegGraph
  import opened PegSimulation
  import opened PegCompiler
  import opened PegMatcher
  import opened Tokens
  import opened PegMeaning
  import opened PegResults
  import opened PegProgress
  import opened PegSharing

  // ----- printed trees are rules in order -----

  predicate TokensOk(g: Grammar, params: seq<string>, lvl: nat, ts: seq<PegToken>) {
    forall t :: t in ts ==> g.TokenOk(params, lvl, t)
  }

  lemma {:induction false} PrintTokens(g: Grammar, params: seq<string>, lvl: nat, e: Expr)
    requires Printable(e) && Resolved(g, params, lvl, e)
    ensures TokensOk(g, params, lvl, Print(e))
    decreases e, 1
  {
    match e
    case Call(f, args) => PrintSeqTokens(g, params, lvl, args);
    case Group(items) => PrintSeqTokens(g, params, lvl, items);
    case Choice(alts) => PrintAltsTokens(g, params, lvl, alts);
    case Opt(x) => PrintTokens(g, params, lvl, if x.Plus? then x.inner else x);
    case Plus(x) => PrintTokens(g, params, lvl, x);
    case _ =>
  }

  lemma {:induction false} PrintSeqTokens(g: Grammar, params: seq<string>, lvl: nat, es: seq<Expr>)
    requires forall a :: a in es ==> Printable(a) && Resolved(g, params, lvl, a)
    ensures TokensOk(g, params, lvl, PrintSeq(es))
    decreases es, 0
  {
    if es != [] {
      assert forall a :: a in Init(es) ==> a in es;
      assert Last(es) in es;
      PrintSeqTokens(g, params, lvl, Init(es));
      PrintTokens(g, params, lvl, Last(es));
    }
  }

  lemma {:induction false} PrintAltsTokens(g: Grammar, params: seq<string>, lvl: nat, es: seq<Expr>)
    requires forall a :: a in es ==> Printable(a) && Resolved(g, params, lvl, a)
    ensures TokensOk(g, params, lvl, PrintAlts(es))
    decreases es, 0
  {
    if |es| == 1 {
      assert es[0] in es;
      PrintTokens(g, params, lvl, es[0]);
    } else if es != [] {
      assert forall a :: a in Init(es) ==> a in es;
      assert Last(es) in es;
      PrintAltsTokens(g, params, lvl, Init(es));
      PrintTokens(g, params, lvl, Last(es));
    }
  }

  /** The live rules print these trees. */
  ghost predicate Prints(g: Grammar, trees: map<string, seq<Expr>>) {
    forall r :: r in g.live ==> g.Has(r) && r in trees && g.RuleOf(r).tokens == PrintSeq(trees[r])
  }

  /** The trees of a rule set: they can be printed, their names resolve, and function rules are acyclic. */
  ghost predicate TreesOk(g: Grammar, trees: map<string, seq<Expr>>)
    requires Prints(g, trees)
  {
    && (forall r :: r in g.live ==> |g.RuleOf(r).params| <= 1 && g.Rank(r) < g.top)
    && forall r, e :: r in g.live && e in trees[r] ==> Printable(e) && Resolved(g, g.RuleOf(r).params, g.Level(r), e)
  }

  /** Printed trees make rules the compiler accepts, whose bodies are these trees. */
  lemma PrintedRules(g: Grammar, trees: map<string, seq<Expr>>)
    requires Prints(g, trees) && TreesOk(g, trees)
    ensures g.Ok() && g.Acyclic()
    ensures forall r :: r in g.live ==> g.Body(r) == trees[r]
  {
    forall r | r in g.live
      ensures g.RuleOk(r) && Parse(g.RuleOf(r).tokens) == Some(trees[r])
    {
      assert forall e :: e in trees[r] ==> Printable(e);
      ParsePrint(trees[r]);
      PrintSeqTokens(g, g.RuleOf(r).params, g.Level(r), trees[r]);
    }
    OkAcyclic(g);
  }

  /** Names that resolve lead to live rules. */
  lemma OkAcyclic(g: Grammar)
    requires g.Ok() && forall r :: r in g.live ==> g.Rank(r) < g.top
    ensures g.Acyclic()
  {
    forall r, t | r in g.live && g.Has(r) && t in g.RuleOf(r).tokens ensures g.Leads(r, t) {
      assert g.RuleOk(r);
    }
  }

  // ----- the whole parser -----

  /** `Transform`: the statement is accepted when the root rule matches and no token is left.  For every grammar whose
      live rules are in order, without left recursion and empty repetitions, and every token list, accepted is exactly
      what the grammar derives when a choice that is passed to a function is shared; and where that does no harm,
      exactly what the notation says.  The result is the one that the tree of the root rule gives.  There is an
      exception exactly when a terminal matcher that is reached throws one, at some token. */
  method ParseStatement(g: Grammar, keywords: seq<string>, root_rule: string, accepts: (Kind, string) -> bool,
                        throws: (Kind, string) -> bool, toks: seq<Token>)
    returns (result: Option<ParseResult>, thrown: bool)
    requires g.Ok() && g.Acyclic() && g.Plain(root_rule) && Progressive(g)
    ensures thrown <==> TRaises(g, Sharing, accepts, throws, toks, Ref(root_rule), 0)
    ensures thrown ==> CanThrow(throws, toks)
    ensures !thrown ==> (result.Some? <==> Means(g, Sharing, accepts, toks, Ref(root_rule), 0, Match(|toks|)))
    ensures !thrown && AllHarmless(g) ==>
              (result.Some? <==> Means(g, Copying, accepts, toks, Ref(root_rule), 0, Match(|toks|)))
    ensures !thrown && result.Some? ==> Leaves(result.value) == toks
    ensures !thrown ==> forall r ::
                result == Some(r)
                <==> TMirrors(g, Sharing, accepts, toks, Ref(root_rule), 0, r) && |Leaves(r)| == |toks|
  {
    hide Grammar.Ok, Grammar.Acyclic, Progressive, TreeProgress, CacheOk, Progress, GraphCert, Means, Derives, Good,
         AllHarmless, CanThrow, Mirrors, TMirrors, Leaves, Raises, TRaises;
    if AllHarmless(g) { SharingIsCopying(g, accepts, toks, root_rule, 0, Match(|toks|)); }
    var factory := new MatcherFactory();
    var root := factory.CompileGrammar(g, keywords, root_rule);
    ghost var c := ProgressiveCertified(g);
    ghost var cert := GraphCert(g, factory.nodes, factory.Cache(), c);
    GraphProgress(g, factory.nodes, factory.Cache(), c);
    var engine := new Engine(factory.nodes, accepts, throws, cert);
    var state := new MatchState(toks, 0);
    var match_result, failure := engine.MatchParseResult(root.value, state);
    RootRaises(g, factory.nodes, factory.Cache(), accepts, throws, toks, root.value, root_rule);
    if failure { return None, true; }
    Accepts(g, factory.nodes, factory.Cache(), accepts, toks, root.value, root_rule,
            Reported(match_result, state.token_index));
    Results(g, factory.nodes, factory.Cache(), accepts, toks, root.value, root_rule, match_result);
    if match_result.None? || state.token_index < |toks| {
      return None, false;
    }
    assert toks[0..|toks|] == toks;
    return match_result, false;
  }

  lemma RootRaises(g: Grammar, nodes: seq<Node>, cache: Table, accepts: (Kind, string) -> bool,
                   throws: (Kind, string) -> bool, toks: seq<Token>, root: nat, root_rule: string)
    requires g.Ok() && CacheOk(g, nodes, cache, {}, {}) && root_rule in cache.rules && cache.rules[root_rule] == root
    ensures Raises(nodes, accepts, throws, toks, Whole(root), 0)
            <==> TRaises(g, Sharing, accepts, throws, toks, Ref(root_rule), 0)
    ensures Raises(nodes, accepts, throws, toks, Whole(root), 0) ==> CanThrow(throws, toks)
  {
    hide Grammar.Ok, Raises, TRaises, CanThrow;
    assert CacheEntry(g, nodes, cache, {}, {}, root_rule);
    SameRaises(g, nodes, cache, accepts, throws, toks, root, Ref(root_rule), 0);
  }

  /** The outcome of the root matcher is the one outcome of the root rule. */
  lemma Accepts(g: Grammar, nodes: seq<Node>, cache: Table, accepts: (Kind, string) -> bool, toks: seq<Token>,
                root: nat, root_rule: string, o: Outcome)
    requires g.Ok() && CacheOk(g, nodes, cache, {}, {}) && root_rule in cache.rules && cache.rules[root_rule] == root
    requires Derives(nodes, accepts, toks, Whole(root), 0, o)
    ensures forall q :: Means(g, Sharing, accepts, toks, Ref(root_rule), 0, q) <==> q == o
  {
    DerivesUnique(nodes, accepts, toks, Whole(root), 0, o);
    assert CacheEntry(g, nodes, cache, {}, {}, root_rule);
    var e := Ref(root_rule);
    forall q ensures Means(g, Sharing, accepts, toks, e, 0, q) <==> Derives(nodes, accepts, toks, Whole(root), 0, q) {
      forall d ensures Proves(nodes, accepts, toks, d, Whole(root), 0, q)
                       <==> TProves(g, Sharing, accepts, toks, d, TWhole(e), 0, q)
      {
        SameDerivations(g, nodes, cache, accepts, toks, d, Whole(root), TWhole(e), 0, q);
      }
    }
  }

  /** The result of the root matcher is the one result of the root rule. */
  lemma Results(g: Grammar, nodes: seq<Node>, cache: Table, accepts: (Kind, string) -> bool, toks: seq<Token>,
                root: nat, root_rule: string, result: Option<ParseResult>)
    requires g.Ok() && CacheOk(g, nodes, cache, {}, {}) && root_rule in cache.rules && cache.rules[root_rule] == root
    requires result.None? ==> Derives(nodes, accepts, toks, Whole(root), 0, Fail)
    requires result.Some? ==> Mirrors(nodes, accepts, toks, root, 0, result.value)
    ensures forall r :: TMirrors(g, Sharing, accepts, toks, Ref(root_rule), 0, r) <==> result == Some(r)
  {
    hide Grammar.Ok, Mirrors, TMirrors, Derives;
    assert CacheEntry(g, nodes, cache, {}, {}, root_rule);
    forall r ensures TMirrors(g, Sharing, accepts, toks, Ref(root_rule), 0, r) <==> result == Some(r) {
      SameResults(g, nodes, cache, accepts, toks, root, Ref(root_rule), 0, r);
      if Mirrors(nodes, accepts, toks, root, 0, r) {
        NotBoth(nodes, accepts, toks, root, 0, r);
        if result.Some? { MirrorsUnique(nodes, accepts, toks, root, 0, r, result.value); }
      }
    }
  }
}
