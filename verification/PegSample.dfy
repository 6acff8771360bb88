/** A grammar which compiles to something else. */
module PegSample {
  import opened Options
  import opened PegSyntax
  import opened PegGraph
  import opened Characters
  import opened PegMatcher
  import opened Tokens
  import opened PegMeaning
  import opened PegProgress
  import opened PegSharing
  import opened PegParser

  // S <- F('a' / 'b'),  F(D) <- D D / 'x'.  The function adds 'x' to the choice it shares with its caller, so that its
  // first D takes an x as well.

  const START: seq<PegToken> := [FunctionCall("F"), Literal("a"), Operator('/'), Literal("b"), Operator(')')]
  const TWICE: seq<PegToken> := [Reference("D"), Reference("D"), Operator('/'), Literal("x")]

  const AB: Expr := Choice([Lit("a"), Lit("b")])
  const START_TREES: seq<Expr> := [Call("F", [AB])]
  const TWICE_TREES: seq<Expr> := [Ref("D"), Choice([Ref("D"), Lit("x")])]

  function Sample(): Grammar {
    Grammar(map["s" := Rule([], START), "f" := Rule(["D"], TWICE)], map[], {"S", "F"}, map["F" := 0], 1)
  }

  /** The choice 'a' / 'b', as F leaves it. */
  const ABX: Expr := Shared("F", [Lit("a"), Lit("b")])

  lemma SampleRules()
    ensures var g := Sample();
            && g.Has("S") && g.RuleOf("S") == Rule([], START) && g.PlainRule("S") && g.Level("S") == 1
            && g.Has("F") && g.RuleOf("F") == Rule(["D"], TWICE) && g.FunctionRule("F") && g.Level("F") == 0
            && (forall r :: r in g.live <==> r == "S" || r == "F")
  {
    assert Lower("S") == "s" && Lower("F") == "f";
  }

  lemma StartPrinted()
    ensures PrintSeq(START_TREES) == START
  {
    assert PrintAlts([Lit("a")]) == [Literal("a")] by { assert Print(Lit("a")) == [Literal("a")]; }
    assert Init(AB.alts) == [Lit("a")];
    assert PrintAlts(AB.alts) == PrintAlts([Lit("a")]) + [Operator('/')] + Print(Lit("b"));
    assert Print(AB) == [Literal("a"), Operator('/'), Literal("b")];
    assert Init([AB]) == [] && PrintSeq([AB]) == PrintSeq([]) + Print(AB);
    assert PrintSeq([AB]) == Print(AB);
    assert Print(START_TREES[0]) == START;
    assert Init(START_TREES) == [] && PrintSeq(START_TREES) == PrintSeq([]) + Print(START_TREES[0]);
  }

  lemma TwicePrinted()
    ensures PrintSeq(TWICE_TREES) == TWICE
  {
    var d, choice := Ref("D"), Choice([Ref("D"), Lit("x")]);
    assert Init(choice.alts) == [d] && PrintAlts([d]) == Print(d);
    assert Print(choice) == [Reference("D"), Operator('/'), Literal("x")];
    assert Init(TWICE_TREES) == [d] && Init([d]) == [];
    assert PrintSeq([d]) == PrintSeq([]) + Print(d);
    assert PrintSeq(TWICE_TREES) == PrintSeq([d]) + Print(choice);
  }

  lemma TreesPrintable()
    ensures forall e :: e in START_TREES ==> Printable(e) && Resolved(Sample(), [], 1, e)
    ensures forall e :: e in TWICE_TREES ==> Printable(e) && Resolved(Sample(), ["D"], 0, e)
  {
    hide Print;
    SampleRules();
    assert forall e :: e in START_TREES <==> e == START_TREES[0];
    assert Printable(AB) && Resolved(Sample(), [], 1, AB);
    assert "D" in ["D"] && Resolved(Sample(), ["D"], 0, Ref("D"));
    assert Printable(TWICE_TREES[1]) && Resolved(Sample(), ["D"], 0, TWICE_TREES[1]);
  }

  lemma SampleOk()
    ensures var g := Sample();
            && g.Ok() && g.Acyclic() && g.Body("S") == START_TREES && g.Body("F") == TWICE_TREES
  {
    hide Print, Printable, Resolved;
    var g, trees := Sample(), map["S" := START_TREES, "F" := TWICE_TREES];
    SampleRules();
    StartPrinted();
    TwicePrinted();
    TreesPrintable();
    PrintedRules(g, trees);
  }

  // ----- what its rules mean -----

  /** The body of F with this argument, shared or not. */
  lemma TwiceExpands(g: Grammar, v: Env)
    requires g.Ok() && v.Ok() && v.params == ["D"] && forall e :: e in TWICE_TREES ==> Resolved(g, v.params, v.lvl, e)
    ensures var d := v.arg.value;
            ExpandAll(g, v, TWICE_TREES) == [d, if v.Shares() then d else Choice([d, Lit("x")])]
    ensures v.Shares() ==> ExtAll(g, v, TWICE_TREES) == [Lit("x")]
  {
    hide Grammar.Ok;
    var d, choice := Ref("D"), TWICE_TREES[1];
    assert d in TWICE_TREES && choice in TWICE_TREES;
    assert choice.alts == [d, Lit("x")] && d in choice.alts && Lit("x") in choice.alts;
    assert ExpandAll(g, v, choice.alts) == [v.arg.value, Lit("x")];
    assert Init(TWICE_TREES) == [d] && Init([d]) == [] && Init(choice.alts) == [d];
    if v.Shares() {
      assert ExtLater(g, v, [d]) == [];
      assert ExtLater(g, v, choice.alts) == [] + Ext(g, v, Lit("x")) + [Expand(g, v, Lit("x"))];
      assert Ext(g, v, choice) == [Lit("x")];
      assert ExtAll(g, v, []) == [] && ExtAll(g, v, [d]) == [] + Ext(g, v, d);
    }
  }

  lemma CallExpands(g: Grammar, v: Env)
    requires g.Ok() && g.FunctionRule("F") && g.Body("F") == TWICE_TREES && g.RuleOf("F").params == ["D"]
    requires v.Ok() && v.params == [] && Resolved(g, [], v.lvl, START_TREES[0])
    ensures (BodyResolved(g, "F");
             Expand(g, v, START_TREES[0])
             == Group(ExpandAll(g, CallEnv(g, "F", if v.style.Sharing? then ABX else AB, v.style), TWICE_TREES)))
  {
    hide Grammar.Ok, ExpandAll;
    BodyResolved(g, "F");
    assert START_TREES[0] == Call("F", [AB]) && AB in [AB];
    AbExpands(g, v);
    assert Wrapped([AB]) == AB && Passed(v.style, "F", AB) == if v.style.Sharing? then ABX else AB;
  }

  lemma StartExpands(g: Grammar)
    requires g == Sample() && g.Ok() && g.Body("S") == START_TREES && g.Body("F") == TWICE_TREES
    ensures g.PlainRule("S") && WellShared(g, ABX)
    ensures RuleMeaning(g, Sharing, "S") == [Group([ABX, ABX])]
    ensures RuleMeaning(g, Copying, "S") == [Group([AB, Choice([AB, Lit("x")])])]
    ensures SharedAlts(g, ABX) == [Lit("a"), Lit("b"), Lit("x")]
  {
    hide Grammar.Ok, Expand, ExpandAll, Ext, ExtAll, Resolved;
    SampleRules();
    BodyResolved(g, "S");
    BodyResolved(g, "F");
    var call := START_TREES[0];
    assert call in START_TREES;
    CallExpands(g, Env([], None, 1, Sharing));
    CallExpands(g, Env([], None, 1, Copying));
    TwiceExpands(g, CallEnv(g, "F", ABX, Sharing));
    TwiceExpands(g, CallEnv(g, "F", AB, Copying));
    OneExpanded(g, Env([], None, 1, Sharing), call);
    OneExpanded(g, Env([], None, 1, Copying), call);
    assert [Lit("a"), Lit("b")] + [Lit("x")] == [Lit("a"), Lit("b"), Lit("x")];
  }

  lemma OneExpanded(g: Grammar, v: Env, e: Expr)
    requires g.Ok() && v.Ok() && Resolved(g, v.params, v.lvl, e)
    ensures ExpandAll(g, v, [e]) == [Expand(g, v, e)]
  {
  }

  lemma AbExpands(g: Grammar, v: Env)
    requires g.Ok() && v.Ok() && v.params == [] && Resolved(g, [], v.lvl, AB)
    ensures Expand(g, v, AB) == AB && ExpandAll(g, v, [AB]) == [AB]
  {
    hide Grammar.Ok;
    assert Lit("a") in AB.alts && Lit("b") in AB.alts;
    assert ExpandAll(g, v, AB.alts) == AB.alts;
  }

  // ----- what they derive -----

  lemma XIsNoA()
    ensures !CIEquals("a", "x") && !CIEquals("b", "x") && CIEquals("x", "x")
  {
    assert Lower("a")[0] == 'a' && Lower("b")[0] == 'b' && Lower("x")[0] == 'x';
  }

  /** The shared choice takes an x. */
  lemma SharedTakesX(g: Grammar, accepts: (Kind, string) -> bool, toks: seq<Token>, i: nat)
    returns (d: Deriv)
    requires g.Ok() && WellShared(g, ABX) && SharedAlts(g, ABX) == [Lit("a"), Lit("b"), Lit("x")]
    requires i < |toks| && toks[i].text == "x"
    ensures TProves(g, Sharing, accepts, toks, d, TWhole(ABX), i, Match(i + 1))
  {
    hide Grammar.Ok, SharedAlts;
    XIsNoA();
    var a, b, x := Lit("a"), Lit("b"), Lit("x");
    assert [a, b, x][1..] == [b, x] && [b, x][1..] == [x];
    assert TProves(g, Sharing, accepts, toks, Axiom, TWhole(a), i, Fail);
    assert TProves(g, Sharing, accepts, toks, Axiom, TWhole(b), i, Fail);
    assert TProves(g, Sharing, accepts, toks, One(Axiom), TAlts([x]), i, Match(i + 1));
    assert TProves(g, Sharing, accepts, toks, Two(Axiom, i, One(Axiom)), TAlts([b, x]), i, Match(i + 1));
    d := One(Two(Axiom, i, Two(Axiom, i, One(Axiom))));
    assert TProves(g, Sharing, accepts, toks, d.sub, TAlts([a, b, x]), i, Match(i + 1));
  }

  lemma SharingTakesXX(g: Grammar, accepts: (Kind, string) -> bool, toks: seq<Token>)
    requires g.Ok() && g.PlainRule("S") && "S" !in g.overrides && RuleMeaning(g, Sharing, "S") == [Group([ABX, ABX])]
    requires WellShared(g, ABX) && SharedAlts(g, ABX) == [Lit("a"), Lit("b"), Lit("x")]
    requires |toks| == 2 && toks[0].text == toks[1].text == "x"
    ensures Means(g, Sharing, accepts, toks, Ref("S"), 0, Match(2))
  {
    hide Grammar.Ok, SharedAlts, RuleMeaning;
    var s, body := ABX, Group([ABX, ABX]);
    var d0 := SharedTakesX(g, accepts, toks, 0);
    var d1 := SharedTakesX(g, accepts, toks, 1);
    assert [s, s][1..] == [s] && [s][1..] == [] && [body][1..] == [];
    var last := Two(d1, 2, Axiom);
    assert TProves(g, Sharing, accepts, toks, last, TSeq([s]), 1, Match(2));
    var both := Two(d0, 1, last);
    assert TProves(g, Sharing, accepts, toks, both, TSeq([s, s]), 0, Match(2));
    assert TProves(g, Sharing, accepts, toks, Two(One(both), 2, Axiom), TSeq([body]), 0, Match(2));
    assert TProves(g, Sharing, accepts, toks, One(Two(One(both), 2, Axiom)), TWhole(Ref("S")), 0, Match(2));
  }

  lemma CopyingRefusesX(g: Grammar, accepts: (Kind, string) -> bool, toks: seq<Token>)
    requires g.Ok() && g.PlainRule("S") && "S" !in g.overrides
    requires RuleMeaning(g, Copying, "S") == [Group([AB, Choice([AB, Lit("x")])])]
    requires toks != [] && toks[0].text == "x"
    ensures Means(g, Copying, accepts, toks, Ref("S"), 0, Fail)
  {
    hide Grammar.Ok, RuleMeaning;
    XIsNoA();
    var a, b := Lit("a"), Lit("b");
    var items := [AB, Choice([AB, Lit("x")])];
    var none := Two(Axiom, 0, Two(Axiom, 0, Axiom));
    assert [a, b][1..] == [b] && [b][1..] == [];
    assert TProves(g, Copying, accepts, toks, Axiom, TWhole(a), 0, Fail);
    assert TProves(g, Copying, accepts, toks, Axiom, TWhole(b), 0, Fail);
    assert TProves(g, Copying, accepts, toks, Two(Axiom, 0, Axiom), TAlts([b]), 0, Fail);
    assert TProves(g, Copying, accepts, toks, none, TAlts([a, b]), 0, Fail);
    assert TProves(g, Copying, accepts, toks, One(none), TWhole(AB), 0, Fail);
    assert TProves(g, Copying, accepts, toks, One(One(none)), TSeq(items), 0, Fail);
    var group := One(One(One(none)));
    assert TProves(g, Copying, accepts, toks, group, TWhole(Group(items)), 0, Fail);
    assert TProves(g, Copying, accepts, toks, One(group), TSeq([Group(items)]), 0, Fail);
    assert TProves(g, Copying, accepts, toks, One(One(group)), TWhole(Ref("S")), 0, Fail);
  }

  // ----- it makes progress -----

  const CERT := TreeCert(map[Ref("S") := 3, ABX := 1], {})

  lemma SampleDepths(g: Grammar)
    requires g == Sample()
    ensures var alts, body := Choice([Lit("a"), Lit("b"), Lit("x")]), Group([Group([ABX, ABX])]);
            && Depth(g, CERT, alts) == 1 && !Nullable(g, CERT, alts) && Fine(g, CERT, alts)
            && Depth(g, CERT, body) == 3 && !Nullable(g, CERT, body) && Fine(g, CERT, body)
  {
    hide Sample;
    var a, b, x := Lit("a"), Lit("b"), Lit("x");
    assert [a, b, x][1..] == [b, x] && [b, x][1..] == [x] && [x][1..] == [];
    assert AltDepth(g, CERT, [x]) == 0;
    assert AltDepth(g, CERT, [b, x]) == Max(0, AltDepth(g, CERT, [x]));
    assert AltDepth(g, CERT, [a, b, x]) == Max(0, AltDepth(g, CERT, [b, x]));
    var inner := Group([ABX, ABX]);
    assert FirstDepth(g, CERT, [ABX, ABX]) == Max(Depth(g, CERT, ABX), 0);
    assert Depth(g, CERT, inner) == 2;
    assert ABX in [ABX, ABX] && !Nullable(g, CERT, inner) && Fine(g, CERT, inner);
    assert FirstDepth(g, CERT, [inner]) == Max(2, 0);
    assert inner in [inner];
  }

  lemma SampleCertified(g: Grammar)
    requires g == Sample() && g.Ok() && g.Body("S") == START_TREES && g.Body("F") == TWICE_TREES
    ensures TreeProgress(g, CERT)
  {
    hide Depth, Nullable, Fine, Grammar.Ok, RuleMeaning, SharedAlts;
    SampleRules();
    StartExpands(g);
    SampleDepths(g);
    assert CERT.depth.Keys == {Ref("S"), ABX};
    assert IsName(g, Ref("S")) && IsName(g, ABX);
    assert Unrolled(g, Ref("S")) == Group(RuleMeaning(g, Sharing, "S"));
    assert Unrolled(g, ABX) == Choice(SharedAlts(g, ABX));
    assert CertEntry(g, CERT, Ref("S")) && CertEntry(g, CERT, ABX);
  }

  lemma SampleProgressive(g: Grammar)
    requires g == Sample() && g.Ok() && g.Body("S") == START_TREES && g.Body("F") == TWICE_TREES
    ensures Progressive(g)
  {
    hide Grammar.Ok, LeftRecursive, AllRepeatsConsume, TreeProgress, Reached, Sample;
    SampleCertified(g);
    SampleReached(g);
    CertificateSuffices(g, Reached(g), CERT);
  }

  /** The one call creates the one shared choice. */
  lemma CallSites(g: Grammar, v: Env)
    requires g.Ok() && g.FunctionRule("F") && g.Body("F") == TWICE_TREES && g.RuleOf("F").params == ["D"]
    requires v.Ok() && v.params == [] && v.style.Sharing? && Resolved(g, [], v.lvl, START_TREES[0])
    ensures Sites(g, v, START_TREES[0]) == {ABX}
  {
    hide Grammar.Ok, ExpandAll, SitesAll;
    BodyResolved(g, "F");
    assert START_TREES[0] == Call("F", [AB]) && AB in [AB];
    AbExpands(g, v);
    AbSites(g, v);
    TwiceSites(g, CallEnv(g, "F", ABX, Sharing));
    assert Wrapped([AB]) == AB && Passed(Sharing, "F", AB) == ABX;
  }

  lemma SampleSites(g: Grammar)
    requires g == Sample() && g.Ok() && g.Body("S") == START_TREES && g.Body("F") == TWICE_TREES
    ensures g.PlainRule("S") && RuleSites(g, "S") == {ABX}
  {
    hide Grammar.Ok, Resolved, Sites;
    SampleRules();
    BodyResolved(g, "S");
    var v, call := Env([], None, 1, Sharing), START_TREES[0];
    assert call in START_TREES;
    CallSites(g, v);
    assert Init(START_TREES) == [] && SitesAll(g, v, []) == {};
  }

  /** The names are the one plain rule and the one shared choice. */
  lemma SampleReached(g: Grammar)
    requires g == Sample() && g.Ok() && g.Body("S") == START_TREES && g.Body("F") == TWICE_TREES
    ensures Reached(g) == {Ref("S"), ABX}
  {
    hide Grammar.Ok, RuleSites;
    SampleRules();
    SampleSites(g);
    assert !g.PlainRule("F");
    assert forall r :: r in g.live && g.PlainRule(r) <==> r == "S";
    assert RuleNames(g) == {Ref("S")};
  }

  lemma AbSites(g: Grammar, v: Env)
    requires g.Ok() && v.Ok() && v.params == [] && Resolved(g, [], v.lvl, AB)
    ensures SitesAll(g, v, [AB]) == {}
  {
    hide Grammar.Ok;
    assert Lit("a") in AB.alts && Lit("b") in AB.alts;
    assert Init(AB.alts) == [Lit("a")] && Init([Lit("a")]) == [] && Init([AB]) == [];
    assert SitesAll(g, v, [Lit("a")]) == {} && SitesAll(g, v, AB.alts) == {};
  }

  lemma TwiceSites(g: Grammar, v: Env)
    requires g.Ok() && v.Ok() && v.params == ["D"] && forall e :: e in TWICE_TREES ==> Resolved(g, v.params, v.lvl, e)
    ensures SitesAll(g, v, TWICE_TREES) == {}
  {
    hide Grammar.Ok;
    var d, choice := Ref("D"), TWICE_TREES[1];
    assert d in TWICE_TREES && choice in TWICE_TREES;
    assert choice.alts == [d, Lit("x")] && d in choice.alts && Lit("x") in choice.alts;
    assert Init(choice.alts) == [d] && Init([d]) == [] && Init(TWICE_TREES) == [d];
    assert SitesAll(g, v, [d]) == {} && SitesAll(g, v, choice.alts) == {};
  }

  // ----- compiled and run -----

  /** On x x: the notation refuses it at the first token, and the compiled grammar accepts it. */
  lemma SharedChoiceIsExtended(accepts: (Kind, string) -> bool)
    ensures var g, toks := Sample(), [Token("x", 0), Token("x", 2)];
            && g.Ok() && g.Acyclic() && g.Plain("S") && Progressive(g)
            && (forall o :: Means(g, Sharing, accepts, toks, Ref("S"), 0, o) <==> o == Match(2))
            && (forall o :: Means(g, Copying, accepts, toks, Ref("S"), 0, o) <==> o == Fail)
  {
    hide Grammar.Ok, Grammar.Acyclic, Progressive, RuleMeaning, SharedAlts;
    var g, toks := Sample(), [Token("x", 0), Token("x", 2)];
    SampleOk();
    SampleRules();
    SampleProgressive(g);
    StartExpands(g);
    SharingTakesXX(g, accepts, toks);
    CopyingRefusesX(g, accepts, toks);
    MeansUnique(g, Sharing, accepts, toks, Ref("S"), 0, Match(2));
    MeansUnique(g, Copying, accepts, toks, Ref("S"), 0, Fail);
  }

  /** The compiler and the engine, on the tokens of the rules and of the statement. */
  method AcceptWhatTheNotationRefuses(accepts: (Kind, string) -> bool) returns (result: Option<ParseResult>)
    ensures result.Some? && Leaves(result.value) == [Token("x", 0), Token("x", 2)]
  {
    hide Grammar.Ok, Grammar.Acyclic, Progressive, Means;
    var toks := [Token("x", 0), Token("x", 2)];
    SharedChoiceIsExtended(accepts);
    var thrown;
    result, thrown := ParseStatement(Sample(), [], "S", accepts, (_, _) => false, toks);
  }
}
