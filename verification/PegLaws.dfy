/** The notation and its meaning, operator by operator. */
module PegLaws {
  import opened Options
  import opened PegSyntax
  import opened PegGraph
  import opened Characters
  import opened Tokens
  import opened PegMatcher
  import opened PegMeaning

  // ----- how the operators are read -----

  /** `?` marks an option, `+` a repetition, and `*` an optional repetition. */
  lemma SuffixRead(s: string)
    ensures Parse([Literal(s), Operator('?')]) == Some([Opt(Lit(s))])
    ensures Parse([Literal(s), Operator('+')]) == Some([Plus(Lit(s))])
    ensures Parse([Literal(s), Operator('*')]) == Some([Opt(Plus(Lit(s)))])
  {
    OneItem(Opt(Lit(s)), [Literal(s), Operator('?')]);
    OneItem(Plus(Lit(s)), [Literal(s), Operator('+')]);
    OneItem(Opt(Plus(Lit(s))), [Literal(s), Operator('*')]);
  }

  lemma OneItem(e: Expr, ts: seq<PegToken>)
    requires Printable(e) && Print(e) == ts
    ensures Parse(ts) == Some([e])
  {
    assert Init([e]) == [] && [] + ts == ts;
    ParsePrint([e]);
  }

  /** A slash joins the items on its two sides; without it they are read one after the other. */
  lemma SlashRead(a: string, b: string)
    ensures Parse([Literal(a), Operator('/'), Literal(b)]) == Some([Choice([Lit(a), Lit(b)])])
    ensures Parse([Literal(a), Literal(b)]) == Some([Lit(a), Lit(b)])
  {
    var es := [Lit(a), Lit(b)];
    assert Init(es) == [Lit(a)] && Init([Lit(a)]) == [];
    assert PrintAlts([Lit(a)]) == [Literal(a)] && PrintAlts(es) == [Literal(a), Operator('/'), Literal(b)];
    OneItem(Choice(es), [Literal(a), Operator('/'), Literal(b)]);
    assert PrintSeq([Lit(a)]) == [Literal(a)] && PrintSeq(es) == [Literal(a), Literal(b)];
    ParsePrint(es);
  }

  /** Brackets make one item of those between them, behind a name the call of a function. */
  lemma BracketRead(f: string, a: string)
    requires f != ""
    ensures Parse([Operator('('), Literal(a), Operator(')')]) == Some([Group([Lit(a)])])
    ensures Parse([FunctionCall(f), Literal(a), Operator(')')]) == Some([Call(f, [Lit(a)])])
  {
    assert Init([Lit(a)]) == [] && PrintSeq([Lit(a)]) == [Literal(a)];
    OneItem(Group([Lit(a)]), [Operator('('), Literal(a), Operator(')')]);
    OneItem(Call(f, [Lit(a)]), [FunctionCall(f), Literal(a), Operator(')')]);
  }

  // ----- what they mean -----

  /** A literal takes one token that is equal but for case. */
  lemma LiteralMeans(g: Grammar, style: Style, accepts: (Kind, string) -> bool, toks: seq<Token>, s: string, i: nat,
                     o: Outcome)
    requires g.Ok()
    ensures Means(g, style, accepts, toks, Lit(s), i, o)
            <==> o == if i < |toks| && CIEquals(s, toks[i].text) then Match(i + 1) else Fail
  {
    if o == if i < |toks| && CIEquals(s, toks[i].text) then Match(i + 1) else Fail {
      assert TProves(g, style, accepts, toks, Axiom, TWhole(Lit(s)), i, o);
    }
  }

  /** A sequence fails where its first item fails, and goes on behind it otherwise. */
  lemma SequenceMeans(g: Grammar, style: Style, accepts: (Kind, string) -> bool, toks: seq<Token>, es: seq<Expr>,
                      i: nat, o: Outcome)
    requires g.Ok()
    ensures es == [] ==> (Means(g, style, accepts, toks, Group(es), i, o) <==> o == Match(i))
    ensures es != [] ==>
              (Means(g, style, accepts, toks, Group(es), i, o)
               <==> (o == Fail && Means(g, style, accepts, toks, es[0], i, Fail))
                    || exists j: nat :: Means(g, style, accepts, toks, es[0], i, Match(j))
                         && Means(g, style, accepts, toks, Group(es[1..]), j, o))
  {
    hide Grammar.Ok;
    if es == [] {
      if Means(g, style, accepts, toks, Group(es), i, o) {
        var d :| TProves(g, style, accepts, toks, d, TWhole(Group(es)), i, o);
        assert TProves(g, style, accepts, toks, d.sub, TSeq(es), i, o);
      }
      if o == Match(i) {
        assert TProves(g, style, accepts, toks, Axiom, TSeq(es), i, o);
        assert TProves(g, style, accepts, toks, One(Axiom), TWhole(Group(es)), i, o);
      }
    } else {
      if Means(g, style, accepts, toks, Group(es), i, o) {
        var d :| TProves(g, style, accepts, toks, d, TWhole(Group(es)), i, o);
        assert TProves(g, style, accepts, toks, d.sub, TSeq(es), i, o);
        if d.sub.One? { assert TProves(g, style, accepts, toks, d.sub.sub, TWhole(es[0]), i, Fail); }
        if d.sub.Two? {
          assert TProves(g, style, accepts, toks, d.sub.first, TWhole(es[0]), i, Match(d.sub.mid));
          assert TProves(g, style, accepts, toks, d.sub.second, TSeq(es[1..]), d.sub.mid, o);
          assert TProves(g, style, accepts, toks, One(d.sub.second), TWhole(Group(es[1..])), d.sub.mid, o);
          assert Means(g, style, accepts, toks, es[0], i, Match(d.sub.mid));
        }
      }
      if o == Fail && Means(g, style, accepts, toks, es[0], i, Fail) {
        var d :| TProves(g, style, accepts, toks, d, TWhole(es[0]), i, Fail);
        assert TProves(g, style, accepts, toks, One(d), TSeq(es), i, o);
        assert TProves(g, style, accepts, toks, One(One(d)), TWhole(Group(es)), i, o);
      }
      if j: nat :| Means(g, style, accepts, toks, es[0], i, Match(j))
                   && Means(g, style, accepts, toks, Group(es[1..]), j, o) {
        var d :| TProves(g, style, accepts, toks, d, TWhole(es[0]), i, Match(j));
        var e :| TProves(g, style, accepts, toks, e, TWhole(Group(es[1..])), j, o);
        assert TProves(g, style, accepts, toks, e.sub, TSeq(es[1..]), j, o);
        assert TProves(g, style, accepts, toks, Two(d, j, e.sub), TSeq(es), i, o);
        assert TProves(g, style, accepts, toks, One(Two(d, j, e.sub)), TWhole(Group(es)), i, o);
      }
    }
  }

  /** A choice is its first alternative where that matches, and the rest where it fails. */
  lemma ChoiceMeans(g: Grammar, style: Style, accepts: (Kind, string) -> bool, toks: seq<Token>, es: seq<Expr>,
                    i: nat, o: Outcome)
    requires g.Ok()
    ensures es == [] ==> (Means(g, style, accepts, toks, Choice(es), i, o) <==> o == Fail)
    ensures es != [] ==>
              (Means(g, style, accepts, toks, Choice(es), i, o)
               <==> (o.Match? && Means(g, style, accepts, toks, es[0], i, o))
                    || (Means(g, style, accepts, toks, es[0], i, Fail)
                        && Means(g, style, accepts, toks, Choice(es[1..]), i, o)))
  {
    hide Grammar.Ok;
    if es == [] {
      if Means(g, style, accepts, toks, Choice(es), i, o) {
        var d :| TProves(g, style, accepts, toks, d, TWhole(Choice(es)), i, o);
        assert TProves(g, style, accepts, toks, d.sub, TAlts(es), i, o);
      }
      if o == Fail {
        assert TProves(g, style, accepts, toks, Axiom, TAlts(es), i, o);
        assert TProves(g, style, accepts, toks, One(Axiom), TWhole(Choice(es)), i, o);
      }
    } else {
      if Means(g, style, accepts, toks, Choice(es), i, o) {
        var d :| TProves(g, style, accepts, toks, d, TWhole(Choice(es)), i, o);
        assert TProves(g, style, accepts, toks, d.sub, TAlts(es), i, o);
        if d.sub.One? { assert TProves(g, style, accepts, toks, d.sub.sub, TWhole(es[0]), i, o); }
        if d.sub.Two? {
          assert TProves(g, style, accepts, toks, d.sub.first, TWhole(es[0]), i, Fail);
          assert TProves(g, style, accepts, toks, d.sub.second, TAlts(es[1..]), i, o);
          assert TProves(g, style, accepts, toks, One(d.sub.second), TWhole(Choice(es[1..])), i, o);
        }
      }
      if o.Match? && Means(g, style, accepts, toks, es[0], i, o) {
        var d :| TProves(g, style, accepts, toks, d, TWhole(es[0]), i, o);
        assert TProves(g, style, accepts, toks, One(d), TAlts(es), i, o);
        assert TProves(g, style, accepts, toks, One(One(d)), TWhole(Choice(es)), i, o);
      }
      if Means(g, style, accepts, toks, es[0], i, Fail) && Means(g, style, accepts, toks, Choice(es[1..]), i, o) {
        var d :| TProves(g, style, accepts, toks, d, TWhole(es[0]), i, Fail);
        var e :| TProves(g, style, accepts, toks, e, TWhole(Choice(es[1..])), i, o);
        assert TProves(g, style, accepts, toks, e.sub, TAlts(es[1..]), i, o);
        assert TProves(g, style, accepts, toks, Two(d, i, e.sub), TAlts(es), i, o);
        assert TProves(g, style, accepts, toks, One(Two(d, i, e.sub)), TWhole(Choice(es)), i, o);
      }
    }
  }

  /** An option is its element where that matches, and takes nothing where it fails. */
  lemma OptionMeans(g: Grammar, style: Style, accepts: (Kind, string) -> bool, toks: seq<Token>, x: Expr, i: nat,
                    o: Outcome)
    requires g.Ok()
    ensures Means(g, style, accepts, toks, Opt(x), i, o)
            <==> (o.Match? && Means(g, style, accepts, toks, x, i, o))
                 || (o == Match(i) && Means(g, style, accepts, toks, x, i, Fail))
  {
    hide Grammar.Ok;
    if Means(g, style, accepts, toks, Opt(x), i, o) {
      var d :| TProves(g, style, accepts, toks, d, TWhole(Opt(x)), i, o);
      assert TProves(g, style, accepts, toks, d.sub, TWhole(x), i, o)
          || TProves(g, style, accepts, toks, d.sub, TWhole(x), i, Fail);
    }
    if o.Match? && Means(g, style, accepts, toks, x, i, o) {
      var d :| TProves(g, style, accepts, toks, d, TWhole(x), i, o);
      assert TProves(g, style, accepts, toks, One(d), TWhole(Opt(x)), i, o);
    }
    if o == Match(i) && Means(g, style, accepts, toks, x, i, Fail) {
      var d :| TProves(g, style, accepts, toks, d, TWhole(x), i, Fail);
      assert TProves(g, style, accepts, toks, One(d), TWhole(Opt(x)), i, o);
    }
  }

  /** A repetition fails where its element fails, and goes on behind it as long as the element matches. */
  lemma RepetitionMeans(g: Grammar, style: Style, accepts: (Kind, string) -> bool, toks: seq<Token>, x: Expr, i: nat,
                        o: Outcome)
    requires g.Ok()
    ensures Means(g, style, accepts, toks, Plus(x), i, o)
            <==> (o == Fail && Means(g, style, accepts, toks, x, i, Fail))
                 || exists j: nat :: Means(g, style, accepts, toks, x, i, Match(j))
                      && if Means(g, style, accepts, toks, x, j, Fail) then o == Match(j)
                         else o.Match? && Means(g, style, accepts, toks, Plus(x), j, o)
  {
    hide Grammar.Ok, Means;
    if Means(g, style, accepts, toks, Plus(x), i, o) { RepetitionGoes(g, style, accepts, toks, x, i, o); }
    if o == Fail && Means(g, style, accepts, toks, x, i, Fail) { NoRepetition(g, style, accepts, toks, x, i); }
    if j: nat :| Means(g, style, accepts, toks, x, i, Match(j))
                 && if Means(g, style, accepts, toks, x, j, Fail) then o == Match(j)
                    else o.Match? && Means(g, style, accepts, toks, Plus(x), j, o) {
      OneRepetition(g, style, accepts, toks, x, i, j, o);
    }
  }

  lemma RepetitionGoes(g: Grammar, style: Style, accepts: (Kind, string) -> bool, toks: seq<Token>, x: Expr, i: nat,
                       o: Outcome)
    requires g.Ok() && Means(g, style, accepts, toks, Plus(x), i, o)
    ensures (o == Fail && Means(g, style, accepts, toks, x, i, Fail))
            || exists j: nat :: Means(g, style, accepts, toks, x, i, Match(j))
                 && if Means(g, style, accepts, toks, x, j, Fail) then o == Match(j)
                    else o.Match? && Means(g, style, accepts, toks, Plus(x), j, o)
  {
    hide Grammar.Ok;
    var d :| TProves(g, style, accepts, toks, d, TWhole(Plus(x)), i, o);
    if d.One? { assert TProves(g, style, accepts, toks, d.sub, TWhole(x), i, Fail); }
    if d.Two? {
      assert TProves(g, style, accepts, toks, d.first, TWhole(x), i, Match(d.mid));
      assert Means(g, style, accepts, toks, x, i, Match(d.mid));
      StarGoesOn(g, style, accepts, toks, d.second, x, d.mid, o);
    }
  }

  lemma NoRepetition(g: Grammar, style: Style, accepts: (Kind, string) -> bool, toks: seq<Token>, x: Expr, i: nat)
    requires g.Ok() && Means(g, style, accepts, toks, x, i, Fail)
    ensures Means(g, style, accepts, toks, Plus(x), i, Fail)
  {
    hide Grammar.Ok;
    var d :| TProves(g, style, accepts, toks, d, TWhole(x), i, Fail);
    assert TProves(g, style, accepts, toks, One(d), TWhole(Plus(x)), i, Fail);
  }

  lemma OneRepetition(g: Grammar, style: Style, accepts: (Kind, string) -> bool, toks: seq<Token>, x: Expr, i: nat,
                      j: nat, o: Outcome)
    requires g.Ok() && Means(g, style, accepts, toks, x, i, Match(j))
    requires if Means(g, style, accepts, toks, x, j, Fail) then o == Match(j)
             else o.Match? && Means(g, style, accepts, toks, Plus(x), j, o)
    ensures Means(g, style, accepts, toks, Plus(x), i, o)
  {
    hide Grammar.Ok;
    var d :| TProves(g, style, accepts, toks, d, TWhole(x), i, Match(j));
    if Means(g, style, accepts, toks, x, j, Fail) {
      var e :| TProves(g, style, accepts, toks, e, TWhole(x), j, Fail);
      assert TProves(g, style, accepts, toks, One(e), TStar(x), j, o);
      assert TProves(g, style, accepts, toks, Two(d, j, One(e)), TWhole(Plus(x)), i, o);
    } else {
      var e :| TProves(g, style, accepts, toks, e, TWhole(Plus(x)), j, o);
      PlusIsStar(g, style, accepts, toks, e, x, j, o);
      assert TProves(g, style, accepts, toks, Two(d, j, e), TWhole(Plus(x)), i, o);
    }
  }

  lemma PlusIsStar(g: Grammar, style: Style, accepts: (Kind, string) -> bool, toks: seq<Token>, d: Deriv, x: Expr,
                   j: nat, o: Outcome)
    requires g.Ok() && o.Match? && TProves(g, style, accepts, toks, d, TWhole(Plus(x)), j, o)
    ensures TProves(g, style, accepts, toks, d, TStar(x), j, o)
  {
    hide Grammar.Ok;
  }

  lemma StarGoesOn(g: Grammar, style: Style, accepts: (Kind, string) -> bool, toks: seq<Token>, d: Deriv, x: Expr,
                   j: nat, o: Outcome)
    requires g.Ok() && TProves(g, style, accepts, toks, d, TStar(x), j, o)
    ensures if Means(g, style, accepts, toks, x, j, Fail) then o == Match(j)
            else o.Match? && Means(g, style, accepts, toks, Plus(x), j, o)
  {
    hide Grammar.Ok;
    if d.One? {
      assert Means(g, style, accepts, toks, x, j, Fail);
    } else {
      assert TProves(g, style, accepts, toks, d, TWhole(Plus(x)), j, o);
      assert Means(g, style, accepts, toks, x, j, Match(d.mid));
      MeansUnique(g, style, accepts, toks, x, j, Match(d.mid));
      StarMatches(g, style, accepts, toks, d, x, j, o);
    }
  }

  lemma {:induction false} StarMatches(g: Grammar, style: Style, accepts: (Kind, string) -> bool, toks: seq<Token>,
                                       d: Deriv, x: Expr, j: nat, o: Outcome)
    requires g.Ok() && TProves(g, style, accepts, toks, d, TStar(x), j, o)
    ensures o.Match?
    decreases d
  {
    hide Grammar.Ok;
    if d.Two? { StarMatches(g, style, accepts, toks, d.second, x, d.mid, o); }
  }
}
