/** Parse results: a match has one result, and on a compiled graph that is the result its trees say. */
module PegResults {
  import opened Options
  import opened PegSyntax
  import opened PegGraph
  import opened PegSimulation
  import opened Characters
  import opened Tokens
  import opened PegMatcher
  import opened PegMeaning

  // ----- a result belongs to a match -----

  /** Where the result k of a row stands. */
  function At(i: nat, rs: seq<ParseResult>, k: nat): nat
    requires k <= |rs|
  {
    i + |AllLeaves(rs[..k])|
  }

  lemma AtNext(i: nat, rs: seq<ParseResult>, k: nat)
    requires k < |rs|
    ensures At(i, rs, k + 1) == At(i, rs, k) + |Leaves(rs[k])|
  {
    LeavesOfRow(rs, k);
  }

  lemma AtEnd(i: nat, rs: seq<ParseResult>)
    ensures At(i, rs, 0) == i && At(i, rs, |rs|) == i + |AllLeaves(rs)|
  {
    assert rs[..|rs|] == rs;
  }

  /** A result is the result of a match that covers as many tokens as it has leaves. */
  lemma {:induction false} MirrorsMatch(nodes: seq<Node>, accepts: (Kind, string) -> bool, toks: seq<Token>, id: nat,
                                        i: nat, r: ParseResult)
    requires Mirrors(nodes, accepts, toks, id, i, r)
    ensures Derives(nodes, accepts, toks, Whole(id), i, Match(i + |Leaves(r)|))
    decreases r, 1
  {
    hide Proves, Derives, MirrorsRow;
    match nodes[id] {
      case ListMatcher(cs) =>
        RowMatch(nodes, accepts, toks, cs, i, r.children);
        AtEnd(i, r.children);
        SeqFrom(nodes, accepts, toks, cs, i, r.children, 0);
        assert cs[0..] == cs;
        WholeFromList(nodes, accepts, toks, id, i, Match(i + |Leaves(r)|));
      case ChoiceMatcher(cs) =>
        MirrorsMatch(nodes, accepts, toks, cs[r.index], i, r.selected);
        AltsFrom(nodes, accepts, toks, cs, i, r.index, 0, i + |Leaves(r)|);
        assert cs[0..] == cs;
        WholeFromChoice(nodes, accepts, toks, id, i, Match(i + |Leaves(r)|));
      case OptionalMatcher(c) =>
        if r.child.Some? { MirrorsMatch(nodes, accepts, toks, c, i, r.child.value); }
        WholeFromOptional(nodes, accepts, toks, id, i, if r.child.None? then Fail else Match(i + |Leaves(r)|));
      case RepeatMatcher(c) =>
        var rs := r.children;
        RowMatch(nodes, accepts, toks, Copies(c, |rs|), i, rs);
        AtEnd(i, rs);
        AtNext(i, rs, 0);
        StarFrom(nodes, accepts, toks, c, i, rs, 1);
        RepeatGoes(nodes, accepts, toks, id, i, At(i, rs, 1));
      case _ => TakenMatch(nodes, accepts, toks, id, i);
    }
  }

  lemma TakenMatch(nodes: seq<Node>, accepts: (Kind, string) -> bool, toks: seq<Token>, id: nat, i: nat)
    requires id < |nodes| && (nodes[id].KeywordMatcher? || nodes[id].Terminal?)
    requires i < |toks| && Takes(nodes[id], accepts, toks[i].text)
    ensures Derives(nodes, accepts, toks, Whole(id), i, Match(i + 1))
  {
    assert Proves(nodes, accepts, toks, Axiom, Whole(id), i, Match(i + 1));
  }

  lemma {:induction false} RowMatch(nodes: seq<Node>, accepts: (Kind, string) -> bool, toks: seq<Token>,
                                    ids: seq<nat>, i: nat, rs: seq<ParseResult>)
    requires MirrorsRow(nodes, accepts, toks, ids, i, rs)
    ensures |rs| <= |ids|
    ensures forall k :: 0 <= k < |rs| ==>
              Derives(nodes, accepts, toks, Whole(ids[k]), At(i, rs, k), Match(At(i, rs, k + 1)))
    decreases rs, 0
  {
    hide Derives, Mirrors;
    forall k | 0 <= k < |rs|
      ensures Derives(nodes, accepts, toks, Whole(ids[k]), At(i, rs, k), Match(At(i, rs, k + 1)))
    {
      MirrorsMatch(nodes, accepts, toks, ids[k], At(i, rs, k), rs[k]);
      AtNext(i, rs, k);
    }
  }

  lemma {:induction false} SeqFrom(nodes: seq<Node>, accepts: (Kind, string) -> bool, toks: seq<Token>, ids: seq<nat>,
                                   i: nat, rs: seq<ParseResult>, k: nat)
    requires k <= |rs| == |ids|
    requires forall m :: 0 <= m < |rs| ==>
               Derives(nodes, accepts, toks, Whole(ids[m]), At(i, rs, m), Match(At(i, rs, m + 1)))
    ensures Derives(nodes, accepts, toks, SeqOf(ids[k..]), At(i, rs, k), Match(At(i, rs, |rs|)))
    decreases |rs| - k
  {
    hide Derives;
    if k == |rs| {
      NothingLeft(nodes, accepts, toks, At(i, rs, k));
    } else {
      SeqFrom(nodes, accepts, toks, ids, i, rs, k + 1);
      assert ids[k..][1..] == ids[k + 1..];
      SeqGoes(nodes, accepts, toks, ids[k..], At(i, rs, k), At(i, rs, k + 1));
    }
  }

  lemma {:induction false} AltsFrom(nodes: seq<Node>, accepts: (Kind, string) -> bool, toks: seq<Token>,
                                    ids: seq<nat>, i: nat, n: nat, k: nat, j: nat)
    requires k <= n < |ids| && Derives(nodes, accepts, toks, Whole(ids[n]), i, Match(j))
    requires forall m :: 0 <= m < n ==> Derives(nodes, accepts, toks, Whole(ids[m]), i, Fail)
    ensures Derives(nodes, accepts, toks, AltsOf(ids[k..]), i, Match(j))
    decreases n - k
  {
    hide Derives;
    if k == n {
      AltsStops(nodes, accepts, toks, ids[k..], i, j);
    } else {
      AltsFrom(nodes, accepts, toks, ids, i, n, k + 1, j);
      assert ids[k..][1..] == ids[k + 1..];
      AltsGoes(nodes, accepts, toks, ids[k..], i);
    }
  }

  lemma {:induction false} StarFrom(nodes: seq<Node>, accepts: (Kind, string) -> bool, toks: seq<Token>, c: nat,
                                    i: nat, rs: seq<ParseResult>, k: nat)
    requires k <= |rs| && Derives(nodes, accepts, toks, Whole(c), At(i, rs, |rs|), Fail)
    requires forall m :: 0 <= m < |rs| ==>
               Derives(nodes, accepts, toks, Whole(Copies(c, |rs|)[m]), At(i, rs, m), Match(At(i, rs, m + 1)))
    ensures Derives(nodes, accepts, toks, StarOf(c), At(i, rs, k), Match(At(i, rs, |rs|)))
    decreases |rs| - k
  {
    hide Derives;
    if k == |rs| {
      StarStops(nodes, accepts, toks, c, At(i, rs, k));
    } else {
      StarFrom(nodes, accepts, toks, c, i, rs, k + 1);
      assert Copies(c, |rs|)[k] == c;
      StarGoes(nodes, accepts, toks, c, At(i, rs, k), At(i, rs, k + 1));
    }
  }

  // ----- a matcher has at most one result at a token -----

  lemma NotBoth(nodes: seq<Node>, accepts: (Kind, string) -> bool, toks: seq<Token>, id: nat, i: nat, r: ParseResult)
    requires Mirrors(nodes, accepts, toks, id, i, r)
    ensures !Derives(nodes, accepts, toks, Whole(id), i, Fail)
  {
    MirrorsMatch(nodes, accepts, toks, id, i, r);
    DerivesUnique(nodes, accepts, toks, Whole(id), i, Match(i + |Leaves(r)|));
  }

  lemma {:induction false} MirrorsUnique(nodes: seq<Node>, accepts: (Kind, string) -> bool, toks: seq<Token>, id: nat,
                                         i: nat, r: ParseResult, r': ParseResult)
    requires Mirrors(nodes, accepts, toks, id, i, r) && Mirrors(nodes, accepts, toks, id, i, r')
    ensures r == r'
    decreases r, 1
  {
    hide Derives, MirrorsRow;
    match nodes[id] {
      case ListMatcher(cs) => RowUnique(nodes, accepts, toks, cs, cs, i, r.children, r'.children);
      case ChoiceMatcher(cs) =>
        NotBoth(nodes, accepts, toks, cs[r.index], i, r.selected);
        NotBoth(nodes, accepts, toks, cs[r'.index], i, r'.selected);
        assert r.index == r'.index;
        MirrorsUnique(nodes, accepts, toks, cs[r.index], i, r.selected, r'.selected);
      case OptionalMatcher(c) =>
        if r.child.Some? { NotBoth(nodes, accepts, toks, c, i, r.child.value); }
        if r'.child.Some? { NotBoth(nodes, accepts, toks, c, i, r'.child.value); }
        if r.child.Some? { MirrorsUnique(nodes, accepts, toks, c, i, r.child.value, r'.child.value); }
      case RepeatMatcher(c) =>
        var rs, rs' := r.children, r'.children;
        var ids, ids' := Copies(c, |rs|), Copies(c, |rs'|);
        RowUnique(nodes, accepts, toks, ids, ids', i, rs, rs');
        if |rs| < |rs'| { NotLonger(nodes, accepts, toks, c, i, rs, rs'); }
        if |rs'| < |rs| { NotLonger(nodes, accepts, toks, c, i, rs', rs); }
        assert rs == rs[..|rs|] && rs' == rs'[..|rs'|];
      case _ =>
    }
  }

  /** A repetition does not go on where the element fails. */
  lemma NotLonger(nodes: seq<Node>, accepts: (Kind, string) -> bool, toks: seq<Token>, c: nat, i: nat,
                  rs: seq<ParseResult>, rs': seq<ParseResult>)
    requires |rs| < |rs'| && rs == rs'[..|rs|] && MirrorsRow(nodes, accepts, toks, Copies(c, |rs'|), i, rs')
    ensures !Derives(nodes, accepts, toks, Whole(c), i + |AllLeaves(rs)|, Fail)
  {
    hide Derives, Mirrors, AllLeaves;
    assert Copies(c, |rs'|)[|rs|] == c;
    NotBoth(nodes, accepts, toks, c, i + |AllLeaves(rs'[..|rs|])|, rs'[|rs|]);
  }

  /** Two rows of the same matchers agree as far as both go. */
  lemma {:induction false} RowUnique(nodes: seq<Node>, accepts: (Kind, string) -> bool, toks: seq<Token>,
                                     ids: seq<nat>, ids': seq<nat>, i: nat, rs: seq<ParseResult>,
                                     rs': seq<ParseResult>)
    requires MirrorsRow(nodes, accepts, toks, ids, i, rs) && MirrorsRow(nodes, accepts, toks, ids', i, rs')
    requires forall k :: 0 <= k < |rs| && k < |rs'| ==> ids[k] == ids'[k]
    ensures var n := if |rs| < |rs'| then |rs| else |rs'|; rs[..n] == rs'[..n]
    decreases rs, 0
  {
    hide Mirrors, AllLeaves;
    var n := if |rs| < |rs'| then |rs| else |rs'|;
    for k := 0 to n
      invariant rs[..k] == rs'[..k]
    {
      MirrorsUnique(nodes, accepts, toks, ids[k], i + |AllLeaves(rs[..k])|, rs[k], rs'[k]);
      assert rs[..k + 1] == rs[..k] + [rs[k]] && rs'[..k + 1] == rs'[..k] + [rs'[k]];
    }
  }

  // ----- results of trees -----

  /** The result that a tree gives at token i.  A name of a rule gives the list of its body, a shared choice the index
      among all its alternatives. */
  ghost predicate TMirrors(g: Grammar, style: Style, accepts: (Kind, string) -> bool, toks: seq<Token>, e: Expr,
                           i: nat, r: ParseResult)
    requires g.Ok()
    decreases r, 1
  {
    match e
    case Lit(s) => i < |toks| && CIEquals(s, toks[i].text) && r == TokenResult(toks[i])
    case Ref(n) =>
      if n in g.overrides then
        i < |toks| && accepts(g.overrides[n], toks[i].text) && r == TokenResult(toks[i])
      else
        g.PlainRule(n) && r.ListResult? && |r.children| == |RuleMeaning(g, style, n)|
        && TMirrorsRow(g, style, accepts, toks, RuleMeaning(g, style, n), i, r.children)
    case Call(_, _) => false
    case Group(es) => r.ListResult? && |r.children| == |es| && TMirrorsRow(g, style, accepts, toks, es, i, r.children)
    case Choice(es) => TMirrorsChoice(g, style, accepts, toks, es, i, r)
    case Opt(x) =>
      r.OptionalResult?
      && (match r.child
          case None => Means(g, style, accepts, toks, x, i, Fail)
          case Some(y) => TMirrors(g, style, accepts, toks, x, i, y))
    case Plus(x) =>
      && r.RepeatResult? && r.children != []
      && TMirrorsRow(g, style, accepts, toks, Same(x, |r.children|), i, r.children)
      && Means(g, style, accepts, toks, x, i + |AllLeaves(r.children)|, Fail)
    case Shared(_, _) => WellShared(g, e) && TMirrorsChoice(g, style, accepts, toks, SharedAlts(g, e), i, r)
  }

  ghost predicate TMirrorsRow(g: Grammar, style: Style, accepts: (Kind, string) -> bool, toks: seq<Token>,
                              es: seq<Expr>, i: nat, rs: seq<ParseResult>)
    requires g.Ok()
    decreases rs, 0
  {
    && |rs| <= |es|
    && forall k :: 0 <= k < |rs| ==> TMirrors(g, style, accepts, toks, es[k], i + |AllLeaves(rs[..k])|, rs[k])
  }

  /** The first alternative that matches. */
  ghost predicate TMirrorsChoice(g: Grammar, style: Style, accepts: (Kind, string) -> bool, toks: seq<Token>,
                                 es: seq<Expr>, i: nat, r: ParseResult)
    requires g.Ok()
    decreases r, 0
  {
    && r.ChoiceResult? && r.index < |es|
    && TMirrors(g, style, accepts, toks, es[r.index], i, r.selected)
    && forall k :: 0 <= k < r.index ==> Means(g, style, accepts, toks, es[k], i, Fail)
  }

  function Same(e: Expr, n: nat): seq<Expr> {
    seq(n, _ => e)
  }

  lemma SameOutcome(g: Grammar, nodes: seq<Node>, cache: Table, accepts: (Kind, string) -> bool, toks: seq<Token>,
                    id: nat, e: Expr, i: nat, o: Outcome)
    requires g.Ok() && CacheOk(g, nodes, cache, {}, {}) && Rep(nodes, cache, {}, id, e)
    ensures Derives(nodes, accepts, toks, Whole(id), i, o) <==> Means(g, Sharing, accepts, toks, e, i, o)
  {
    hide CacheOk, Grammar.Ok, Proves, TProves, Rep;
    forall d ensures Proves(nodes, accepts, toks, d, Whole(id), i, o)
                     <==> TProves(g, Sharing, accepts, toks, d, TWhole(e), i, o)
    {
      SameDerivations(g, nodes, cache, accepts, toks, d, Whole(id), TWhole(e), i, o);
    }
  }

  /** A compiled graph gives the results of the trees it stands for. */
  lemma {:induction false} SameResults(g: Grammar, nodes: seq<Node>, cache: Table, accepts: (Kind, string) -> bool,
                                       toks: seq<Token>, id: nat, e: Expr, i: nat, r: ParseResult)
    requires g.Ok() && CacheOk(g, nodes, cache, {}, {}) && Rep(nodes, cache, {}, id, e)
    ensures Mirrors(nodes, accepts, toks, id, i, r) <==> TMirrors(g, Sharing, accepts, toks, e, i, r)
    decreases r, 2
  {
    hide Grammar.Ok, Means, Derives, MirrorsRow, TMirrorsRow;
    match e
    case Lit(s) =>
    case Ref(n) =>
      assert CacheEntry(g, nodes, cache, {}, {}, n);
      if n !in g.overrides && r.ListResult? {
        SameRow(g, nodes, cache, accepts, toks, nodes[id].children, RuleMeaning(g, Sharing, n), i, r.children);
      }
    case Group(es) =>
      if r.ListResult? { SameRow(g, nodes, cache, accepts, toks, nodes[id].children, es, i, r.children); }
    case Choice(es) => SameChoice(g, nodes, cache, accepts, toks, id, es, i, r);
    case Opt(x) =>
      SameOutcome(g, nodes, cache, accepts, toks, nodes[id].child, x, i, Fail);
      if r.OptionalResult? && r.child.Some? {
        SameResults(g, nodes, cache, accepts, toks, nodes[id].child, x, i, r.child.value);
      }
    case Plus(x) =>
      if r.RepeatResult? {
        var n := |r.children|;
        forall k | 0 <= k < n ensures Rep(nodes, cache, {}, Copies(nodes[id].child, n)[k], Same(x, n)[k]) { }
        SameRow(g, nodes, cache, accepts, toks, Copies(nodes[id].child, n), Same(x, n), i, r.children);
        SameOutcome(g, nodes, cache, accepts, toks, nodes[id].child, x, i + |AllLeaves(r.children)|, Fail);
      }
    case Shared(_, _) =>
      assert SharedEntry(g, nodes, cache, {}, id);
      SameChoice(g, nodes, cache, accepts, toks, id, SharedAlts(g, e), i, r);
  }

  lemma {:induction false} SameRow(g: Grammar, nodes: seq<Node>, cache: Table, accepts: (Kind, string) -> bool,
                                   toks: seq<Token>, ids: seq<nat>, es: seq<Expr>, i: nat, rs: seq<ParseResult>)
    requires g.Ok() && CacheOk(g, nodes, cache, {}, {}) && RepAll(nodes, cache, {}, ids, es)
    ensures MirrorsRow(nodes, accepts, toks, ids, i, rs) <==> TMirrorsRow(g, Sharing, accepts, toks, es, i, rs)
    decreases rs, 0
  {
    hide Grammar.Ok, Mirrors, TMirrors, CacheOk, Rep;
    if |rs| <= |ids| {
      forall k | 0 <= k < |rs|
        ensures Mirrors(nodes, accepts, toks, ids[k], i + |AllLeaves(rs[..k])|, rs[k])
                <==> TMirrors(g, Sharing, accepts, toks, es[k], i + |AllLeaves(rs[..k])|, rs[k])
      {
        SameResults(g, nodes, cache, accepts, toks, ids[k], es[k], i + |AllLeaves(rs[..k])|, rs[k]);
      }
    }
  }

  lemma {:induction false} SameChoice(g: Grammar, nodes: seq<Node>, cache: Table, accepts: (Kind, string) -> bool,
                                      toks: seq<Token>, id: nat, es: seq<Expr>, i: nat, r: ParseResult)
    requires g.Ok() && CacheOk(g, nodes, cache, {}, {})
    requires id < |nodes| && nodes[id].ChoiceMatcher? && RepAll(nodes, cache, {}, nodes[id].children, es)
    ensures Mirrors(nodes, accepts, toks, id, i, r) <==> TMirrorsChoice(g, Sharing, accepts, toks, es, i, r)
    decreases r, 1
  {
    hide Grammar.Ok, TMirrors, CacheOk, Rep, Means, Derives;
    if r.ChoiceResult? && r.index < |es| {
      var ids := nodes[id].children;
      SameResults(g, nodes, cache, accepts, toks, ids[r.index], es[r.index], i, r.selected);
      forall k | 0 <= k < r.index
        ensures Derives(nodes, accepts, toks, Whole(ids[k]), i, Fail)
                <==> Means(g, Sharing, accepts, toks, es[k], i, Fail)
      {
        SameOutcome(g, nodes, cache, accepts, toks, ids[k], es[k], i, Fail);
      }
    }
  }

  // ----- exceptions of trees -----

  /** A terminal that is reached throws an exception: what stands before it matches, or is an alternative that fails. */
  ghost predicate TThrows(g: Grammar, style: Style, accepts: (Kind, string) -> bool, throws: (Kind, string) -> bool,
                          toks: seq<Token>, t: Trace, goal: TreeGoal, i: nat)
    requires g.Ok()
    decreases t
  {
    match goal
    case TWhole(e) =>
      (match e
       case Lit(_) => false
       case Ref(r) =>
         if r in g.overrides then t.Here? && i < |toks| && throws(g.overrides[r], toks[i].text)
         else
           g.PlainRule(r) && t.Now?
           && TThrows(g, style, accepts, throws, toks, t.sub, TSeq(RuleMeaning(g, style, r)), i)
       case Call(_, _) => false
       case Group(es) => t.Now? && TThrows(g, style, accepts, throws, toks, t.sub, TSeq(es), i)
       case Choice(es) => t.Now? && TThrows(g, style, accepts, throws, toks, t.sub, TAlts(es), i)
       case Opt(x) => t.Now? && TThrows(g, style, accepts, throws, toks, t.sub, TWhole(x), i)
       case Plus(x) => t.Now? && TThrows(g, style, accepts, throws, toks, t.sub, TStar(x), i)
       case Shared(_, _) =>
         WellShared(g, e) && t.Now? && TThrows(g, style, accepts, throws, toks, t.sub, TAlts(SharedAlts(g, e)), i))
    case TSeq(es) =>
      es != []
      && ((t.Now? && TThrows(g, style, accepts, throws, toks, t.sub, TWhole(es[0]), i))
          || (t.Later? && Means(g, style, accepts, toks, es[0], i, Match(t.mid))
              && TThrows(g, style, accepts, throws, toks, t.sub, TSeq(es[1..]), t.mid)))
    case TAlts(es) =>
      es != []
      && ((t.Now? && TThrows(g, style, accepts, throws, toks, t.sub, TWhole(es[0]), i))
          || (t.Later? && t.mid == i && Means(g, style, accepts, toks, es[0], i, Fail)
              && TThrows(g, style, accepts, throws, toks, t.sub, TAlts(es[1..]), i)))
    case TStar(x) =>
      || (t.Now? && TThrows(g, style, accepts, throws, toks, t.sub, TWhole(x), i))
      || (t.Later? && Means(g, style, accepts, toks, x, i, Match(t.mid))
          && TThrows(g, style, accepts, throws, toks, t.sub, TStar(x), t.mid))
  }

  ghost predicate TRaises(g: Grammar, style: Style, accepts: (Kind, string) -> bool, throws: (Kind, string) -> bool,
                          toks: seq<Token>, e: Expr, i: nat)
    requires g.Ok()
  {
    exists t :: TThrows(g, style, accepts, throws, toks, t, TWhole(e), i)
  }

  /** A compiled graph raises the exceptions of the trees it stands for. */
  lemma {:induction false} SameThrows(g: Grammar, nodes: seq<Node>, cache: Table, accepts: (Kind, string) -> bool,
                                      throws: (Kind, string) -> bool, toks: seq<Token>, t: Trace, goal: Goal,
                                      tree: TreeGoal, i: nat)
    requires g.Ok() && CacheOk(g, nodes, cache, {}, {}) && GoalRep(nodes, cache, goal, tree)
    ensures Throws(nodes, accepts, throws, toks, t, goal, i)
            <==> TThrows(g, Sharing, accepts, throws, toks, t, tree, i)
    decreases t, 1
  {
    hide Grammar.Ok, Means, Derives, CacheOk, Rep, RepAll;
    match (goal, tree) {
      case (Whole(id), TWhole(e)) => SameThrowsWhole(g, nodes, cache, accepts, throws, toks, t, id, e, i);
      case (SeqOf(ids), TSeq(es)) =>
        SameLength(nodes, cache, ids, es);
        if es != [] {
          RepTail(nodes, cache, ids, es);
          SameFirst(g, nodes, cache, accepts, throws, toks, t, ids[0], es[0], i);
          if t.Later? {
            SameThrows(g, nodes, cache, accepts, throws, toks, t.sub, SeqOf(ids[1..]), TSeq(es[1..]), t.mid);
          }
        }
      case (AltsOf(ids), TAlts(es)) =>
        SameLength(nodes, cache, ids, es);
        if es != [] {
          RepTail(nodes, cache, ids, es);
          SameFirst(g, nodes, cache, accepts, throws, toks, t, ids[0], es[0], i);
          if t.Later? {
            SameThrows(g, nodes, cache, accepts, throws, toks, t.sub, AltsOf(ids[1..]), TAlts(es[1..]), i);
          }
        }
      case (StarOf(id), TStar(e)) =>
        SameFirst(g, nodes, cache, accepts, throws, toks, t, id, e, i);
        if t.Later? { SameThrows(g, nodes, cache, accepts, throws, toks, t.sub, goal, tree, t.mid); }
    }
  }

  lemma SameLength(nodes: seq<Node>, cache: Table, ids: seq<nat>, es: seq<Expr>)
    requires RepAll(nodes, cache, {}, ids, es)
    ensures |ids| == |es|
  {
  }

  /** The first part of a goal, and how it ends. */
  lemma {:induction false} SameFirst(g: Grammar, nodes: seq<Node>, cache: Table, accepts: (Kind, string) -> bool,
                                     throws: (Kind, string) -> bool, toks: seq<Token>, t: Trace, id: nat, e: Expr,
                                     i: nat)
    requires g.Ok() && CacheOk(g, nodes, cache, {}, {}) && Rep(nodes, cache, {}, id, e)
    ensures t.Now? ==> (Throws(nodes, accepts, throws, toks, t.sub, Whole(id), i)
                        <==> TThrows(g, Sharing, accepts, throws, toks, t.sub, TWhole(e), i))
    ensures forall o :: Derives(nodes, accepts, toks, Whole(id), i, o) <==> Means(g, Sharing, accepts, toks, e, i, o)
    decreases t, 0
  {
    hide Grammar.Ok, Means, Derives, CacheOk, Rep;
    if t.Now? { SameThrows(g, nodes, cache, accepts, throws, toks, t.sub, Whole(id), TWhole(e), i); }
    forall o ensures Derives(nodes, accepts, toks, Whole(id), i, o) <==> Means(g, Sharing, accepts, toks, e, i, o) {
      SameOutcome(g, nodes, cache, accepts, toks, id, e, i, o);
    }
  }

  lemma {:induction false} SameThrowsWhole(g: Grammar, nodes: seq<Node>, cache: Table,
                                           accepts: (Kind, string) -> bool, throws: (Kind, string) -> bool,
                                           toks: seq<Token>, t: Trace, id: nat, e: Expr, i: nat)
    requires g.Ok() && CacheOk(g, nodes, cache, {}, {}) && Rep(nodes, cache, {}, id, e)
    ensures Throws(nodes, accepts, throws, toks, t, Whole(id), i)
            <==> TThrows(g, Sharing, accepts, throws, toks, t, TWhole(e), i)
    decreases t, 0
  {
    hide Grammar.Ok, Means, Derives;
    if e.Ref? { assert CacheEntry(g, nodes, cache, {}, {}, e.name); }
    if e.Shared? { assert SharedEntry(g, nodes, cache, {}, id); }
    if t.Now? {
      match e
      case Ref(r) =>
        if r !in g.overrides {
          SameThrows(g, nodes, cache, accepts, throws, toks, t.sub, SeqOf(nodes[id].children),
                     TSeq(RuleMeaning(g, Sharing, r)), i);
        }
      case Group(es) =>
        SameThrows(g, nodes, cache, accepts, throws, toks, t.sub, SeqOf(nodes[id].children), TSeq(es), i);
      case Choice(es) =>
        SameThrows(g, nodes, cache, accepts, throws, toks, t.sub, AltsOf(nodes[id].children), TAlts(es), i);
      case Opt(x) =>
        SameThrows(g, nodes, cache, accepts, throws, toks, t.sub, Whole(nodes[id].child), TWhole(x), i);
      case Plus(x) =>
        SameThrows(g, nodes, cache, accepts, throws, toks, t.sub, StarOf(nodes[id].child), TStar(x), i);
      case Shared(_, _) =>
        SameThrows(g, nodes, cache, accepts, throws, toks, t.sub, AltsOf(nodes[id].children), TAlts(SharedAlts(g, e)),
                   i);
      case _ =>
    }
  }

  lemma SameRaises(g: Grammar, nodes: seq<Node>, cache: Table, accepts: (Kind, string) -> bool,
                   throws: (Kind, string) -> bool, toks: seq<Token>, id: nat, e: Expr, i: nat)
    requires g.Ok() && CacheOk(g, nodes, cache, {}, {}) && Rep(nodes, cache, {}, id, e)
    ensures Raises(nodes, accepts, throws, toks, Whole(id), i) <==> TRaises(g, Sharing, accepts, throws, toks, e, i)
    ensures Raises(nodes, accepts, throws, toks, Whole(id), i) ==> CanThrow(throws, toks)
  {
    hide Grammar.Ok, CacheOk, Rep, CanThrow;
    forall t ensures Throws(nodes, accepts, throws, toks, t, Whole(id), i)
                     <==> TThrows(g, Sharing, accepts, throws, toks, t, TWhole(e), i)
    {
      SameThrowsWhole(g, nodes, cache, accepts, throws, toks, t, id, e, i);
    }
    forall t | Throws(nodes, accepts, throws, toks, t, Whole(id), i) ensures CanThrow(throws, toks) {
      RaisedByToken(nodes, accepts, throws, toks, t, Whole(id), i);
    }
  }
}
