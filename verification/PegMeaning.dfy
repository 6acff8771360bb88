/** Compiling preserves meaning and termination: from trees to the graph. */
module PegMeaning {
  import opened PegSyntax
  import opened PegGraph
  import opened Characters
  import opened PegSimulation
  import opened PegMatcher
  import opened Tokens

  // ----- the PEG relation on trees -----

  datatype TreeGoal = TWhole(e: Expr) | TSeq(es: seq<Expr>) | TAlts(es: seq<Expr>) | TStar(e: Expr)

  /** The rules of PEG on call-free trees; a name stands for its override or for the body of its rule. */
  ghost predicate TProves(g: Grammar, style: Style, accepts: (Kind, string) -> bool, toks: seq<Token>, d: Deriv,
                          goal: TreeGoal, i: nat, o: Outcome)
    requires g.Ok()
    decreases d
  {
    match goal
    case TWhole(e) =>
      (match e
       case Lit(s) => d.Axiom? && o == if i < |toks| && CIEquals(s, toks[i].text) then Match(i + 1) else Fail
       case Ref(r) =>
         if r in g.overrides then
           d.Axiom? && o == if i < |toks| && accepts(g.overrides[r], toks[i].text) then Match(i + 1) else Fail
         else
           g.PlainRule(r) && d.One? && TProves(g, style, accepts, toks, d.sub, TSeq(RuleMeaning(g, style, r)), i, o)
       case Call(_, _) => false
       case Group(es) => d.One? && TProves(g, style, accepts, toks, d.sub, TSeq(es), i, o)
       case Choice(es) => d.One? && TProves(g, style, accepts, toks, d.sub, TAlts(es), i, o)
       case Opt(x) =>
         d.One? && o.Match?
         && (TProves(g, style, accepts, toks, d.sub, TWhole(x), i, o)
             || (o == Match(i) && TProves(g, style, accepts, toks, d.sub, TWhole(x), i, Fail)))
       case Plus(x) =>
         || (d.One? && o == Fail && TProves(g, style, accepts, toks, d.sub, TWhole(x), i, Fail))
         || (d.Two? && TProves(g, style, accepts, toks, d.first, TWhole(x), i, Match(d.mid))
             && TProves(g, style, accepts, toks, d.second, TStar(x), d.mid, o))
       case Shared(_, _) =>
         WellShared(g, e) && d.One? && TProves(g, style, accepts, toks, d.sub, TAlts(SharedAlts(g, e)), i, o))
    case TSeq(es) =>
      if es == [] then d.Axiom? && o == Match(i)
      else
        || (d.One? && o == Fail && TProves(g, style, accepts, toks, d.sub, TWhole(es[0]), i, Fail))
        || (d.Two? && TProves(g, style, accepts, toks, d.first, TWhole(es[0]), i, Match(d.mid))
            && TProves(g, style, accepts, toks, d.second, TSeq(es[1..]), d.mid, o))
    case TAlts(es) =>
      if es == [] then d.Axiom? && o == Fail
      else
        || (d.One? && o.Match? && TProves(g, style, accepts, toks, d.sub, TWhole(es[0]), i, o))
        || (d.Two? && d.mid == i && TProves(g, style, accepts, toks, d.first, TWhole(es[0]), i, Fail)
            && TProves(g, style, accepts, toks, d.second, TAlts(es[1..]), i, o))
    case TStar(x) =>
      || (d.One? && o == Match(i) && TProves(g, style, accepts, toks, d.sub, TWhole(x), i, Fail))
      || (d.Two? && TProves(g, style, accepts, toks, d.first, TWhole(x), i, Match(d.mid))
          && TProves(g, style, accepts, toks, d.second, TStar(x), d.mid, o))
  }

  ghost predicate Means(g: Grammar, style: Style, accepts: (Kind, string) -> bool, toks: seq<Token>, e: Expr, i: nat,
                        o: Outcome)
    requires g.Ok()
  {
    exists d :: TProves(g, style, accepts, toks, d, TWhole(e), i, o)
  }

  /** The relation on trees is deterministic, too. */
  lemma {:induction false} TProvesUnique(g: Grammar, style: Style, accepts: (Kind, string) -> bool, toks: seq<Token>,
                                         d: Deriv, d': Deriv, goal: TreeGoal, i: nat, o: Outcome, o': Outcome)
    requires g.Ok() && TProves(g, style, accepts, toks, d, goal, i, o)
             && TProves(g, style, accepts, toks, d', goal, i, o')
    ensures d == d' && o == o'
    decreases d
  {
    hide Grammar.Ok, RuleMeaning, SharedAlts;
    var first := if d.One? then d.sub else if d.Two? then d.first else d;
    var first' := if d'.One? then d'.sub else if d'.Two? then d'.first else d';
    if d != Axiom && d' != Axiom {
      forall p: TreeGoal, q: Outcome, q': Outcome |
        TProves(g, style, accepts, toks, first, p, i, q) && TProves(g, style, accepts, toks, first', p, i, q')
        ensures first == first' && q == q'
      {
        TProvesUnique(g, style, accepts, toks, first, first', p, i, q, q');
      }
      if d.Two? && d'.Two? && d.mid == d'.mid {
        forall p: TreeGoal, q: Outcome, q': Outcome |
          TProves(g, style, accepts, toks, d.second, p, d.mid, q)
              && TProves(g, style, accepts, toks, d'.second, p, d.mid, q')
          ensures d.second == d'.second && q == q'
        {
          TProvesUnique(g, style, accepts, toks, d.second, d'.second, p, d.mid, q, q');
        }
      }
    }
  }

  lemma MeansUnique(g: Grammar, style: Style, accepts: (Kind, string) -> bool, toks: seq<Token>, e: Expr, i: nat,
                    o: Outcome)
    requires g.Ok() && Means(g, style, accepts, toks, e, i, o)
    ensures forall q :: Means(g, style, accepts, toks, e, i, q) <==> q == o
  {
    var d :| TProves(g, style, accepts, toks, d, TWhole(e), i, o);
    forall q | Means(g, style, accepts, toks, e, i, q) ensures q == o {
      var d' :| TProves(g, style, accepts, toks, d', TWhole(e), i, q);
      TProvesUnique(g, style, accepts, toks, d, d', TWhole(e), i, o, q);
    }
  }

  // ----- graph and tree derive the same -----

  ghost predicate GoalRep(nodes: seq<Node>, cache: Table, goal: Goal, tree: TreeGoal) {
    match (goal, tree)
    case (Whole(id), TWhole(e)) => Rep(nodes, cache, {}, id, e)
    case (SeqOf(ids), TSeq(es)) => RepAll(nodes, cache, {}, ids, es)
    case (AltsOf(ids), TAlts(es)) => RepAll(nodes, cache, {}, ids, es)
    case (StarOf(id), TStar(e)) => Rep(nodes, cache, {}, id, e)
    case _ => false
  }

  lemma RepTail(nodes: seq<Node>, cache: Table, ids: seq<nat>, es: seq<Expr>)
    requires RepAll(nodes, cache, {}, ids, es) && es != []
    ensures Rep(nodes, cache, {}, ids[0], es[0]) && RepAll(nodes, cache, {}, ids[1..], es[1..])
  {
    forall k | 0 <= k < |es| - 1 ensures Rep(nodes, cache, {}, ids[1..][k], es[1..][k]) {
      assert Rep(nodes, cache, {}, ids[k + 1], es[k + 1]);
    }
  }

  /** A compiled graph and the trees it stands for have the very same derivations. */
  lemma {:induction false} SameDerivations(g: Grammar, nodes: seq<Node>, cache: Table, accepts: (Kind, string) -> bool,
                                           toks: seq<Token>, d: Deriv, goal: Goal, tree: TreeGoal, i: nat, o: Outcome)
    requires g.Ok() && CacheOk(g, nodes, cache, {}, {}) && GoalRep(nodes, cache, goal, tree)
    ensures Proves(nodes, accepts, toks, d, goal, i, o) <==> TProves(g, Sharing, accepts, toks, d, tree, i, o)
    decreases d
  {
    match (goal, tree) {
      case (Whole(id), TWhole(e)) => SameWhole(g, nodes, cache, accepts, toks, d, id, e, i, o);
      case (SeqOf(ids), TSeq(es)) =>
        if es != [] {
          RepTail(nodes, cache, ids, es);
          SamePair(g, nodes, cache, accepts, toks, d, ids, es, i, o, SeqOf(ids[1..]), TSeq(es[1..]));
        }
      case (AltsOf(ids), TAlts(es)) =>
        if es != [] {
          RepTail(nodes, cache, ids, es);
          SamePair(g, nodes, cache, accepts, toks, d, ids, es, i, o, AltsOf(ids[1..]), TAlts(es[1..]));
        }
      case (StarOf(id), TStar(e)) =>
        SamePair(g, nodes, cache, accepts, toks, d, [id], [e], i, o, goal, tree);
    }
  }

  /** The one or two premises of a derivation: the first is about a single matcher, the second about a rest. */
  lemma {:induction false} SamePair(g: Grammar, nodes: seq<Node>, cache: Table, accepts: (Kind, string) -> bool,
                                    toks: seq<Token>, d: Deriv, ids: seq<nat>, es: seq<Expr>, i: nat, o: Outcome,
                                    rest: Goal, tree: TreeGoal)
    requires g.Ok() && CacheOk(g, nodes, cache, {}, {})
    requires ids != [] && es != [] && Rep(nodes, cache, {}, ids[0], es[0]) && GoalRep(nodes, cache, rest, tree)
    ensures d.One? ==> forall q ::
              Proves(nodes, accepts, toks, d.sub, Whole(ids[0]), i, q)
              <==> TProves(g, Sharing, accepts, toks, d.sub, TWhole(es[0]), i, q)
    ensures d.Two? ==> forall q ::
              Proves(nodes, accepts, toks, d.first, Whole(ids[0]), i, q)
              <==> TProves(g, Sharing, accepts, toks, d.first, TWhole(es[0]), i, q)
    ensures d.Two? ==> (Proves(nodes, accepts, toks, d.second, rest, d.mid, o)
                        <==> TProves(g, Sharing, accepts, toks, d.second, tree, d.mid, o))
    decreases d, 0
  {
    hide Rep, RepAll, CacheOk, Proves, TProves;
    if d.One? {
      forall q ensures Proves(nodes, accepts, toks, d.sub, Whole(ids[0]), i, q)
          <==> TProves(g, Sharing, accepts, toks, d.sub, TWhole(es[0]), i, q)
      {
        SameDerivations(g, nodes, cache, accepts, toks, d.sub, Whole(ids[0]), TWhole(es[0]), i, q);
      }
    }
    if d.Two? {
      forall q ensures Proves(nodes, accepts, toks, d.first, Whole(ids[0]), i, q)
          <==> TProves(g, Sharing, accepts, toks, d.first, TWhole(es[0]), i, q)
      {
        SameDerivations(g, nodes, cache, accepts, toks, d.first, Whole(ids[0]), TWhole(es[0]), i, q);
      }
      SameDerivations(g, nodes, cache, accepts, toks, d.second, rest, tree, d.mid, o);
    }
  }

  lemma {:induction false} SameWhole(g: Grammar, nodes: seq<Node>, cache: Table, accepts: (Kind, string) -> bool,
                                     toks: seq<Token>, d: Deriv, id: nat, e: Expr, i: nat, o: Outcome)
    requires g.Ok() && CacheOk(g, nodes, cache, {}, {}) && Rep(nodes, cache, {}, id, e)
    ensures Proves(nodes, accepts, toks, d, Whole(id), i, o) <==> TProves(g, Sharing, accepts, toks, d, TWhole(e), i, o)
    decreases d, 1
  {
    match e
    case Lit(s) =>
    case Ref(r) =>
      assert CacheEntry(g, nodes, cache, {}, {}, r);
      if r !in g.overrides && d.One? {
        SameDerivations(g, nodes, cache, accepts, toks, d.sub, SeqOf(nodes[id].children),
                        TSeq(RuleMeaning(g, Sharing, r)), i, o);
      }
    case Group(es) =>
      if d.One? { SameDerivations(g, nodes, cache, accepts, toks, d.sub, SeqOf(nodes[id].children), TSeq(es), i, o); }
    case Choice(es) =>
      if d.One? { SameDerivations(g, nodes, cache, accepts, toks, d.sub, AltsOf(nodes[id].children), TAlts(es), i, o); }
    case Opt(x) =>
      SamePair(g, nodes, cache, accepts, toks, d, [nodes[id].child], [x], i, o, StarOf(nodes[id].child), TStar(x));
    case Plus(x) =>
      SamePair(g, nodes, cache, accepts, toks, d, [nodes[id].child], [x], i, o, StarOf(nodes[id].child), TStar(x));
    case Shared(_, _) =>
      assert SharedEntry(g, nodes, cache, {}, id);
      if d.One? {
        SameDerivations(g, nodes, cache, accepts, toks, d.sub, AltsOf(nodes[id].children), TAlts(SharedAlts(g, e)),
                        i, o);
      }
  }

  // ----- a grammar without left recursion gives a graph on which matching terminates -----

  /** A certificate on names, which are rule names and shared choices: how deep each goes before it consumes, and which
      can succeed without consuming. */
  datatype TreeCert = TreeCert(depth: map<Expr, nat>, nullable: set<Expr>)

  function Max(a: nat, b: nat): nat {
    if a < b then b else a
  }

  /** Whether a tree can succeed without consuming a token. */
  function Nullable(g: Grammar, c: TreeCert, e: Expr): bool
    decreases e
  {
    match e
    case Lit(_) => false
    case Ref(r) => r !in g.overrides && e in c.nullable
    case Call(_, _) => false
    case Group(es) => forall x :: x in es ==> Nullable(g, c, x)
    case Choice(es) => exists x :: x in es && Nullable(g, c, x)
    case Opt(_) => true
    case Plus(x) => Nullable(g, c, x)
    case Shared(_, _) => e in c.nullable
  }

  /** How many matchers are entered before a token must be consumed. */
  function Depth(g: Grammar, c: TreeCert, e: Expr): nat
    decreases e, 0
  {
    match e
    case Lit(_) => 0
    case Ref(r) => if r !in g.overrides && e in c.depth then c.depth[e] else 0
    case Call(_, _) => 0
    case Group(es) => 1 + FirstDepth(g, c, es)
    case Choice(es) => 1 + AltDepth(g, c, es)
    case Opt(x) => 1 + Depth(g, c, x)
    case Plus(x) => 1 + Depth(g, c, x)
    case Shared(_, _) => if e in c.depth then c.depth[e] else 0
  }

  function FirstDepth(g: Grammar, c: TreeCert, es: seq<Expr>): nat
    decreases es
  {
    if es == [] then 0
    else Max(Depth(g, c, es[0]), if Nullable(g, c, es[0]) then FirstDepth(g, c, es[1..]) else 0)
  }

  function AltDepth(g: Grammar, c: TreeCert, es: seq<Expr>): nat
    decreases es
  {
    if es == [] then 0 else Max(Depth(g, c, es[0]), AltDepth(g, c, es[1..]))
  }

  /** Every name in the tree is certified, and every repeated element consumes. */
  predicate Fine(g: Grammar, c: TreeCert, e: Expr)
    decreases e
  {
    match e
    case Lit(_) => true
    case Ref(r) => r in g.overrides || e in c.depth
    case Call(_, _) => true
    case Group(es) => forall x :: x in es ==> Fine(g, c, x)
    case Choice(es) => forall x :: x in es ==> Fine(g, c, x)
    case Opt(x) => Fine(g, c, x)
    case Plus(x) => Fine(g, c, x) && !Nullable(g, c, x)
    case Shared(_, _) => e in c.depth
  }

  /** A rule name that is not overridden, or a shared choice. */
  predicate IsName(g: Grammar, e: Expr) {
    if e.Ref? then e.name !in g.overrides && g.PlainRule(e.name) else WellShared(g, e)
  }

  /** A name unrolled to what it stands for. */
  ghost function Unrolled(g: Grammar, e: Expr): (r: Expr)
    requires g.Ok()
  {
    if !IsName(g, e) then e
    else if e.Ref? then Group(RuleMeaning(g, Sharing, e.name))
    else Choice(SharedAlts(g, e))
  }

  ghost predicate CertEntry(g: Grammar, c: TreeCert, n: Expr)
    requires g.Ok() && n in c.depth
  {
    && IsName(g, n)
    && var body := Unrolled(g, n);
       c.depth[n] == Depth(g, c, body) && (n in c.nullable <==> Nullable(g, c, body)) && Fine(g, c, body)
  }

  /** No certified name is left-recursive (each has a finite depth) and no repeated element can succeed without
      consuming. */
  ghost predicate TreeProgress(g: Grammar, c: TreeCert)
    requires g.Ok()
  {
    forall n :: n in c.depth ==> CertEntry(g, c, n)
  }

  lemma UnrolledSame(g: Grammar, nodes: seq<Node>, cache: Table, c: TreeCert, id: nat, e: Expr)
    requires g.Ok() && CacheOk(g, nodes, cache, {}, {}) && TreeProgress(g, c) && Rep(nodes, cache, {}, id, e)
             && Fine(g, c, e)
    ensures var u := Unrolled(g, e);
            && Rep(nodes, cache, {}, id, u) && Fine(g, c, u)
            && Depth(g, c, u) == Depth(g, c, e) && (Nullable(g, c, u) <==> Nullable(g, c, e))
            && !u.Shared? && (u.Ref? ==> u.name in g.overrides && nodes[id] == Terminal(g.overrides[u.name]))
  {
    if e.Ref? { assert CacheEntry(g, nodes, cache, {}, {}, e.name); }
    if e.Shared? { assert SharedEntry(g, nodes, cache, {}, id); }
    if e in c.depth { assert CertEntry(g, c, e); }
  }

  lemma AltBelow(g: Grammar, c: TreeCert, es: seq<Expr>, k: nat)
    requires k < |es|
    ensures Depth(g, c, es[k]) <= AltDepth(g, c, es)
  {
    if k > 0 { AltBelow(g, c, es[1..], k - 1); }
  }

  /** However a matcher is read as a tree, its depth and nullability are the same. */
  lemma {:induction false} SameDepth(g: Grammar, nodes: seq<Node>, cache: Table, c: TreeCert, id: nat, e: Expr,
                                     e': Expr)
    requires g.Ok() && CacheOk(g, nodes, cache, {}, {}) && TreeProgress(g, c)
    requires Rep(nodes, cache, {}, id, e) && Rep(nodes, cache, {}, id, e') && Fine(g, c, e) && Fine(g, c, e')
    ensures Depth(g, c, e) == Depth(g, c, e') && (Nullable(g, c, e) <==> Nullable(g, c, e'))
    decreases Depth(g, c, e), 1, 0
  {
    hide CacheOk, TreeProgress, RepAll, Grammar.Ok, Unrolled, FirstDepth, AltDepth;
    UnrolledSame(g, nodes, cache, c, id, e);
    UnrolledSame(g, nodes, cache, c, id, e');
    var u, u' := Unrolled(g, e), Unrolled(g, e');
    match u {
      case Group(es) =>
        SameFirsts(g, nodes, cache, c, nodes[id].children, es, u'.items, Depth(g, c, u));
      case Choice(es) =>
        SameAlts(g, nodes, cache, c, nodes[id].children, es, u'.alts, Depth(g, c, u));
      case Opt(x) => SameDepth(g, nodes, cache, c, nodes[id].child, x, u'.inner);
      case Plus(x) => SameDepth(g, nodes, cache, c, nodes[id].child, x, u'.inner);
      case _ =>
    }
  }

  lemma {:induction false} SameFirsts(g: Grammar, nodes: seq<Node>, cache: Table, c: TreeCert, ids: seq<nat>,
                                      es: seq<Expr>, es': seq<Expr>, bound: nat)
    requires g.Ok() && CacheOk(g, nodes, cache, {}, {}) && TreeProgress(g, c)
    requires RepAll(nodes, cache, {}, ids, es) && RepAll(nodes, cache, {}, ids, es')
    requires (forall x :: x in es ==> Fine(g, c, x)) && (forall x :: x in es' ==> Fine(g, c, x))
    requires FirstDepth(g, c, es) < bound
    ensures FirstDepth(g, c, es) == FirstDepth(g, c, es')
    ensures Nullable(g, c, Group(es)) <==> Nullable(g, c, Group(es'))
    decreases bound, 0, |es|
  {
    if es != [] {
      SameDepth(g, nodes, cache, c, ids[0], es[0], es'[0]);
      NullableCons(g, c, es);
      NullableCons(g, c, es');
      if Nullable(g, c, es[0]) {
        RepTail(nodes, cache, ids, es);
        RepTail(nodes, cache, ids, es');
        SameFirsts(g, nodes, cache, c, ids[1..], es[1..], es'[1..], bound);
      }
    }
  }

  lemma NullableCons(g: Grammar, c: TreeCert, es: seq<Expr>)
    requires es != []
    ensures Nullable(g, c, Group(es)) <==> Nullable(g, c, es[0]) && Nullable(g, c, Group(es[1..]))
    ensures Nullable(g, c, Choice(es)) <==> Nullable(g, c, es[0]) || Nullable(g, c, Choice(es[1..]))
  {
    assert forall x :: x in es <==> x == es[0] || x in es[1..];
  }

  lemma {:induction false} SameAlts(g: Grammar, nodes: seq<Node>, cache: Table, c: TreeCert, ids: seq<nat>,
                                    es: seq<Expr>, es': seq<Expr>, bound: nat)
    requires g.Ok() && CacheOk(g, nodes, cache, {}, {}) && TreeProgress(g, c)
    requires RepAll(nodes, cache, {}, ids, es) && RepAll(nodes, cache, {}, ids, es')
    requires (forall x :: x in es ==> Fine(g, c, x)) && (forall x :: x in es' ==> Fine(g, c, x))
    requires AltDepth(g, c, es) < bound
    ensures AltDepth(g, c, es) == AltDepth(g, c, es')
    ensures Nullable(g, c, Choice(es)) <==> Nullable(g, c, Choice(es'))
    decreases bound, 0, |es|
  {
    if es != [] {
      SameDepth(g, nodes, cache, c, ids[0], es[0], es'[0]);
      NullableCons(g, c, es);
      NullableCons(g, c, es');
      RepTail(nodes, cache, ids, es);
      RepTail(nodes, cache, ids, es');
      SameAlts(g, nodes, cache, c, ids[1..], es[1..], es'[1..], bound);
    }
  }

  // ----- the certificate of the graph -----

  ghost predicate Stands(g: Grammar, nodes: seq<Node>, cache: Table, c: TreeCert, id: nat, e: Expr) {
    Rep(nodes, cache, {}, id, e) && Fine(g, c, e)
  }

  ghost predicate Standing(g: Grammar, nodes: seq<Node>, cache: Table, c: TreeCert, id: nat) {
    exists e :: Stands(g, nodes, cache, c, id, e)
  }

  ghost function TreeOf(g: Grammar, nodes: seq<Node>, cache: Table, c: TreeCert, id: nat): (e: Expr)
    requires Standing(g, nodes, cache, c, id)
    ensures Stands(g, nodes, cache, c, id, e)
  {
    var e :| Stands(g, nodes, cache, c, id, e);
    e
  }

  ghost function TopDepth(g: Grammar, nodes: seq<Node>, cache: Table, c: TreeCert, n: nat): (top: nat)
    ensures forall id ::
              0 <= id < n && Standing(g, nodes, cache, c, id) ==> Depth(g, c, TreeOf(g, nodes, cache, c, id)) < top
  {
    if n == 0 then 0
    else
      var m := TopDepth(g, nodes, cache, c, n - 1);
      if Standing(g, nodes, cache, c, n - 1) then Max(m, 1 + Depth(g, c, TreeOf(g, nodes, cache, c, n - 1))) else m
  }

  ghost function GraphCert(g: Grammar, nodes: seq<Node>, cache: Table, c: TreeCert): Cert {
    Cert(map id | 0 <= id < |nodes| && Standing(g, nodes, cache, c, id) :: Depth(g, c, TreeOf(g, nodes, cache, c, id)),
         set id | 0 <= id < |nodes| && Standing(g, nodes, cache, c, id)
             && Nullable(g, c, TreeOf(g, nodes, cache, c, id)) :: id,
         TopDepth(g, nodes, cache, c, |nodes|))
  }

  /** A matcher that stands for e has the depth and nullability of e. */
  lemma CertOf(g: Grammar, nodes: seq<Node>, cache: Table, c: TreeCert, id: nat, e: Expr)
    requires g.Ok() && CacheOk(g, nodes, cache, {}, {}) && TreeProgress(g, c) && Stands(g, nodes, cache, c, id, e)
    ensures var cert := GraphCert(g, nodes, cache, c);
            id in cert.rank && cert.rank[id] == Depth(g, c, e) < cert.top
                && (id in cert.nullable <==> Nullable(g, c, e))
  {
    SameDepth(g, nodes, cache, c, id, TreeOf(g, nodes, cache, c, id), e);
  }

  /** The children of a list or choice, and the depths that count at the same position. */
  lemma {:induction false} CertList(g: Grammar, nodes: seq<Node>, cache: Table, c: TreeCert, ids: seq<nat>,
                                    es: seq<Expr>)
    requires g.Ok() && CacheOk(g, nodes, cache, {}, {}) && TreeProgress(g, c)
    requires RepAll(nodes, cache, {}, ids, es) && (forall x :: x in es ==> Fine(g, c, x))
    ensures var cert := GraphCert(g, nodes, cache, c);
            && (forall k :: 0 <= k < |ids| ==>
                  ids[k] in cert.rank && cert.rank[ids[k]] == Depth(g, c, es[k])
                      && (ids[k] in cert.nullable <==> Nullable(g, c, es[k])))
            && AllLive(cert, ids) && (AllNullable(cert, ids) <==> Nullable(g, c, Group(es)))
            && ((exists x :: x in ids && x in cert.nullable) <==> Nullable(g, c, Choice(es)))
  {
    var cert := GraphCert(g, nodes, cache, c);
    forall k | 0 <= k < |ids|
      ensures ids[k] in cert.rank && cert.rank[ids[k]] == Depth(g, c, es[k])
              && (ids[k] in cert.nullable <==> Nullable(g, c, es[k]))
    {
      assert es[k] in es;
      CertOf(g, nodes, cache, c, ids[k], es[k]);
    }
    ListNullable(g, c, cert, ids, es);
  }

  lemma ListNullable(g: Grammar, c: TreeCert, cert: Cert, ids: seq<nat>, es: seq<Expr>)
    requires |ids| == |es| && forall k ::
               0 <= k < |ids| ==> ids[k] in cert.rank && (ids[k] in cert.nullable <==> Nullable(g, c, es[k]))
    ensures AllLive(cert, ids)
    ensures AllNullable(cert, ids) <==> Nullable(g, c, Group(es))
    ensures (exists x :: x in ids && x in cert.nullable) <==> Nullable(g, c, Choice(es))
  {
    if AllNullable(cert, ids) {
      forall x | x in es ensures Nullable(g, c, x) {
        var k :| 0 <= k < |es| && es[k] == x;
        assert ids[k] in ids;
      }
    }
    if Nullable(g, c, Group(es)) {
      forall x | x in ids ensures x in cert.nullable {
        var k :| 0 <= k < |ids| && ids[k] == x;
        assert es[k] in es;
      }
    }
    if x :| x in ids && x in cert.nullable {
      var k :| 0 <= k < |ids| && ids[k] == x;
      assert es[k] in es;
    }
    if Nullable(g, c, Choice(es)) {
      var x :| x in es && Nullable(g, c, x);
      var k :| 0 <= k < |es| && es[k] == x;
      assert ids[k] in ids;
    }
  }

  /** An element reached without consuming is no deeper than the list says. */
  lemma {:induction false} FirstReached(g: Grammar, c: TreeCert, es: seq<Expr>, k: nat)
    requires k < |es| && forall j :: 0 <= j < k ==> Nullable(g, c, es[j])
    ensures Depth(g, c, es[k]) <= FirstDepth(g, c, es)
    decreases k
  {
    if k > 0 {
      assert Nullable(g, c, es[0]);
      forall j | 0 <= j < k - 1 ensures Nullable(g, c, es[1..][j]) { assert es[1..][j] == es[j + 1]; }
      FirstReached(g, c, es[1..], k - 1);
    }
  }

  lemma NodeHasProgress(g: Grammar, nodes: seq<Node>, cache: Table, c: TreeCert, id: nat, e: Expr)
    requires g.Ok() && CacheOk(g, nodes, cache, {}, {}) && TreeProgress(g, c) && Stands(g, nodes, cache, c, id, e)
    requires id in GraphCert(g, nodes, cache, c).rank
    ensures NodeProgress(nodes, GraphCert(g, nodes, cache, c), id)
  {
    hide GraphCert, CacheOk, TreeProgress;
    var cert := GraphCert(g, nodes, cache, c);
    UnrolledSame(g, nodes, cache, c, id, e);
    CertOf(g, nodes, cache, c, id, e);
    var u := Unrolled(g, e);
    match u {
      case Group(es) =>
        var ids := nodes[id].children;
        CertList(g, nodes, cache, c, ids, es);
        forall k | 0 <= k < |ids| && AllNullable(cert, ids[..k]) ensures cert.rank[ids[k]] < cert.rank[id] {
          forall j | 0 <= j < k ensures Nullable(g, c, es[j]) { assert ids[..k][j] == ids[j]; }
          FirstReached(g, c, es, k);
        }
      case Choice(es) =>
        var ids := nodes[id].children;
        CertList(g, nodes, cache, c, ids, es);
        forall x | x in ids ensures cert.rank[x] < cert.rank[id] && (x in cert.nullable ==> id in cert.nullable) {
          var k :| 0 <= k < |ids| && ids[k] == x;
          AltBelow(g, c, es, k);
        }
      case Opt(x) => CertOf(g, nodes, cache, c, nodes[id].child, x);
      case Plus(x) => CertOf(g, nodes, cache, c, nodes[id].child, x);
      case _ =>
    }
  }

  /** The graph of a grammar without left recursion and without empty repetitions terminates on every token list. */
  lemma GraphProgress(g: Grammar, nodes: seq<Node>, cache: Table, c: TreeCert)
    requires g.Ok() && CacheOk(g, nodes, cache, {}, {}) && TreeProgress(g, c)
    ensures Progress(nodes, GraphCert(g, nodes, cache, c))
    ensures forall r :: r in cache.rules && Fine(g, c, Ref(r)) ==> cache.rules[r] in GraphCert(g, nodes, cache, c).rank
  {
    var cert := GraphCert(g, nodes, cache, c);
    forall id | id in cert.rank ensures NodeProgress(nodes, cert, id) {
      NodeHasProgress(g, nodes, cache, c, id, TreeOf(g, nodes, cache, c, id));
    }
    forall r | r in cache.rules && Fine(g, c, Ref(r)) ensures cache.rules[r] in cert.rank {
      assert CacheEntry(g, nodes, cache, {}, {}, r);
      assert Stands(g, nodes, cache, c, cache.rules[r], Ref(r));
    }
  }
}
