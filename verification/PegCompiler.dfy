/** `MatcherFactory::CreateMatcher` and `MatcherList`: token lists compiled to a graph of matchers. Each rule body is
    read token by token onto a stack of matchers.  The ghost view of an activation says which brackets are open, which
    matchers may still change, and which alternatives a shared choice has by now; every step keeps it. */
module PegCompiler {
  import opened Options
  import opened PegSyntax
  import opened PegGraph
  import opened Characters
  import opened PegSimulation

  // ----- what always holds, whatever the rules say -----

  predicate NodeIn(n: Node, bound: nat) {
    match n
    case ListMatcher(cs) => forall c :: c in cs ==> c < bound
    case ChoiceMatcher(cs) => forall c :: c in cs ==> c < bound
    case OptionalMatcher(c) => c < bound
    case RepeatMatcher(c) => c < bound
    case _ => true
  }

  predicate NodesIn(nodes: seq<Node>) {
    forall k :: 0 <= k < |nodes| ==> NodeIn(nodes[k], |nodes|)
  }

  /** A matcher never changes its type, and only lists and choices change at all. */
  predicate Grows(nodes: seq<Node>, nodes': seq<Node>) {
    && |nodes| <= |nodes'|
    && forall k :: 0 <= k < |nodes| ==>
         if nodes[k].ListMatcher? then nodes'[k].ListMatcher?
         else if nodes[k].ChoiceMatcher? then nodes'[k].ChoiceMatcher?
         else nodes'[k] == nodes[k]
  }

  predicate EntryOk(g: Grammar, lvl: nat, nodes: seq<Node>, e: Entry) {
    && e.matcher < |nodes|
    && (nodes[e.matcher].ListMatcher? || (nodes[e.matcher].ChoiceMatcher? && e.fname == ""))
    && (e.fname != "" && g.Has(e.fname) ==> e.fname in g.live && g.Rank(e.fname) < lvl)
  }

  predicate StackOk(g: Grammar, lvl: nat, nodes: seq<Node>, stack: seq<Entry>) {
    && stack != []
    && (forall k :: 0 <= k < |stack| ==> EntryOk(g, lvl, nodes, stack[k]))
    && nodes[stack[0].matcher].ListMatcher?
  }

  lemma PushedGrows(nodes: seq<Node>, id: nat, kid: nat)
    requires NodesIn(nodes) && id < |nodes| && kid < |nodes| && (nodes[id].ListMatcher? || nodes[id].ChoiceMatcher?)
    ensures NodesIn(Pushed(nodes, id, kid)) && Grows(nodes, Pushed(nodes, id, kid))
  {
    var nodes' := Pushed(nodes, id, kid);
    forall k | 0 <= k < |nodes'| ensures NodeIn(nodes'[k], |nodes'|) {
      assert NodeIn(nodes[k], |nodes|);
    }
  }

  lemma ReplacedGrows(nodes: seq<Node>, more: seq<Node>, l: nat, last: nat)
    requires NodesIn(nodes) && l < |nodes| && nodes[l].ListMatcher? && nodes[l].children != []
    requires last < |nodes| + |more| && forall k :: 0 <= k < |more| ==> NodeIn(more[k], |nodes| + |more|)
    ensures var nodes' := (nodes + more)[l := ListMatcher(Init(nodes[l].children) + [last])];
            NodesIn(nodes') && Grows(nodes, nodes')
  {
    var nodes' := (nodes + more)[l := ListMatcher(Init(nodes[l].children) + [last])];
    forall k | 0 <= k < |nodes'| ensures NodeIn(nodes'[k], |nodes'|) {
      if k < |nodes| {
        assert NodeIn(nodes[k], |nodes|);
        assert forall c :: c in Init(nodes[l].children) ==> c in nodes[l].children;
      } else {
        assert nodes'[k] == more[k - |nodes|];
      }
    }
  }

  // ----- what holds while a good grammar is compiled -----

  /** Matchers are added; of the old ones only those in `hot` may change, and not their type. */
  predicate Frozen(nodes: seq<Node>, nodes': seq<Node>, hot: set<nat>) {
    && |nodes| <= |nodes'|
    && forall k :: 0 <= k < |nodes| ==>
         if k in hot then
           && (nodes[k].ListMatcher? ==> nodes'[k].ListMatcher?)
           && (nodes[k].ChoiceMatcher? ==> nodes'[k].ChoiceMatcher?)
         else nodes'[k] == nodes[k]
  }

  /** The table grows; choices shared from now on are new. */
  predicate TableGrown(nodes: seq<Node>, cache: Table, cache': Table) {
    && Extends(cache.rules, cache'.rules) && Extends(cache.shared, cache'.shared)
    && forall id :: id in cache'.shared ==> id in cache.shared || id >= |nodes|
  }

  /** The ghost view of one activation: the matchers left open outside, and the choice held open for the call being
      made; the rules in progress; where the activation started; the open brackets; and, when the parameter is a shared
      choice, its alternatives at the start and those added by the bracket just closed. */
  datatype View = View(outer: set<nat>, held: set<nat>, prog: set<string>, base: seq<Node>, base_cache: Table,
                       hs: seq<Hole>, fs: seq<Frame>, param: nat, start: seq<Expr>, extra: seq<Expr>)

  function Open(w: View): set<nat> {
    OpenSet(w.outer + w.held, w.hs)
  }

  /** The alternatives that the shared choice has by now. */
  ghost function Content(g: Grammar, v: Env, w: View): seq<Expr>
    requires g.Ok() && v.Ok() && FramesResolved(g, v.params, v.lvl, w.fs)
  {
    w.start + ExtFrames(g, v, w.fs) + w.extra
  }

  ghost predicate SharedSoFar(g: Grammar, v: Env, nodes: seq<Node>, cache: Table, open: set<nat>, p: nat,
                              content: seq<Expr>)
  {
    v.Shares() ==> Rep(nodes, cache, open, p, v.arg.value) && RepAll(nodes, cache, open, nodes[p].children, content)
  }

  ghost predicate Inv(g: Grammar, v: Env, nodes: seq<Node>, cache: Table, stack: seq<Entry>, w: View)
    requires g.Ok() && v.Ok()
  {
    && v.style.Sharing?
    && Sim(g, v, w.param, nodes, cache, w.outer + w.held, w.hs, w.fs)
    && FramesResolved(g, v.params, v.lvl, w.fs)
    && SharedSoFar(g, v, nodes, cache, Open(w), w.param, Content(g, v, w))
    && stack == Stack(w.hs, w.fs)
    && CacheOk(g, nodes, cache, Open(w), w.prog)
    && InvBase(v, nodes, cache, w)
  }

  /** How the activation stands to where it started. */
  predicate InvBase(v: Env, nodes: seq<Node>, cache: Table, w: View) {
    && Frozen(w.base, nodes, Hot(v, w.param)) && TableGrown(w.base, w.base_cache, cache)
    && Hot(v, w.param) <= w.outer
    && (forall x :: x in w.outer ==> x < |w.base|)
    && (forall x :: x in w.held ==> x >= |w.base|)
    && (forall x :: x in Open(w) ==> x in w.outer || x >= |w.base|)
  }

  lemma InvStack(g: Grammar, v: Env, nodes: seq<Node>, cache: Table, stack: seq<Entry>, w: View)
    requires g.Ok() && v.Ok() && Inv(g, v, nodes, cache, stack, w)
    ensures var h, f := Last(w.hs), Last(w.fs);
            && Last(stack) == (if f.pending then Entry(h.choice.value, "") else Entry(h.list, f.fname))
            && (f.pending ==> h.choice.Some? && h.choice.value < |nodes| && nodes[h.choice.value].ChoiceMatcher?)
            && h.list < |nodes| && nodes[h.list].ListMatcher? && |nodes[h.list].children| == |f.items|
            && (|stack| == 1 <==> |w.hs| == 1 && !f.pending)
  {
    assert FrameSim(g, v, w.param, nodes, cache, Open(w), Last(w.hs), Last(w.fs));
    if |w.hs| == 1 {
      assert Init(w.hs) == [] && Stack(Init(w.hs), Init(w.fs)) == [];
    } else {
      assert |Stack(Init(w.hs), Init(w.fs))| >= 1;
    }
  }

  lemma InvParts(g: Grammar, v: Env, nodes: seq<Node>, cache: Table, stack: seq<Entry>, w: View)
    requires g.Ok() && v.Ok() && Inv(g, v, nodes, cache, stack, w)
    ensures |w.hs| == |w.fs| > 0 && FramesShape(w.fs)
    ensures FramesResolved(g, v.params, v.lvl, w.fs)
    ensures (Init(w.hs) + [AddedHole(Last(w.hs), Last(w.fs))])[0].list == w.hs[0].list
  {
  }

  /** The innermost bracket may not extend a choice that is already shared. */
  lemma TopNotShared(g: Grammar, v: Env, nodes: seq<Node>, cache: Table, stack: seq<Entry>, w: View)
    requires g.Ok() && v.Ok() && Inv(g, v, nodes, cache, stack, w)
    ensures forall x :: x in Ids(Last(w.hs)) ==> x !in cache.shared
    ensures forall x :: x in cache.shared ==> x < |nodes|
  {
    hide Rep, RepAll, Expand, ExpandAll, Resolved, Grammar.Ok;
    var h, f := Last(w.hs), Last(w.fs);
    assert FrameSim(g, v, w.param, nodes, cache, Open(w), h, f);
    assert forall x :: x in cache.shared ==> SharedEntry(g, nodes, cache, Open(w), x);
    if h.choice.Some? { LastOther(g, v, w.param, nodes, cache, Open(w), h, f); }
  }

  /** Everything that stays when one step replaces the open brackets. */
  lemma InvStep(g: Grammar, v: Env, nodes: seq<Node>, cache: Table, stack: seq<Entry>, w: View,
                nodes': seq<Node>, stack': seq<Entry>, w': View)
    requires g.Ok() && v.Ok() && Inv(g, v, nodes, cache, stack, w)
    requires w' == w.(hs := w'.hs, fs := w'.fs, held := w'.held, extra := w'.extra)
    requires Sim(g, v, w.param, nodes', cache, w.outer + w'.held, w'.hs, w'.fs) && stack' == Stack(w'.hs, w'.fs)
    requires FramesResolved(g, v.params, v.lvl, w'.fs)
    requires SharedSoFar(g, v, nodes', cache, Open(w'), w.param, Content(g, v, w'))
    requires Keeps(nodes, cache, Open(w), nodes', cache, Open(w'))
    requires forall x :: x in Open(w') ==> x in Open(w) || x >= |nodes|
    requires forall x :: x in Open(w) && x in cache.shared ==> x in Open(w')
    requires forall x :: x in w'.held ==> x >= |w.base|
    requires Frozen(w.base, nodes', Hot(v, w.param))
    ensures Inv(g, v, nodes', cache, stack', w')
  {
    hide Sim, SharedSoFar, FramesResolved, Keeps;
    CacheKept(g, nodes, cache, Open(w), w.prog, nodes', Open(w'));
  }

  /** The shared choice keeps its content where the step does not touch it. */
  lemma ContentKept(g: Grammar, v: Env, nodes: seq<Node>, cache: Table, open: set<nat>, nodes': seq<Node>,
                    cache': Table, open': set<nat>, p: nat, content: seq<Expr>)
    requires SharedSoFar(g, v, nodes, cache, open, p, content)
    requires Keeps(nodes, cache, open, nodes', cache', open')
    requires v.Shares() && p < |nodes| ==> nodes'[p] == nodes[p]
    ensures SharedSoFar(g, v, nodes', cache', open', p, content)
  {
    if v.Shares() {
      RepKept(nodes, cache, open, nodes', cache', open', p, v.arg.value);
      RepAllKept(nodes, cache, open, nodes', cache', open', nodes[p].children, content);
    }
  }

  /** One more alternative of the shared choice. */
  lemma ContentGrown(g: Grammar, v: Env, nodes: seq<Node>, cache: Table, open: set<nat>, p: nat, content: seq<Expr>,
                     id: nat, t: Expr)
    requires SharedSoFar(g, v, nodes, cache, open, p, content) && v.Shares() && p in open
    requires Rep(nodes, cache, open, id, t)
    ensures p < |nodes| && nodes[p].ChoiceMatcher?
    ensures SharedSoFar(g, v, Pushed(nodes, p, id), cache, open, p, content + [t])
  {
    var nodes' := Pushed(nodes, p, id);
    assert Keeps(nodes, cache, open, nodes', cache, open);
    RepKept(nodes, cache, open, nodes', cache, open, p, v.arg.value);
    RepKept(nodes, cache, open, nodes', cache, open, id, t);
    RepAllKept(nodes, cache, open, nodes', cache, open, nodes[p].children, content);
  }

  /** The matchers of this activation are all newer than its base. */
  lemma BaseFrozen(g: Grammar, v: Env, nodes: seq<Node>, cache: Table, stack: seq<Entry>, w: View, nodes': seq<Node>)
    requires g.Ok() && v.Ok() && Inv(g, v, nodes, cache, stack, w)
    requires |nodes| <= |nodes'|
    requires forall k :: 0 <= k < |nodes| && k !in Ids(Last(w.hs)) + Hot(v, w.param) ==> nodes'[k] == nodes[k]
    requires forall k :: 0 <= k < |nodes| && nodes[k].ListMatcher? ==> nodes'[k].ListMatcher?
    requires forall k :: 0 <= k < |nodes| && nodes[k].ChoiceMatcher? ==> nodes'[k].ChoiceMatcher?
    ensures Frozen(w.base, nodes', Hot(v, w.param))
  {
    OpenSetPrefix(w.outer + w.held, w.hs, |w.hs| - 1);
    HolesDisjoint(w.outer + w.held, w.hs, |w.hs| - 1);
    assert forall k :: k in Ids(Last(w.hs)) ==> k >= |w.base|;
  }

  /** Where the top bracket is replaced, what else was open stays open. */
  lemma TopOpen(outer: set<nat>, hs: seq<Hole>, h': Hole, bound: nat)
    requires hs != [] && forall x :: x in Ids(h') ==> x in Ids(Last(hs)) || x >= bound
    ensures forall x :: x in OpenSet(outer, Init(hs) + [h']) ==> x in OpenSet(outer, hs) || x >= bound
    ensures forall x :: x in OpenSet(outer, hs) ==> x in OpenSet(outer, Init(hs) + [h']) || x in Ids(Last(hs))
  {
    assert Init(Init(hs) + [h']) == Init(hs);
  }

  // ----- value-level steps keep the invariant -----

  /** The matcher stands for the tree of the next element, and what that tree adds to the shared choice is there. */
  ghost predicate Standing(g: Grammar, v: Env, nodes: seq<Node>, cache: Table, w: View, id: nat, e: Expr)
    requires g.Ok()
  {
    Addable(g, v, w.param, nodes, cache, Open(w), id, e) && w.extra == Ext(g, v, e)
  }

  ghost function Advanced(w: View, e: Expr): View
    requires w.hs != [] && FramesShape(w.fs) && SomeAlternative(e)
  {
    w.(hs := Init(w.hs) + [AddedHole(Last(w.hs), Last(w.fs))], fs := Add(w.fs, e), extra := [])
  }

  /** What the addition does to the shared choice. */
  lemma AddContent(g: Grammar, v: Env, nodes: seq<Node>, cache: Table, stack: seq<Entry>, w: View, id: nat, e: Expr,
                   t: nat)
    requires g.Ok() && v.Ok() && Inv(g, v, nodes, cache, stack, w) && Standing(g, v, nodes, cache, w, id, e)
    requires t == Target(Last(w.hs), Last(w.fs)) && t < |nodes| && (nodes[t].ListMatcher? || nodes[t].ChoiceMatcher?)
    requires Keeps(nodes, cache, Open(w), Pushed(nodes, t, id), cache, Open(Advanced(w, e)))
    requires FramesResolved(g, v.params, v.lvl, Advanced(w, e).fs)
    ensures SharedSoFar(g, v, Pushed(nodes, t, id), cache, Open(Advanced(w, e)), w.param, Content(g, v, Advanced(w, e)))
  {
    hide Rep, RepAll, Resolved, Expand, Ext, ExtAll, CacheOk, Grammar.Ok, FrameSim;
    var h, f, w' := Last(w.hs), Last(w.fs), Advanced(w, e);
    var nodes' := Pushed(nodes, t, id);
    ExtFramesAdd(g, v, w.fs, e);
    assert Content(g, v, w') == Content(g, v, w) + Alternative(g, v, f, e);
    if v.Shares() {
      TargetIsParam(g, v, nodes, cache, stack, w);
      OuterOpen(w.outer + w.held, w.hs);
      if t == w.param {
        ContentGrown(g, v, nodes, cache, Open(w), t, Content(g, v, w), id, Expand(g, v, e));
        assert Keeps(nodes', cache, Open(w), nodes', cache, Open(w'));
        ContentKept(g, v, nodes', cache, Open(w), nodes', cache, Open(w'), t, Content(g, v, w'));
      } else {
        assert Content(g, v, w') == Content(g, v, w);
        ContentKept(g, v, nodes, cache, Open(w), nodes', cache, Open(w'), w.param, Content(g, v, w));
      }
    }
  }

  /** The next element goes to the shared choice exactly when a choice that starts with the parameter waits for it. */
  lemma TargetIsParam(g: Grammar, v: Env, nodes: seq<Node>, cache: Table, stack: seq<Entry>, w: View)
    requires g.Ok() && v.Ok() && Inv(g, v, nodes, cache, stack, w) && v.Shares()
    ensures var f := Last(w.fs); Target(Last(w.hs), f) == w.param <==> f.pending && v.Extends(Last(f.items).alts)
  {
    hide Rep, RepAll, Resolved, Expand, ExpandAll, CacheOk, Grammar.Ok;
    var h, f := Last(w.hs), Last(w.fs);
    assert FrameSim(g, v, w.param, nodes, cache, Open(w), h, f);
    HolesDisjoint(w.outer + w.held, w.hs, |w.hs| - 1);
    if f.pending { LastOther(g, v, w.param, nodes, cache, Open(w), h, f); }
  }

  lemma AddInv(g: Grammar, v: Env, nodes: seq<Node>, cache: Table, stack: seq<Entry>, w: View, id: nat, e: Expr)
    requires g.Ok() && v.Ok() && Inv(g, v, nodes, cache, stack, w) && Standing(g, v, nodes, cache, w, id, e)
    ensures var t := Last(stack).matcher;
            && t < |nodes| && (nodes[t].ListMatcher? || nodes[t].ChoiceMatcher?)
            && (nodes[t].ChoiceMatcher? ==> |stack| > 1)
            && Inv(g, v, Pushed(nodes, t, id), cache, if nodes[t].ListMatcher? then stack else Init(stack),
                   Advanced(w, e))
  {
    hide Rep, Resolved, Run, Step, Expand, CacheOk, FrameSim, Ext, ExtAll, Grammar.Ok;
    InvStack(g, v, nodes, cache, stack, w);
    AddSim(g, v, w.param, nodes, cache, w.outer + w.held, w.hs, w.fs, id, e);
    AddStack(w.hs, w.fs, e);
    var t := Last(stack).matcher;
    TopOpen(w.outer + w.held, w.hs, AddedHole(Last(w.hs), Last(w.fs)), |nodes|);
    TopNotShared(g, v, nodes, cache, stack, w);
    BaseFrozen(g, v, nodes, cache, stack, w, Pushed(nodes, t, id));
    AddFramesResolved(g, v.params, v.lvl, w.fs, e);
    AddContent(g, v, nodes, cache, stack, w, id, e, t);
    InvStep(g, v, nodes, cache, stack, w, Pushed(nodes, t, id), if nodes[t].ListMatcher? then stack else Init(stack),
            Advanced(w, e));
  }

  /** A step that replaces the top bracket without adding anything. */
  lemma ReplaceInv(g: Grammar, v: Env, nodes: seq<Node>, cache: Table, stack: seq<Entry>, w: View, op: char,
                   nodes': seq<Node>, stack': seq<Entry>, h': Hole)
    requires g.Ok() && v.Ok() && Inv(g, v, nodes, cache, stack, w)
    requires (op == '?' || op == '*' || op == '+' || op == '/') && Step(w.fs, Operator(op)).Some?
    requires var hs', fs' := Init(w.hs) + [h'], Step(w.fs, Operator(op)).value;
             && Sim(g, v, w.param, nodes', cache, w.outer + w.held, hs', fs') && stack' == Stack(hs', fs')
             && Keeps(nodes, cache, Open(w), nodes', cache, OpenSet(w.outer + w.held, hs'))
    requires forall x :: x in Ids(h') ==> x in Ids(Last(w.hs)) || x >= |nodes|
    requires forall k :: 0 <= k < |nodes| && k !in Ids(Last(w.hs)) ==> nodes'[k] == nodes[k]
    ensures Inv(g, v, nodes', cache, stack', w.(hs := Init(w.hs) + [h'], fs := Step(w.fs, Operator(op)).value))
  {
    hide Sim, Rep, Resolved, Run, Step, Expand, CacheOk, FrameSim, Ext, ExtAll, Grammar.Ok;
    ParamElsewhere(g, v, nodes, cache, stack, w);
    var w' := w.(hs := Init(w.hs) + [h'], fs := Step(w.fs, Operator(op)).value);
    TopOpen(w.outer + w.held, w.hs, h', |nodes|);
    TopNotShared(g, v, nodes, cache, stack, w);
    BaseFrozen(g, v, nodes, cache, stack, w, nodes');
    ExtFramesReplaced(g, v, w.fs, op);
    ContentKept(g, v, nodes, cache, Open(w), nodes', cache, Open(w'), w.param, Content(g, v, w));
    InvStep(g, v, nodes, cache, stack, w, nodes', stack', w');
  }

  lemma ParamElsewhere(g: Grammar, v: Env, nodes: seq<Node>, cache: Table, stack: seq<Entry>, w: View)
    requires g.Ok() && v.Ok() && Inv(g, v, nodes, cache, stack, w)
    ensures w.hs != [] && |w.hs| == |w.fs| && FramesShape(w.fs)
    ensures v.Shares() ==> w.param !in Ids(Last(w.hs)) && w.param < |nodes| && w.param in Open(w)
  {
    HolesDisjoint(w.outer + w.held, w.hs, |w.hs| - 1);
    OuterOpen(w.outer + w.held, w.hs);
  }

  lemma SuffixInv(g: Grammar, v: Env, nodes: seq<Node>, cache: Table, stack: seq<Entry>, w: View, op: char)
    requires g.Ok() && v.Ok() && Inv(g, v, nodes, cache, stack, w)
    requires (op == '?' || op == '*' || op == '+') && Step(w.fs, Operator(op)).Some?
    ensures var t := Last(stack).matcher;
            && t < |nodes| && nodes[t].ListMatcher? && nodes[t].children != []
            && Inv(g, v, Resuffixed(op, nodes, t), cache, stack,
                   w.(hs := Init(w.hs) + [Hole(Last(w.hs).list, None, true)], fs := Step(w.fs, Operator(op)).value))
  {
    hide Rep, Resolved, Expand, CacheOk, FrameSim, Grammar.Ok;
    InvStack(g, v, nodes, cache, stack, w);
    SuffixSim(g, v, w.param, nodes, cache, w.outer + w.held, w.hs, w.fs, op);
    SuffixStack(w.hs, w.fs, op);
    ReplaceInv(g, v, nodes, cache, stack, w, op, Resuffixed(op, nodes, Last(stack).matcher), stack,
               Hole(Last(w.hs).list, None, true));
  }

  /** The last element is a choice matcher exactly when it is this bracket's choice or the shared one. */
  lemma LastOwn(g: Grammar, v: Env, nodes: seq<Node>, cache: Table, stack: seq<Entry>, w: View)
    requires g.Ok() && v.Ok() && Inv(g, v, nodes, cache, stack, w) && w.fs != [] && Last(w.fs).items != []
    ensures HasLast(nodes, Last(w.hs).list)
    ensures LastIsChoice(v, nodes, Last(nodes[Last(w.hs).list].children), Last(Last(w.fs).items))
    ensures var h, e, c := Last(w.hs), Last(Last(w.fs).items), Last(nodes[Last(w.hs).list].children);
            e.Choice? ==> h.choice == Some(c)
  {
    var h, f := Last(w.hs), Last(w.fs);
    assert FrameSim(g, v, w.param, nodes, cache, Open(w), h, f);
    var e := Last(f.items);
    assert e in f.items;
    if !e.Choice? {
      StandsFor(g, v, nodes, cache, Open(w), w.prog, Last(nodes[h.list].children), e);
    }
  }

  /** What is no choice is represented by no choice matcher, except for the parameter that shares one. */
  lemma StandsFor(g: Grammar, v: Env, nodes: seq<Node>, cache: Table, open: set<nat>, prog: set<string>, id: nat,
                  e: Expr)
    requires g.Ok() && v.Ok() && v.style.Sharing? && CacheOk(g, nodes, cache, open, prog)
    requires Resolved(g, v.params, v.lvl, e) && !e.Choice? && Rep(nodes, cache, open, id, Expand(g, v, e))
    ensures LastIsChoice(v, nodes, id, e)
  {
    hide RepAll, ExpandAll, Grammar.Ok;
    var t := Expand(g, v, e);
    if t.Ref? { assert CacheEntry(g, nodes, cache, open, prog, t.name); }
  }

  lemma SlashInv(g: Grammar, v: Env, nodes: seq<Node>, cache: Table, stack: seq<Entry>, w: View)
    requires g.Ok() && v.Ok() && Inv(g, v, nodes, cache, stack, w)
    requires Step(w.fs, Operator('/')).Some?
    ensures var t := Last(stack).matcher;
            && w.hs != [] && t == Last(w.hs).list && HasLast(nodes, t)
            && Last(w.fs).items != []
            && Inv(g, v, SlashNodes(nodes, t), cache, stack + [Entry(SlashChoice(nodes, t), "")],
                   w.(hs := Init(w.hs) + [SlashHole(v, nodes, Last(w.hs), Last(w.fs))],
                      fs := Step(w.fs, Operator('/')).value))
  {
    hide CacheOk, Rep, RepAll, Grammar.Ok, FrameSim;
    LastOwn(g, v, nodes, cache, stack, w);
    TopNotShared(g, v, nodes, cache, stack, w);
    SlashSim(g, v, w.param, nodes, cache, w.outer + w.held, w.hs, w.fs);
    var t := Last(stack).matcher;
    ReplaceInv(g, v, nodes, cache, stack, w, '/', SlashNodes(nodes, t), stack + [Entry(SlashChoice(nodes, t), "")],
               SlashHole(v, nodes, Last(w.hs), Last(w.fs)));
  }

  lemma PushInv(g: Grammar, v: Env, nodes: seq<Node>, cache: Table, stack: seq<Entry>, w: View, f: string)
    requires g.Ok() && v.Ok() && Inv(g, v, nodes, cache, stack, w)
    requires f != "" ==> g.TokenOk(v.params, v.lvl, FunctionCall(f))
    ensures Inv(g, v, nodes + [ListMatcher([])], cache, stack + [Entry(|nodes|, f)],
                w.(hs := w.hs + [Hole(|nodes|, None, true)], fs := w.fs + [Frame(f, [], false)]))
  {
    hide Rep, RepAll, CacheOk, FrameSim, Ext, Grammar.Ok;
    var nodes' := nodes + [ListMatcher([])];
    var w' := w.(hs := w.hs + [Hole(|nodes|, None, true)], fs := w.fs + [Frame(f, [], false)]);
    TopNotShared(g, v, nodes, cache, stack, w);
    PushSim(g, v, w.param, nodes, cache, w.outer + w.held, w.hs, w.fs, f);
    assert Init(w'.hs) == w.hs && Init(w'.fs) == w.fs;
    assert Content(g, v, w') == Content(g, v, w);
    ParamElsewhere(g, v, nodes, cache, stack, w);
    ContentKept(g, v, nodes, cache, Open(w), nodes', cache, Open(w'), w.param, Content(g, v, w));
    InvStep(g, v, nodes, cache, stack, w, nodes', stack + [Entry(|nodes|, f)], w');
  }

  // ----- closing a bracket -----

  /** The argument list of a call is a single choice of its own. */
  predicate OwnArgument(v: Env, f: Frame) {
    f.fname != "" && |f.items| == 1 && f.items[0].Choice? && !v.Extends(f.items[0].alts)
  }

  function HeldBy(v: Env, h: Hole, f: Frame): set<nat> {
    if OwnArgument(v, f) && h.choice.Some? then {h.choice.value} else {}
  }

  /** The brackets below the top one.  The choice that the top one passes to a function is held open. */
  ghost function Popped(g: Grammar, v: Env, w: View): View
    requires g.Ok() && v.Ok() && w.hs != [] && w.fs != [] && FramesResolved(g, v.params, v.lvl, w.fs)
  {
    assert FrameResolved(g, v.params, v.lvl, Last(w.fs));
    w.(hs := Init(w.hs), fs := Init(w.fs), held := HeldBy(v, Last(w.hs), Last(w.fs)),
       extra := ExtAll(g, v, Last(w.fs).items))
  }

  /** The list of a closed bracket stands for its elements; a choice that is passed to a function is not shared yet. */
  ghost predicate Arguments(g: Grammar, v: Env, nodes: seq<Node>, cache: Table, w: View, l: nat, f: Frame)
    requires g.Ok() && v.Ok()
  {
    && FrameResolved(g, v.params, v.lvl, f)
    && l < |nodes| && l !in OpenSet(w.outer, w.hs) && nodes[l].ListMatcher?
    && RepAll(nodes, cache, OpenSet(w.outer, w.hs), nodes[l].children, ExpandAll(g, v, f.items))
    && w.extra == ExtAll(g, v, f.items)
    && if OwnArgument(v, f) then OwnChoice(g, v, nodes, cache, w, l, f)
       else
         && w.held == {}
         && (f.fname != "" && |f.items| == 1 && Expand(g, v, f.items[0]).Shared? ==> nodes[l].children == [w.param])
  }

  ghost predicate OwnChoice(g: Grammar, v: Env, nodes: seq<Node>, cache: Table, w: View, l: nat, f: Frame)
    requires g.Ok() && v.Ok() && FrameResolved(g, v.params, v.lvl, f) && OwnArgument(v, f)
    requires l < |nodes| && nodes[l].ListMatcher?
  {
    && |nodes[l].children| == 1
    && var c := nodes[l].children[0];
       && w.held == {c} && c < |nodes| && nodes[c].ChoiceMatcher? && c !in cache.shared
       && Resolved(g, v.params, v.lvl, f.items[0])
       && RepAll(nodes, cache, Open(w), nodes[c].children, ExpandAll(g, v, f.items[0].alts))
  }

  /** A choice of the closed bracket that is passed to a function is represented, but not shared yet. */
  lemma OwnPopped(g: Grammar, v: Env, nodes: seq<Node>, cache: Table, stack: seq<Entry>, w: View)
    requires g.Ok() && v.Ok() && Inv(g, v, nodes, cache, stack, w)
    requires |w.hs| > 1 && !Last(w.fs).pending && w.held == {} && OwnArgument(v, Last(w.fs))
    requires Keeps(nodes, cache, Open(w), nodes, cache, Open(Popped(g, v, w)))
    ensures FrameResolved(g, v.params, v.lvl, Last(w.fs))
    ensures Last(w.hs).list < |nodes| && nodes[Last(w.hs).list].ListMatcher?
    ensures OwnChoice(g, v, nodes, cache, Popped(g, v, w), Last(w.hs).list, Last(w.fs))
  {
    hide CacheOk, SharedSoFar, Rep, RepAll, Grammar.Ok, Ext, ExtAll, Expand, ExpandAll;
    var h, f, w' := Last(w.hs), Last(w.fs), Popped(g, v, w);
    assert FrameSim(g, v, w.param, nodes, cache, Open(w), h, f);
    LastOther(g, v, w.param, nodes, cache, Open(w), h, f);
    assert f.items[0] == Last(f.items) && f.items[0] in f.items;
    RepAllKept(nodes, cache, Open(w), nodes, cache, Open(w'), nodes[h.choice.value].children,
               ExpandAll(g, v, f.items[0].alts));
  }

  /** The bare parameter, passed on, is the parameter's own matcher. */
  lemma ParamPopped(g: Grammar, v: Env, nodes: seq<Node>, cache: Table, stack: seq<Entry>, w: View)
    requires g.Ok() && v.Ok() && Inv(g, v, nodes, cache, stack, w)
    requires |Last(w.fs).items| == 1 && !OwnArgument(v, Last(w.fs)) && Last(w.fs).fname != ""
    ensures FrameResolved(g, v.params, v.lvl, Last(w.fs))
    ensures Last(w.hs).list < |nodes| && nodes[Last(w.hs).list].ListMatcher?
    ensures Last(w.fs).items[0] in Last(w.fs).items
    ensures Expand(g, v, Last(w.fs).items[0]).Shared? ==> nodes[Last(w.hs).list].children == [w.param]
  {
    hide CacheOk, SharedSoFar, Rep, RepAll, Grammar.Ok, Ext, ExtAll, Expand, ExpandAll;
    var h, f := Last(w.hs), Last(w.fs);
    assert FrameSim(g, v, w.param, nodes, cache, Open(w), h, f);
    assert f.items[0] == Last(f.items) && f.items[0] in f.items;
    SharedItem(g, v, f.items[0]);
  }

  lemma HeldInTop(g: Grammar, v: Env, nodes: seq<Node>, cache: Table, stack: seq<Entry>, w: View)
    requires g.Ok() && v.Ok() && Inv(g, v, nodes, cache, stack, w)
    ensures HeldBy(v, Last(w.hs), Last(w.fs)) <= Ids(Last(w.hs))
  {
    hide CacheOk, SharedSoFar, Rep, RepAll, Grammar.Ok, Ext, ExtAll, Expand, ExpandAll;
    var h, f := Last(w.hs), Last(w.fs);
    assert FrameSim(g, v, w.param, nodes, cache, Open(w), h, f);
    if h.choice.Some? { LastOther(g, v, w.param, nodes, cache, Open(w), h, f); }
  }

  lemma ArgumentsPopped(g: Grammar, v: Env, nodes: seq<Node>, cache: Table, stack: seq<Entry>, w: View)
    requires g.Ok() && v.Ok() && Inv(g, v, nodes, cache, stack, w)
    requires |w.hs| > 1 && !Last(w.fs).pending && w.held == {}
    ensures HeldBy(v, Last(w.hs), Last(w.fs)) <= Ids(Last(w.hs))
    ensures Open(Popped(g, v, w)) == OpenSet(w.outer, Init(w.hs)) + Popped(g, v, w).held
    ensures Arguments(g, v, nodes, cache, Popped(g, v, w), Last(w.hs).list, Last(w.fs))
  {
    hide CacheOk, SharedSoFar, Rep, RepAll, Grammar.Ok, Ext, ExtAll, Expand, ExpandAll, FrameSim, OwnChoice, Keeps;
    var h, f, w' := Last(w.hs), Last(w.fs), Popped(g, v, w);
    assert w.outer + w.held == w.outer;
    HeldInTop(g, v, nodes, cache, stack, w);
    PopSim(g, v, w.param, nodes, cache, w.outer, w.hs, w.fs, w'.held);
    PoppedItems(g, v, w.param, nodes, cache, w.outer, w.hs, w.fs);
    if OwnArgument(v, f) {
      OwnPopped(g, v, nodes, cache, stack, w);
    } else if f.fname != "" && |f.items| == 1 {
      ParamPopped(g, v, nodes, cache, stack, w);
    }
  }

  /** Only the bare parameter and a choice that starts with it stand for a shared choice. */
  lemma SharedItem(g: Grammar, v: Env, e: Expr)
    requires g.Ok() && v.Ok() && Resolved(g, v.params, v.lvl, e) && v.style.Sharing?
    ensures Expand(g, v, e).Shared? ==> v.Shares() && (v.IsParameter(e) || (e.Choice? && v.Extends(e.alts)))
    ensures Expand(g, v, e).Choice? <==> e.Choice? && !v.Extends(e.alts)
    ensures Expand(g, v, e).Choice? ==> Expand(g, v, e).alts == ExpandAll(g, v, e.alts)
  {
    hide ExpandAll, Grammar.Ok;
  }

  /** The top bracket is closed and taken off. */
  lemma PopInv(g: Grammar, v: Env, nodes: seq<Node>, cache: Table, stack: seq<Entry>, w: View)
    requires g.Ok() && v.Ok() && Inv(g, v, nodes, cache, stack, w)
    requires |w.hs| > 1 && !Last(w.fs).pending && w.held == {} && w.extra == []
    ensures FramesResolved(g, v.params, v.lvl, w.fs) && Inv(g, v, nodes, cache, Init(stack), Popped(g, v, w))
    ensures Last(stack) == Entry(Last(w.hs).list, Last(w.fs).fname) && |stack| > 1
    ensures Arguments(g, v, nodes, cache, Popped(g, v, w), Last(stack).matcher, Last(w.fs))
    ensures Init(w.hs)[0].list == w.hs[0].list && FramesShape(Init(w.fs))
  {
    hide CacheOk, SharedSoFar, Rep, RepAll, Grammar.Ok, Ext, ExtAll, Expand, FrameSim, Arguments;
    var w' := Popped(g, v, w);
    assert w.outer + w.held == w.outer;
    ArgumentsPopped(g, v, nodes, cache, stack, w);
    PopSim(g, v, w.param, nodes, cache, w.outer, w.hs, w.fs, w'.held);
    InvStack(g, v, nodes, cache, stack, w);
    assert stack == Init(stack) + [Last(stack)];
    TopNotShared(g, v, nodes, cache, stack, w);
    ParamElsewhere(g, v, nodes, cache, stack, w);
    assert Content(g, v, w') == Content(g, v, w);
    ContentKept(g, v, nodes, cache, Open(w), nodes, cache, Open(w'), w.param, Content(g, v, w));
    BaseFrozen(g, v, nodes, cache, stack, w, nodes);
    HeldNew(g, v, nodes, cache, stack, w, w'.held);
    InvStep(g, v, nodes, cache, stack, w, nodes, Init(stack), w');
  }

  lemma HeldNew(g: Grammar, v: Env, nodes: seq<Node>, cache: Table, stack: seq<Entry>, w: View, held: set<nat>)
    requires g.Ok() && v.Ok() && Inv(g, v, nodes, cache, stack, w) && held <= Ids(Last(w.hs))
    ensures forall x :: x in held ==> x >= |w.base|
  {
    OpenSetPrefix(w.outer + w.held, w.hs, |w.hs| - 1);
    HolesDisjoint(w.outer + w.held, w.hs, |w.hs| - 1);
  }

  // ----- function calls -----

  /** The tree of a call's arguments. */
  ghost function Argument(g: Grammar, v: Env, f: Frame): Expr
    requires g.Ok() && v.Ok() && FrameResolved(g, v.params, v.lvl, f)
  {
    Wrapped(ExpandAll(g, v, f.items))
  }

  /** What the function gets for its parameter: a choice is shared. */
  ghost function PassedArgument(g: Grammar, v: Env, f: Frame): Expr
    requires g.Ok() && v.Ok() && FrameResolved(g, v.params, v.lvl, f)
  {
    Passed(v.style, f.fname, Argument(g, v, f))
  }

  /** The alternatives that the passed choice has when the call begins. */
  ghost function PassedAlts(g: Grammar, v: Env, w: View, f: Frame): seq<Expr>
    requires g.Ok() && v.Ok() && FrameResolved(g, v.params, v.lvl, f) && FramesResolved(g, v.params, v.lvl, w.fs)
  {
    if Argument(g, v, f).Choice? then Argument(g, v, f).alts else Content(g, v, w)
  }

  ghost function PassedTable(g: Grammar, v: Env, cache: Table, f: Frame, parameter: nat): Table
    requires g.Ok() && v.Ok() && FrameResolved(g, v.params, v.lvl, f)
  {
    if OwnArgument(v, f) then Share(cache, parameter, PassedArgument(g, v, f)) else cache
  }

  function ArgumentNodes(nodes: seq<Node>, l: nat): seq<Node>
    requires l < |nodes| && nodes[l].ListMatcher?
  {
    if |nodes[l].children| == 1 then nodes else nodes + [ListMatcher(nodes[l].children)]
  }

  function ArgumentMatcher(nodes: seq<Node>, l: nat): nat
    requires l < |nodes| && nodes[l].ListMatcher?
  {
    if |nodes[l].children| == 1 then nodes[l].children[0] else |nodes|
  }

  /** The parameter's matcher stands for the argument; a shared choice is open and has the alternatives `start`. */
  ghost predicate Passes(g: Grammar, nodes: seq<Node>, cache: Table, open: set<nat>, parameter: nat, arg: Expr,
                         start: seq<Expr>)
    requires g.Ok()
  {
    && Rep(nodes, cache, open, parameter, arg) && !arg.Choice?
    && (arg.Shared? ==> parameter in open && RepAll(nodes, cache, open, nodes[parameter].children, start))
  }

  /** Nothing but new matchers and new shares is between the two states. */
  lemma InvAppended(g: Grammar, v: Env, nodes: seq<Node>, cache: Table, stack: seq<Entry>, w: View, nodes': seq<Node>)
    requires g.Ok() && v.Ok() && Inv(g, v, nodes, cache, stack, w) && nodes <= nodes'
    ensures Inv(g, v, nodes', cache, stack, w)
    ensures Keeps(nodes, cache, Open(w), nodes', cache, Open(w))
  {
    hide Rep, RepAll, Expand, ExpandAll, Ext, ExtAll, FrameSim, Grammar.Ok, SharedSoFar;
    assert forall x :: x in cache.shared ==> SharedEntry(g, nodes, cache, Open(w), x);
    SimKept(g, v, w.param, nodes, cache, w.outer + w.held, w.hs, w.fs, nodes', cache, w.outer + w.held);
    CacheKept(g, nodes, cache, Open(w), w.prog, nodes', Open(w));
    ParamElsewhere(g, v, nodes, cache, stack, w);
    ContentKept(g, v, nodes, cache, Open(w), nodes', cache, Open(w), w.param, Content(g, v, w));
  }

  /** The choice in the argument list becomes shared. */
  lemma ShareInv(g: Grammar, v: Env, nodes: seq<Node>, cache: Table, stack: seq<Entry>, w: View, id: nat, s: Expr)
    requires g.Ok() && v.Ok() && Inv(g, v, nodes, cache, stack, w) && WellShared(g, s)
    requires w.held == {id} && id < |nodes| && nodes[id].ChoiceMatcher? && id !in cache.shared
    ensures Inv(g, v, nodes, Share(cache, id, s), stack, w)
    ensures Keeps(nodes, cache, Open(w), nodes, Share(cache, id, s), Open(w))
  {
    hide Rep, RepAll, Expand, ExpandAll, Ext, ExtAll, FrameSim, Grammar.Ok, SharedSoFar;
    var outer, cache' := w.outer + w.held, Share(cache, id, s);
    OuterOpen(outer, w.hs);
    SimKept(g, v, w.param, nodes, cache, outer, w.hs, w.fs, nodes, cache', outer);
    CacheShared(g, nodes, cache, Open(w), w.prog, id, s);
    ParamElsewhere(g, v, nodes, cache, stack, w);
    ContentKept(g, v, nodes, cache, Open(w), nodes, cache', Open(w), w.param, Content(g, v, w));
  }

  /** A call may begin: the argument is in place. */
  lemma CallBegins(g: Grammar, v: Env, nodes: seq<Node>, cache: Table, stack: seq<Entry>, w: View, l: nat, f: Frame)
    requires g.Ok() && v.Ok() && Inv(g, v, nodes, cache, stack, w) && Arguments(g, v, nodes, cache, w, l, f)
    requires f.fname != "" && g.FunctionRule(f.fname)
    ensures var nodes', p := ArgumentNodes(nodes, l), ArgumentMatcher(nodes, l);
            var cache' := PassedTable(g, v, cache, f, p);
            && Inv(g, v, nodes', cache', stack, w)
            && Passes(g, nodes', cache', Open(w), p, PassedArgument(g, v, f), PassedAlts(g, v, w, f))
  {
    hide CacheOk, SharedSoFar, Grammar.Ok, Ext, ExtAll, FrameSim, Rep, Expand;
    var kids, open := nodes[l].children, OpenSet(w.outer, w.hs);
    var nodes', p := ArgumentNodes(nodes, l), ArgumentMatcher(nodes, l);
    if OwnArgument(v, f) {
      OwnCallBegins(g, v, nodes, cache, stack, w, l, f);
    } else {
      assert w.outer + w.held == w.outer;
      InvAppended(g, v, nodes, cache, stack, w, nodes');
      WrappedRep(nodes, cache, open, kids, ExpandAll(g, v, f.items));
      if |f.items| == 1 {
        assert f.items[0] in f.items;
        SharedItem(g, v, f.items[0]);
        SharedContent(g, v, nodes, cache, stack, w);
      }
    }
  }

  lemma SharedContent(g: Grammar, v: Env, nodes: seq<Node>, cache: Table, stack: seq<Entry>, w: View)
    requires g.Ok() && v.Ok() && Inv(g, v, nodes, cache, stack, w)
    ensures v.Shares() ==>
              && w.param < |nodes| && w.param in Open(w) && nodes[w.param].ChoiceMatcher?
              && RepAll(nodes, cache, Open(w), nodes[w.param].children, Content(g, v, w))
  {
    OuterOpen(w.outer + w.held, w.hs);
  }

  lemma OwnCallBegins(g: Grammar, v: Env, nodes: seq<Node>, cache: Table, stack: seq<Entry>, w: View, l: nat, f: Frame)
    requires g.Ok() && v.Ok() && Inv(g, v, nodes, cache, stack, w) && Arguments(g, v, nodes, cache, w, l, f)
    requires f.fname != "" && g.FunctionRule(f.fname) && OwnArgument(v, f)
    ensures var p := ArgumentMatcher(nodes, l);
            var cache' := PassedTable(g, v, cache, f, p);
            && ArgumentNodes(nodes, l) == nodes
            && Inv(g, v, nodes, cache', stack, w)
            && Passes(g, nodes, cache', Open(w), p, PassedArgument(g, v, f), PassedAlts(g, v, w, f))
  {
    hide CacheOk, SharedSoFar, Grammar.Ok, Ext, ExtAll, FrameSim;
    var e, c := f.items[0], nodes[l].children[0];
    assert e in f.items;
    SharedItem(g, v, e);
    assert Expand(g, v, e) == Choice(ExpandAll(g, v, e.alts));
    var s := Shared(f.fname, ExpandAll(g, v, e.alts));
    ShareInv(g, v, nodes, cache, stack, w, c, s);
    OuterOpen(w.outer + w.held, w.hs);
    RepAllKept(nodes, cache, Open(w), nodes, Share(cache, c, s), Open(w), nodes[c].children, s.alts);
  }

  /** What a call leaves: only a shared choice that was passed changed among the old matchers. */
  ghost predicate Settled(nodes: seq<Node>, cache: Table, nodes': seq<Node>, cache': Table, parameter: nat,
                          arg: Option<Expr>)
  {
    && Frozen(nodes, nodes', if arg.Some? && arg.value.Shared? then {parameter} else {})
    && TableGrown(nodes, cache, cache')
  }

  /** Compiling something in between keeps the invariant; `more` was added to the shared choice if it was passed on. */
  lemma CallInv(g: Grammar, v: Env, nodes: seq<Node>, cache: Table, stack: seq<Entry>, w: View, nodes': seq<Node>,
                cache': Table, parameter: nat, arg: Option<Expr>, more: seq<Expr>)
    requires g.Ok() && v.Ok() && Inv(g, v, nodes, cache, stack, w)
    requires Settled(nodes, cache, nodes', cache', parameter, arg) && CacheOk(g, nodes', cache', Open(w), w.prog)
    requires arg.Some? && arg.value.Shared? ==> parameter in w.held || (arg == v.arg && parameter == w.param)
    requires if v.Shares() && arg == v.arg && parameter == w.param then
               w.param < |nodes'| && nodes'[w.param].ChoiceMatcher?
               && RepAll(nodes', cache', Open(w), nodes'[w.param].children, Content(g, v, w) + more)
             else more == []
    ensures Inv(g, v, nodes', cache', stack, w.(extra := w.extra + more))
    ensures Keeps(nodes, cache, Open(w), nodes', cache', Open(w))
  {
    hide RepAll, Expand, ExpandAll, Ext, ExtAll, FrameSim, Grammar.Ok, CacheOk;
    var outer, w' := w.outer + w.held, w.(extra := w.extra + more);
    OuterOpen(outer, w.hs);
    SimKept(g, v, w.param, nodes, cache, outer, w.hs, w.fs, nodes', cache', outer);
    assert Content(g, v, w') == Content(g, v, w) + more;
    ParamElsewhere(g, v, nodes, cache, stack, w);
    if !(v.Shares() && arg == v.arg && parameter == w.param) {
      assert Content(g, v, w) + [] == Content(g, v, w);
      ContentKept(g, v, nodes, cache, Open(w), nodes', cache', Open(w), w.param, Content(g, v, w));
    }
  }

  /** The call under way, seen from the brackets below it. */
  ghost predicate Calling(g: Grammar, v: Env, w: View, f: Frame, parameter: nat)
    requires g.Ok() && v.Ok()
  {
    && FrameResolved(g, v.params, v.lvl, f) && f.fname != "" && g.FunctionRule(f.fname)
    && w.extra == ExtAll(g, v, f.items)
    && if OwnArgument(v, f) then w.held == {parameter} && PassedArgument(g, v, f).Shared? && Argument(g, v, f).Choice?
       else
         && w.held == {} && PassedArgument(g, v, f) == Argument(g, v, f)
         && (PassedArgument(g, v, f).Shared? ==> v.arg == Some(PassedArgument(g, v, f)) && parameter == w.param)
  }

  lemma CallingFrom(g: Grammar, v: Env, nodes: seq<Node>, cache: Table, stack: seq<Entry>, w: View, l: nat, f: Frame)
    requires g.Ok() && v.Ok() && Inv(g, v, nodes, cache, stack, w) && Arguments(g, v, nodes, cache, w, l, f)
    requires f.fname != "" && g.FunctionRule(f.fname)
    ensures Calling(g, v, w, f, ArgumentMatcher(nodes, l))
  {
    hide Inv, Rep, Ext, ExtAll, Grammar.Ok, Expand;
    assert v.style.Sharing? by { InvSharing(g, v, nodes, cache, stack, w); }
    if |f.items| == 1 {
      assert f.items[0] in f.items;
      SharedItem(g, v, f.items[0]);
    }
  }

  lemma InvSharing(g: Grammar, v: Env, nodes: seq<Node>, cache: Table, stack: seq<Entry>, w: View)
    requires g.Ok() && v.Ok() && Inv(g, v, nodes, cache, stack, w)
    ensures v.style.Sharing?
  {
  }

  /** Matcher `id` stands for the body of function `name`, its parameter replaced by `arg`. */
  ghost predicate FunctionCompiled(g: Grammar, name: string, arg: Expr, nodes: seq<Node>, cache: Table, open: set<nat>,
                                   id: nat)
    requires g.Ok()
  {
    && g.FunctionRule(name) && !arg.Choice?
    && (BodyResolved(g, name);
        Rep(nodes, cache, open, id, Group(ExpandAll(g, CallEnv(g, name, arg, Sharing), g.Body(name)))))
  }

  /** What the body of a function adds to the choice it is passed. */
  ghost function BodyExt(g: Grammar, name: string, arg: Expr): seq<Expr>
    requires g.Ok() && g.FunctionRule(name) && !arg.Choice?
  {
    BodyResolved(g, name);
    ExtAll(g, CallEnv(g, name, arg, Sharing), g.Body(name))
  }

  /** A shared choice that was passed has gained what the body of the function adds. */
  ghost predicate ChoiceCompiled(g: Grammar, name: string, arg: Expr, start: seq<Expr>, nodes: seq<Node>, cache: Table,
                                 open: set<nat>, parameter: nat)
    requires g.Ok() && g.FunctionRule(name) && !arg.Choice?
  {
    arg.Shared? ==>
      && parameter < |nodes| && nodes[parameter].ChoiceMatcher?
      && RepAll(nodes, cache, open, nodes[parameter].children, start + BodyExt(g, name, arg))
  }

  /** No choice is held any more. */
  lemma HeldDropped(g: Grammar, v: Env, nodes: seq<Node>, cache: Table, stack: seq<Entry>, w: View, id: nat)
    requires g.Ok() && v.Ok() && Inv(g, v, nodes, cache, stack, w) && w.held == {id} && id in cache.shared
    requires WellShared(g, cache.shared[id])
    requires id < |nodes| && nodes[id].ChoiceMatcher?
    requires RepAll(nodes, cache, Open(w), nodes[id].children, SharedAlts(g, cache.shared[id]))
    ensures Inv(g, v, nodes, cache, stack, w.(held := {}))
    ensures Keeps(nodes, cache, Open(w), nodes, cache, Open(w.(held := {})))
  {
    hide Rep, RepAll, Expand, ExpandAll, Ext, ExtAll, FrameSim, Grammar.Ok, CacheOk, SharedSoFar;
    var w' := w.(held := {});
    assert w'.outer + w'.held == w.outer;
    SimKept(g, v, w.param, nodes, cache, w.outer + w.held, w.hs, w.fs, nodes, cache, w.outer);
    SmallerOuter(w.outer + w.held, w.outer, w.hs);
    OuterOpen(w.outer, w.hs);
    assert Open(w) == Open(w') + {id};
    CacheUnshared(g, nodes, cache, Open(w'), w.prog, id);
    assert Content(g, v, w') == Content(g, v, w);
    ContentKept(g, v, nodes, cache, Open(w), nodes, cache, Open(w'), w.param, Content(g, v, w));
  }

  lemma {:induction false} NothingAdded(g: Grammar, v: Env, es: seq<Expr>)
    requires g.Ok() && v.Ok() && !v.Shares() && forall a :: a in es ==> Resolved(g, v.params, v.lvl, a)
    ensures ExtAll(g, v, es) == []
    decreases |es|
  {
    if es != [] {
      assert forall a :: a in Init(es) ==> a in es;
      NothingAdded(g, v, Init(es));
    }
  }

  /** What a call adds to the shared choice: what its arguments add, and what the body adds if the choice is passed
      on. */
  lemma CallExt(g: Grammar, v: Env, w: View, f: Frame, parameter: nat)
    requires g.Ok() && v.Ok() && v.style.Sharing? && Calling(g, v, w, f, parameter)
    ensures Resolved(g, v.params, v.lvl, Closed(f))
    ensures var arg := PassedArgument(g, v, f);
            Ext(g, v, Closed(f))
            == ExtAll(g, v, f.items) + if arg.Shared? && !OwnArgument(v, f) then BodyExt(g, f.fname, arg) else []
  {
    hide ExtAll, ExpandAll, Grammar.Ok;
    assert Closed(f) == Call(f.fname, f.items);
    if !v.Shares() { NothingAdded(g, v, f.items); }
  }

  /** A call has been compiled: its matcher stands for it, and the choice it passed has all its alternatives. */
  lemma CallEnds(g: Grammar, v: Env, nodes: seq<Node>, cache: Table, stack: seq<Entry>, w: View, f: Frame,
                 parameter: nat, nodes': seq<Node>, cache': Table, id: nat)
    requires g.Ok() && v.Ok() && Inv(g, v, nodes, cache, stack, w) && Calling(g, v, w, f, parameter)
    requires Passes(g, nodes, cache, Open(w), parameter, PassedArgument(g, v, f), PassedAlts(g, v, w, f))
    requires var arg := PassedArgument(g, v, f);
             && Settled(nodes, cache, nodes', cache', parameter, Some(arg))
             && CacheOk(g, nodes', cache', Open(w), w.prog)
             && FunctionCompiled(g, f.fname, arg, nodes', cache', Open(w), id)
             && ChoiceCompiled(g, f.fname, arg, PassedAlts(g, v, w, f), nodes', cache', Open(w), parameter)
    ensures Resolved(g, v.params, v.lvl, Closed(f))
    ensures var w' := Called(g, v, w, f);
            Inv(g, v, nodes', cache', stack, w') && Standing(g, v, nodes', cache', w', id, Closed(f))
  {
    hide Inv, Rep, RepAll, CacheOk, Expand, ExpandAll, Ext, ExtAll, Grammar.Ok, Frozen, PassedArgument, Argument;
    InvSharing(g, v, nodes, cache, stack, w);
    CallExt(g, v, w, f, parameter);
    var arg, w' := PassedArgument(g, v, f), Called(g, v, w, f);
    if OwnArgument(v, f) {
      OwnCallEnds(g, v, nodes, cache, stack, w, f, parameter, nodes', cache');
    } else {
      var more := if arg.Shared? then BodyExt(g, f.fname, arg) else [];
      CallInv(g, v, nodes, cache, stack, w, nodes', cache', parameter, Some(arg), more);
      assert w.(extra := w.extra + more) == w';
    }
    CallStands(g, v, nodes', cache', w, w', id, f);
  }

  ghost function Called(g: Grammar, v: Env, w: View, f: Frame): View
    requires g.Ok() && v.Ok() && Resolved(g, v.params, v.lvl, Closed(f))
  {
    w.(held := {}, extra := Ext(g, v, Closed(f)))
  }

  lemma OwnCallEnds(g: Grammar, v: Env, nodes: seq<Node>, cache: Table, stack: seq<Entry>, w: View, f: Frame,
                    parameter: nat, nodes': seq<Node>, cache': Table)
    requires g.Ok() && v.Ok() && Inv(g, v, nodes, cache, stack, w) && Calling(g, v, w, f, parameter)
             && OwnArgument(v, f)
    requires Passes(g, nodes, cache, Open(w), parameter, PassedArgument(g, v, f), PassedAlts(g, v, w, f))
    requires Resolved(g, v.params, v.lvl, Closed(f)) && Ext(g, v, Closed(f)) == w.extra
    requires var arg := PassedArgument(g, v, f);
             && Settled(nodes, cache, nodes', cache', parameter, Some(arg))
             && CacheOk(g, nodes', cache', Open(w), w.prog)
             && ChoiceCompiled(g, f.fname, arg, PassedAlts(g, v, w, f), nodes', cache', Open(w), parameter)
    ensures Inv(g, v, nodes', cache', stack, Called(g, v, w, f))
    ensures Keeps(nodes', cache', Open(w), nodes', cache', Open(Called(g, v, w, f)))
  {
    hide Inv, RepAll, CacheOk, Expand, ExpandAll, Ext, ExtAll, Grammar.Ok, Frozen, Resolved;
    var arg := PassedArgument(g, v, f);
    ParamNotHeld(g, v, nodes, cache, stack, w);
    CallInv(g, v, nodes, cache, stack, w, nodes', cache', parameter, Some(arg), []);
    assert w.(extra := w.extra + []) == w;
    assert cache'.shared[parameter] == arg && arg == Shared(f.fname, Argument(g, v, f).alts);
    assert SharedAlts(g, arg) == PassedAlts(g, v, w, f) + BodyExt(g, f.fname, arg);
    HeldDropped(g, v, nodes', cache', stack, w, parameter);
  }

  lemma ParamNotHeld(g: Grammar, v: Env, nodes: seq<Node>, cache: Table, stack: seq<Entry>, w: View)
    requires g.Ok() && v.Ok() && Inv(g, v, nodes, cache, stack, w)
    ensures v.Shares() ==> w.param !in w.held
    ensures FramesResolved(g, v.params, v.lvl, w.fs) && v.style.Sharing?
  {
  }

  /** The body compiled for a call stands for the call. */
  lemma CallStands(g: Grammar, v: Env, nodes: seq<Node>, cache: Table, w: View, w': View, id: nat, f: Frame)
    requires g.Ok() && v.Ok() && v.style.Sharing? && f.fname != "" && FrameResolved(g, v.params, v.lvl, f)
    requires FunctionCompiled(g, f.fname, PassedArgument(g, v, f), nodes, cache, Open(w), id)
    requires w'.param == w.param && Resolved(g, v.params, v.lvl, Closed(f)) && w'.extra == Ext(g, v, Closed(f))
    requires Open(w') == Open(w) || Keeps(nodes, cache, Open(w), nodes, cache, Open(w'))
    ensures Standing(g, v, nodes, cache, w', id, Closed(f))
  {
    hide Ext, Rep, ExpandAll;
    BodyResolved(g, f.fname);
    var body := Expand(g, v, Closed(f));
    assert body == Group(ExpandAll(g, CallEnv(g, f.fname, PassedArgument(g, v, f), Sharing), g.Body(f.fname)));
    if Open(w') != Open(w) { RepKept(nodes, cache, Open(w), nodes, cache, Open(w'), id, body); }
  }

  /** A plain bracket stands for the group of its elements. */
  lemma GroupStands(g: Grammar, v: Env, nodes: seq<Node>, cache: Table, w: View, l: nat, f: Frame)
    requires g.Ok() && v.Ok() && Arguments(g, v, nodes, cache, w, l, f) && f.fname == ""
    ensures Standing(g, v, nodes, cache, w, l, Closed(f))
  {
    hide Grammar.Ok, ExpandAll, ExtAll;
    assert w.outer + w.held == w.outer;
    if !v.Shares() { NothingAdded(g, v, f.items); }
  }

  // ----- termination: rules still missing from the cache -----

  function Missing(g: Grammar, cache: map<string, nat>): nat {
    |g.live - cache.Keys|
  }

  lemma {:induction false} SubsetSize<T>(a: set<T>, b: set<T>)
    requires a <= b
    ensures |a| <= |b| && (a != b ==> |a| < |b|)
    decreases a
  {
    if a == {} {
      if b != {} { var x :| x in b; }
    } else {
      var x :| x in a;
      SubsetSize(a - {x}, b - {x});
    }
  }

  lemma MissingShrinks(g: Grammar, cache: map<string, nat>, cache': map<string, nat>)
    requires Extends(cache, cache')
    ensures Missing(g, cache') <= Missing(g, cache)
    ensures (exists r :: r in g.live && r in cache' && r !in cache) ==> Missing(g, cache') < Missing(g, cache)
  {
    SubsetSize(g.live - cache'.Keys, g.live - cache.Keys);
    if r :| r in g.live && r in cache' && r !in cache {
      assert r in g.live - cache.Keys && r !in g.live - cache'.Keys;
    }
  }

  /** A list of several arguments is wrapped in one new list matcher. */
  lemma WrappedRep(nodes: seq<Node>, cache: Table, open: set<nat>, ids: seq<nat>, ts: seq<Expr>)
    requires RepAll(nodes, cache, open, ids, ts) && (forall x :: x in open ==> x < |nodes|)
    ensures |ids| == 1 ==> Rep(nodes, cache, open, ids[0], Wrapped(ts))
    ensures |ids| != 1 ==> Rep(nodes + [ListMatcher(ids)], cache, open, |nodes|, Wrapped(ts))
  {
    RepAllKept(nodes, cache, open, nodes + [ListMatcher(ids)], cache, open, ids, ts);
  }

  // ----- one rule body, token by token -----

  ghost predicate BodyInv(g: Grammar, v: Env, ts: seq<PegToken>, k: nat, nodes: seq<Node>, cache: Table,
                          stack: seq<Entry>, w: View)
    requires g.Ok() && v.Ok()
  {
    && Inv(g, v, nodes, cache, stack, w) && w.held == {} && w.extra == []
    && k <= |ts|
    && Parse(ts).Some? && Run(w.fs, ts[k..]) == Run([Frame("", [], false)], ts)
    && (forall t :: t in ts ==> g.TokenOk(v.params, v.lvl, t))
  }

  /** The rest of the body after a step to fs'. */
  ghost predicate Rest(g: Grammar, v: Env, ts: seq<PegToken>, k: nat, fs': seq<Frame>)
    requires 0 < k <= |ts| && FramesShape(fs')
  {
    && Parse(ts).Some? && Run(fs', ts[k..]) == Run([Frame("", [], false)], ts)
    && (forall t :: t in ts ==> g.TokenOk(v.params, v.lvl, t))
  }

  lemma BodyStep(g: Grammar, v: Env, ts: seq<PegToken>, k: nat, nodes: seq<Node>, cache: Table, stack: seq<Entry>,
                 w: View)
    requires g.Ok() && v.Ok() && k < |ts| && BodyInv(g, v, ts, k, nodes, cache, stack, w)
    ensures Inv(g, v, nodes, cache, stack, w) && w.held == {} && w.extra == []
    ensures FramesShape(w.fs) && Step(w.fs, ts[k]).Some? && g.TokenOk(v.params, v.lvl, ts[k])
    ensures Rest(g, v, ts, k + 1, Step(w.fs, ts[k]).value)
  {
    assert ts[k..][0] == ts[k] && ts[k..][1..] == ts[k + 1..];
    assert ts[k] in ts;
  }

  lemma BodyNext(g: Grammar, v: Env, ts: seq<PegToken>, k: nat, nodes: seq<Node>, cache: Table, stack: seq<Entry>,
                 fs: seq<Frame>, w': View)
    requires g.Ok() && v.Ok() && k < |ts| && FramesShape(fs) && Step(fs, ts[k]).Some?
    requires Rest(g, v, ts, k + 1, Step(fs, ts[k]).value)
    requires w'.fs == Step(fs, ts[k]).value && w'.held == {} && w'.extra == [] && Inv(g, v, nodes, cache, stack, w')
    ensures BodyInv(g, v, ts, k + 1, nodes, cache, stack, w')
  {
  }

  /** The keyword matcher of a literal: an override from before, or a new one. */
  lemma KeywordAdded(g: Grammar, v: Env, nodes: seq<Node>, nodes': seq<Node>, cache: Table, stack: seq<Entry>, w: View,
                     id: nat, text: string)
    requires g.Ok() && v.Ok() && Inv(g, v, nodes, cache, stack, w) && nodes <= nodes' && w.extra == []
    requires id < |nodes'| && nodes'[id].KeywordMatcher? && CIEquals(nodes'[id].text, text)
    requires id >= |nodes| || (id < |w.base| && id !in w.outer)
    ensures Inv(g, v, nodes', cache, stack, w)
    ensures Standing(g, v, nodes', cache, w, id, Lit(text))
  {
    hide FrameSim, CacheOk, Grammar.Ok, SharedSoFar;
    InvAppended(g, v, nodes, cache, stack, w, nodes');
    assert id !in Open(w);
  }

  /** The view with which a rule body is begun. */
  function FirstView(outer: set<nat>, prog: set<string>, nodes: seq<Node>, cache: Table, list: nat, param: nat,
                     start: seq<Expr>): View
  {
    View(outer, {}, prog, nodes, cache, [Hole(list, None, true)], [Frame("", [], false)], param, start, [])
  }

  /** What compiling a rule body may rely on. */
  ghost predicate Startable(g: Grammar, v: Env, nodes: seq<Node>, cache: Table, outer: set<nat>, prog: set<string>,
                            param: nat, start: seq<Expr>)
    requires g.Ok()
  {
    && CacheOk(g, nodes, cache, outer, prog) && (forall x :: x in outer ==> x < |nodes|)
    && (v.arg.Some? ==> Passes(g, nodes, cache, outer, param, v.arg.value, start))
  }

  lemma BodyStarted(g: Grammar, v: Env, nodes: seq<Node>, cache: Table, name: string, is_function_call: bool,
                    outer: set<nat>, prog: set<string>, param: nat, start: seq<Expr>)
    requires g.Ok() && v.Ok() && v.style.Sharing? && name in g.live
    requires v.params == g.RuleOf(name).params && v.lvl == g.Level(name)
    requires Startable(g, v, nodes, cache, outer, prog, param, start)
    requires is_function_call == (v.params != []) && (!is_function_call ==> name !in cache.rules)
    ensures BodyInv(g, v, g.RuleOf(name).tokens, 0, nodes + [ListMatcher([])],
                    if is_function_call then cache else Begin(cache, name, |nodes|), [Entry(|nodes|, "")],
                    FirstView(outer, if is_function_call then prog else prog + {name}, nodes, cache, |nodes|, param,
                              start))
  {
    hide Rep, RepAll, CacheOk, Expand, Ext, ExtAll;
    var nodes', cache' := nodes + [ListMatcher([])], if is_function_call then cache else Begin(cache, name, |nodes|);
    var w := FirstView(outer, if is_function_call then prog else prog + {name}, nodes, cache, |nodes|, param, start);
    assert outer + {} == outer;
    FirstOpen(outer, w.hs[0], w.fs[0]);
    assert Open(w) == outer + {|nodes|};
    assert Keeps(nodes, cache, outer, nodes', cache', Open(w));
    if is_function_call {
      CacheKept(g, nodes, cache, outer, prog, nodes', Open(w));
    } else {
      CacheBegun(g, nodes, cache, outer, prog, name);
    }
    assert FrameSim(g, v, param, nodes', cache', Open(w), w.hs[0], w.fs[0]);
    FirstContent(g, v, w.fs[0]);
    assert Content(g, v, w) == start;
    if v.Shares() {
      RepKept(nodes, cache, outer, nodes', cache', Open(w), param, v.arg.value);
      SharedIn(nodes, cache, outer, param, v.arg.value);
      RepAllKept(nodes, cache, outer, nodes', cache', Open(w), nodes[param].children, start);
    }
    var ts := g.RuleOf(name).tokens;
    assert ts[0..] == ts;
  }

  lemma SharedIn(nodes: seq<Node>, cache: Table, open: set<nat>, id: nat, s: Expr)
    requires Rep(nodes, cache, open, id, s) && s.Shared?
    ensures id < |nodes| && nodes[id].ChoiceMatcher? && id in cache.shared && cache.shared[id] == s
  {
  }

  lemma FirstOpen(outer: set<nat>, h: Hole, f: Frame)
    requires f == Frame("", [], false) && h.choice == None && h.list !in outer
    ensures OpenSet(outer, [h]) == outer + {h.list} && Disjoint(outer, [h])
    ensures Stack([h], [f]) == [Entry(h.list, "")]
  {
    assert Init([h]) == [] && Init([f]) == [];
    assert OpenSet(outer, Init([h])) == outer;
    assert Disjoint(outer, Init([h])) && Ids(h) == {h.list};
    assert Stack(Init([h]), Init([f])) == [];
  }

  lemma FirstContent(g: Grammar, v: Env, f: Frame)
    requires g.Ok() && v.Ok() && FrameResolved(g, v.params, v.lvl, f)
    ensures FramesResolved(g, v.params, v.lvl, [f]) && ExtFrames(g, v, [f]) == ExtAll(g, v, f.items)
    ensures ExtAll(g, v, []) == []
  {
    hide Ext, Grammar.Ok;
    assert Init([f]) == [];
    assert ExtFrames(g, v, []) == [];
    assert [] + ExtAll(g, v, f.items) == ExtAll(g, v, f.items);
  }

  lemma BodyEnded(g: Grammar, v: Env, ts: seq<PegToken>, nodes: seq<Node>, cache: Table, stack: seq<Entry>, w: View)
    requires g.Ok() && v.Ok() && BodyInv(g, v, ts, |ts|, nodes, cache, stack, w)
    ensures |stack| == 1 && |w.hs| == |w.fs| == 1 && !w.fs[0].pending && Parse(ts) == Some(w.fs[0].items)
    ensures Inv(g, v, nodes, cache, Stack(w.hs, w.fs), w)
  {
    assert ts[|ts|..] == [];
    InvStack(g, v, nodes, cache, stack, w);
  }

  /** The finished body: its root list stands for it, the rule leaves the ones in progress, and a shared choice has got
      what the body adds. */
  lemma BodyCompiled(g: Grammar, v: Env, name: string, nodes: seq<Node>, cache: Table, stack: seq<Entry>, w: View,
                     prog: set<string>, parameters: seq<nat>, is_function_call: bool)
    requires g.Ok() && v.Ok() && v.style.Sharing? && name in g.live
    requires v.params == g.RuleOf(name).params && v.lvl == g.Level(name)
    requires is_function_call == (v.params != []) == (parameters != [])
             && (parameters != [] ==> parameters[0] == w.param)
    requires Inv(g, v, nodes, cache, stack, w) && w.held == {} && w.extra == []
    requires |w.fs| == 1 && !w.fs[0].pending && Parse(g.RuleOf(name).tokens) == Some(w.fs[0].items)
    requires w.prog == if is_function_call then prog else prog + {name}
    requires !is_function_call ==> name in cache.rules && cache.rules[name] == w.hs[0].list
    ensures Compiled(g, nodes, cache, name, parameters, w.outer, prog, v.arg, w.start, w.hs[0].list)
    ensures Settled(w.base, w.base_cache, nodes, cache, w.param, v.arg)
  {
    hide Rep, RepAll, Expand, ExpandAll, Ext, ExtAll, SharedEntry;
    BodyResolved(g, name);
    assert w.outer + w.held == w.outer;
    RootRep(g, v, w.param, nodes, cache, w.outer, w.hs, w.fs);
    TopNotShared(g, v, nodes, cache, stack, w);
    assert Open(w) == w.outer + Ids(w.hs[0]) by { assert Init(w.hs) == [] && OpenSet(w.outer, Init(w.hs)) == w.outer; }
    CacheKept(g, nodes, cache, Open(w), w.prog, nodes, w.outer);
    forall r | r in cache.rules ensures CacheEntry(g, nodes, cache, w.outer, prog, r) {
      assert CacheEntry(g, nodes, cache, w.outer, w.prog, r);
      if r == name && r !in prog && r !in g.overrides { assert cache.rules[r] == w.hs[0].list; }
    }
    assert CacheOk(g, nodes, cache, w.outer, prog) by {
      assert forall id :: id in cache.shared ==> SharedEntry(g, nodes, cache, w.outer, id);
    }
    if is_function_call {
      BodyChoice(g, v, name, nodes, cache, stack, w);
      assert v == CallEnv(g, name, v.arg.value, Sharing);
      RootStands(nodes, cache, w.outer, w.hs[0].list, ExpandAll(g, v, w.fs[0].items));
    }
  }

  lemma RootStands(nodes: seq<Node>, cache: Table, open: set<nat>, l: nat, ts: seq<Expr>)
    requires l < |nodes| && l !in open && nodes[l].ListMatcher? && RepAll(nodes, cache, open, nodes[l].children, ts)
    ensures Rep(nodes, cache, open, l, Group(ts))
  {
  }

  lemma BodyChoice(g: Grammar, v: Env, name: string, nodes: seq<Node>, cache: Table, stack: seq<Entry>, w: View)
    requires g.Ok() && v.Ok() && Inv(g, v, nodes, cache, stack, w) && g.FunctionRule(name)
    requires v.arg.Some? && v == CallEnv(g, name, v.arg.value, Sharing) && w.held == {} && w.extra == []
    requires |w.fs| == 1 && !w.fs[0].pending && w.fs[0].items == g.Body(name)
    ensures ChoiceCompiled(g, name, v.arg.value, w.start, nodes, cache, w.outer, w.param)
  {
    hide Rep, RepAll, Expand, ExpandAll, Ext, ExtAll, CacheOk, FrameSim, Grammar.Ok;
    if v.Shares() {
      assert w.outer + w.held == w.outer;
      assert FrameResolved(g, v.params, v.lvl, w.fs[0]);
      FirstContent(g, v, w.fs[0]);
      assert w.fs == [w.fs[0]];
      assert Content(g, v, w) == w.start + ExtAll(g, v, w.fs[0].items);
      SharedContent(g, v, nodes, cache, stack, w);
      RootRep(g, v, w.param, nodes, cache, w.outer, w.hs, w.fs);
      RepAllKept(nodes, cache, Open(w), nodes, cache, w.outer, nodes[w.param].children, Content(g, v, w));
    }
  }

  // ----- facts the methods below use without unfolding them -----

  predicate Good(nodes: seq<Node>, cache: map<string, nat>, keywords: map<string, nat>) {
    && NodesIn(nodes)
    && (forall r :: r in cache ==> cache[r] < |nodes|)
    && (forall k :: k in keywords ==>
          keywords[k] < |nodes| && nodes[keywords[k]].KeywordMatcher? && Lower(nodes[keywords[k]].text) == k)
  }

  /** Matchers and cache entries are only added, and the rest stays of its type. */
  predicate Grown(nodes: seq<Node>, cache: map<string, nat>, nodes': seq<Node>, cache': map<string, nat>) {
    Grows(nodes, nodes') && Extends(cache, cache')
  }

  lemma GrownTwice(a: seq<Node>, ca: map<string, nat>, b: seq<Node>, cb: map<string, nat>, c: seq<Node>,
                   cc: map<string, nat>)
    requires Grown(a, ca, b, cb) && Grown(b, cb, c, cc)
    ensures Grown(a, ca, c, cc)
  {
  }

  lemma GrownGrows(a: seq<Node>, ca: map<string, nat>, b: seq<Node>, cb: map<string, nat>)
    requires Grown(a, ca, b, cb)
    ensures Grows(a, b) && Extends(ca, cb) && |a| <= |b|
  {
  }

  lemma GrownSame(a: seq<Node>, c: map<string, nat>, b: seq<Node>)
    requires Grows(a, b)
    ensures Grown(a, c, b, c)
  {
  }

  lemma PrefixGrown(a: seq<Node>, ca: map<string, nat>, b: seq<Node>, cb: map<string, nat>)
    requires a <= b && Extends(ca, cb)
    ensures Grown(a, ca, b, cb)
  {
  }

  lemma StackGrown(g: Grammar, lvl: nat, nodes: seq<Node>, nodes': seq<Node>, stack: seq<Entry>)
    requires StackOk(g, lvl, nodes, stack) && Grows(nodes, nodes')
    ensures StackOk(g, lvl, nodes', stack)
  {
    forall k | 0 <= k < |stack| ensures EntryOk(g, lvl, nodes', stack[k]) {
      assert EntryOk(g, lvl, nodes, stack[k]);
    }
  }

  lemma StackParts(g: Grammar, lvl: nat, nodes: seq<Node>, stack: seq<Entry>)
    requires StackOk(g, lvl, nodes, stack)
    ensures stack != [] && EntryOk(g, lvl, nodes, Last(stack))
    ensures |stack| > 1 ==> StackOk(g, lvl, nodes, Init(stack))
  {
  }

  lemma StackPushed(g: Grammar, lvl: nat, nodes: seq<Node>, stack: seq<Entry>, e: Entry)
    requires StackOk(g, lvl, nodes, stack) && EntryOk(g, lvl, nodes, e)
    ensures StackOk(g, lvl, nodes, stack + [e])
  {
  }

  lemma AllocatedGood(nodes: seq<Node>, cache: map<string, nat>, keywords: map<string, nat>, n: Node)
    requires Good(nodes, cache, keywords) && NodeIn(n, |nodes|)
    ensures Good(nodes + [n], cache, keywords) && Grown(nodes, cache, nodes + [n], cache)
  {
    forall k | 0 <= k < |nodes| + 1 ensures NodeIn((nodes + [n])[k], |nodes| + 1) {
      if k < |nodes| { assert NodeIn(nodes[k], |nodes|); }
    }
  }

  lemma GrownGood(nodes: seq<Node>, cache: map<string, nat>, keywords: map<string, nat>, nodes': seq<Node>)
    requires Good(nodes, cache, keywords) && Grows(nodes, nodes') && NodesIn(nodes')
    ensures Good(nodes', cache, keywords)
  {
  }

  /** The children of a matcher are matchers. */
  lemma ChildIn(nodes: seq<Node>, id: nat)
    requires NodesIn(nodes) && id < |nodes| && (nodes[id].ListMatcher? || nodes[id].ChoiceMatcher?)
    ensures forall c :: c in nodes[id].children ==> c < |nodes|
    ensures nodes[id].children != [] ==> Last(nodes[id].children) < |nodes|
    ensures NodeIn(ListMatcher(nodes[id].children), |nodes|)
  {
    assert NodeIn(nodes[id], |nodes|);
    if nodes[id].children != [] { assert Last(nodes[id].children) in nodes[id].children; }
  }

  lemma SuffixGood(op: char, nodes: seq<Node>, cache: map<string, nat>, keywords: map<string, nat>, l: nat)
    requires Good(nodes, cache, keywords) && l < |nodes| && nodes[l].ListMatcher? && nodes[l].children != []
    ensures Good(Resuffixed(op, nodes, l), cache, keywords) && Grows(nodes, Resuffixed(op, nodes, l))
  {
    ChildIn(nodes, l);
    var more := SuffixNodes(op, |nodes|, Last(nodes[l].children));
    ReplacedGrows(nodes, more, l, |nodes| + |more| - 1);
    GrownGood(nodes, cache, keywords, Resuffixed(op, nodes, l));
  }

  lemma SlashGood(nodes: seq<Node>, cache: map<string, nat>, keywords: map<string, nat>, l: nat)
    requires Good(nodes, cache, keywords) && l < |nodes| && nodes[l].ListMatcher? && nodes[l].children != []
    ensures Last(nodes[l].children) < |nodes|
    ensures Good(SlashNodes(nodes, l), cache, keywords) && Grows(nodes, SlashNodes(nodes, l))
    ensures SlashChoice(nodes, l) < |SlashNodes(nodes, l)| && SlashNodes(nodes, l)[SlashChoice(nodes, l)].ChoiceMatcher?
  {
    ChildIn(nodes, l);
    if !nodes[Last(nodes[l].children)].ChoiceMatcher? {
      ReplacedGrows(nodes, [ChoiceMatcher([Last(nodes[l].children)])], l, |nodes|);
      GrownGood(nodes, cache, keywords, Rechosen(nodes, l));
    }
  }

  /** What compiling `name` may rely on: `arg` is the tree its parameter matcher stands for, `start` the alternatives of
      the choice it is (if it is a shared one). */
  ghost predicate Ready(g: Grammar, nodes: seq<Node>, cache: Table, keywords: map<string, nat>, name: string,
                        parameters: seq<nat>, outer: set<nat>, prog: set<string>, arg: Option<Expr>, start: seq<Expr>)
    requires g.Ok()
  {
    && CacheOk(g, nodes, cache, outer, prog)
    && (forall x :: x in outer ==> x < |nodes|)
    && (forall k :: k in keywords ==> keywords[k] !in outer)
    && if parameters == [] then arg == None && g.Plain(name)
       else
         && |parameters| == 1 && g.FunctionRule(name)
         && arg.Some? && Passes(g, nodes, cache, outer, parameters[0], arg.value, start)
  }

  /** What compiling `name` achieves: the one shared matcher of a rule, or the expanded body of a function. */
  ghost predicate Compiled(g: Grammar, nodes: seq<Node>, cache: Table, name: string, parameters: seq<nat>,
                           outer: set<nat>, prog: set<string>, arg: Option<Expr>, start: seq<Expr>, id: nat)
    requires g.Ok()
  {
    && CacheOk(g, nodes, cache, outer, prog)
    && if parameters == [] then name in cache.rules && cache.rules[name] == id
       else
         && arg.Some? && FunctionCompiled(g, name, arg.value, nodes, cache, outer, id)
         && ChoiceCompiled(g, name, arg.value, start, nodes, cache, outer, parameters[0])
  }

  lemma CallReady(g: Grammar, v: Env, nodes: seq<Node>, cache: Table, keywords: map<string, nat>, stack: seq<Entry>,
                  w: View, name: string, parameter: nat, arg: Expr, start: seq<Expr>)
    requires g.Ok() && v.Ok() && Inv(g, v, nodes, cache, stack, w)
    requires g.FunctionRule(name) && Passes(g, nodes, cache, Open(w), parameter, arg, start)
    requires forall k :: k in keywords ==> keywords[k] < |w.base| && keywords[k] !in w.outer
    ensures Ready(g, nodes, cache, keywords, name, [parameter], Open(w), w.prog, Some(arg), start)
  {
  }

  /** Compiling another rule in between. */
  lemma RuleCompiled(g: Grammar, v: Env, nodes: seq<Node>, cache: Table, stack: seq<Entry>, w: View, nodes': seq<Node>,
                     cache': Table, name: string, id: nat)
    requires g.Ok() && v.Ok() && Inv(g, v, nodes, cache, stack, w)
    requires Settled(nodes, cache, nodes', cache', 0, None)
    requires Compiled(g, nodes', cache', name, [], Open(w), w.prog, None, [], id)
    ensures Inv(g, v, nodes', cache', stack, w)
    ensures name in cache'.rules && cache'.rules[name] == id
  {
    hide Inv, CacheOk, Grammar.Ok;
    SharedContent(g, v, nodes, cache, stack, w);
    CallInv(g, v, nodes, cache, stack, w, nodes', cache', 0, None, []);
    assert w.(extra := w.extra + []) == w;
  }

  lemma ReadyRule(g: Grammar, nodes: seq<Node>, cache: Table, keywords: map<string, nat>, name: string,
                  parameters: seq<nat>, outer: set<nat>, prog: set<string>, arg: Option<Expr>, start: seq<Expr>)
    requires g.Ok() && Ready(g, nodes, cache, keywords, name, parameters, outer, prog, arg, start)
    ensures CacheOk(g, nodes, cache, outer, prog)
    ensures parameters != [] || name !in cache.rules ==> name in g.live && g.Has(name) && g.RuleOk(name)
    ensures g.Has(name) && (parameters == [] ==> name !in cache.rules) ==>
              |parameters| == |g.RuleOf(name).params| <= 1 && (g.RuleOf(name).params != [] <==> arg.Some?)
    ensures parameters != [] ==> arg.Some? && Passes(g, nodes, cache, outer, parameters[0], arg.value, start)
    ensures parameters == [] ==> arg == None
    ensures forall x :: x in outer ==> x < |nodes|
    ensures forall k :: k in keywords ==> keywords[k] !in outer
  {
  }

  lemma BegunGood(nodes: seq<Node>, cache: map<string, nat>, keywords: map<string, nat>, name: string, id: nat)
    requires Good(nodes, cache, keywords) && id < |nodes|
    ensures Good(nodes, cache[name := id], keywords)
  {
  }

  lemma AcyclicTokens(g: Grammar, name: string)
    requires g.Acyclic() && name in g.live
    ensures g.Has(name) && forall t :: t in g.RuleOf(name).tokens ==> g.Leads(name, t)
    ensures g.RuleOf(name).params == [] ==> g.Level(name) == g.top
    ensures g.RuleOf(name).params != [] ==> g.Level(name) == g.Rank(name)
    ensures g.Rank(name) < g.top
  {
  }

  /** A plain rule is in the cache before its body is read. */
  ghost predicate Begun(g: Grammar, cache0: map<string, nat>, cache: map<string, nat>, name: string, matcher: nat,
                        is_function_call: bool)
  {
    !is_function_call ==> name !in cache0 && name in cache && cache[name] == matcher
  }

  lemma BegunShrinks(g: Grammar, nodes0: seq<Node>, cache0: map<string, nat>, nodes: seq<Node>, cache: map<string, nat>,
                     name: string, matcher: nat, is_function_call: bool)
    requires Grown(nodes0, cache0, nodes, cache) && Begun(g, cache0, cache, name, matcher, is_function_call)
             && name in g.live
    ensures Missing(g, cache) <= Missing(g, cache0)
    ensures !is_function_call ==> Missing(g, cache) < Missing(g, cache0)
  {
    MissingShrinks(g, cache0, cache);
  }

  lemma BegunStays(g: Grammar, nodes: seq<Node>, cache: map<string, nat>, nodes': seq<Node>, cache': map<string, nat>,
                   cache0: map<string, nat>, name: string, matcher: nat, is_function_call: bool)
    requires Grown(nodes, cache, nodes', cache') && Begun(g, cache0, cache, name, matcher, is_function_call)
    ensures Begun(g, cache0, cache', name, matcher, is_function_call)
  {
  }

  /** The parameter's matcher, as seen inside the rule. */
  ghost predicate HasParameter(v: Env, w: View, parameters: seq<nat>) {
    parameters != [] ==>
      v.arg.Some? && parameters[0] == w.param && Rep(w.base, w.base_cache, w.outer, w.param, v.arg.value)
  }

  /** The argument stays represented inside the activation it was passed to. */
  lemma ParameterStands(g: Grammar, v: Env, nodes: seq<Node>, cache: Table, stack: seq<Entry>, w: View, name: string)
    requires g.Ok() && v.Ok() && Inv(g, v, nodes, cache, stack, w) && name in v.params && w.extra == []
    requires Rep(w.base, w.base_cache, w.outer, w.param, v.arg.value)
    ensures Standing(g, v, nodes, cache, w, w.param, Ref(name))
  {
    hide Sim, CacheOk, RepAll, Grammar.Ok;
    assert Keeps(w.base, w.base_cache, w.outer, nodes, cache, Open(w));
    RepKept(w.base, w.base_cache, w.outer, nodes, cache, Open(w), w.param, v.arg.value);
  }

  lemma ReferenceReady(g: Grammar, v: Env, nodes: seq<Node>, cache: Table, keywords: map<string, nat>,
                       stack: seq<Entry>, w: View, name: string)
    requires g.Ok() && v.Ok() && Inv(g, v, nodes, cache, stack, w)
    requires g.TokenOk(v.params, v.lvl, Reference(name)) && name !in v.params
    requires forall k :: k in keywords ==> keywords[k] < |w.base| && keywords[k] !in w.outer
    ensures Ready(g, nodes, cache, keywords, name, [], Open(w), w.prog, None, [])
  {
  }

  lemma ReferenceStands(g: Grammar, v: Env, nodes: seq<Node>, cache: Table, w: View, id: nat, name: string)
    requires g.Ok() && v.Ok() && g.TokenOk(v.params, v.lvl, Reference(name)) && name !in v.params && w.extra == []
    requires name in cache.rules && cache.rules[name] == id < |nodes|
    ensures Standing(g, v, nodes, cache, w, id, Ref(name))
  {
  }

  /** The step from w to w' changes nothing but the open brackets, and keeps the root list. */
  ghost predicate Moved(w: View, w': View, fs: seq<Frame>) {
    && w.hs != [] && w'.hs != []
    && w' == w.(hs := w'.hs, fs := fs, held := {}, extra := [])
    && w'.hs[0].list == w.hs[0].list
  }

  lemma PoppedParts(g: Grammar, v: Env, nodes: seq<Node>, cache: Table, w: View, l: nat, f: Frame)
    requires g.Ok() && v.Ok() && Arguments(g, v, nodes, cache, w, l, f)
    ensures FrameResolved(g, v.params, v.lvl, f)
    ensures f.fname != "" ==> g.FunctionRule(f.fname)
    ensures f.fname == "" ==> w.held == {}
  {
  }

  lemma CallingParts(g: Grammar, v: Env, w: View, f: Frame, parameter: nat)
    requires g.Ok() && v.Ok() && Calling(g, v, w, f, parameter)
    ensures FrameResolved(g, v.params, v.lvl, f)
    ensures OwnArgument(v, f) ==> PassedArgument(g, v, f).Shared?
  {
  }

  lemma ArgumentOk(g: Grammar, nodes: seq<Node>, cache: Table, keywords: map<string, nat>, name: string,
                   parameters: seq<nat>, outer: set<nat>, prog: set<string>, arg: Option<Expr>, start: seq<Expr>)
    requires g.Ok() && Ready(g, nodes, cache, keywords, name, parameters, outer, prog, arg, start)
    ensures arg.Some? ==> !arg.value.Choice? && parameters != [] && Rep(nodes, cache, outer, parameters[0], arg.value)
  {
  }

  lemma BodyRested(g: Grammar, v: Env, ts: seq<PegToken>, k: nat, nodes: seq<Node>, cache: Table, stack: seq<Entry>,
                   w: View)
    requires g.Ok() && v.Ok() && BodyInv(g, v, ts, k, nodes, cache, stack, w)
    ensures w.held == {} && w.extra == []
  {
  }

  class MatcherList {
    const parser: Grammar
    const factory: MatcherFactory
    var matchers: seq<Entry>
    ghost const lvl: nat

    ghost predicate Valid()
      reads this, factory
    {
      parser.Acyclic() && factory.Valid() && factory.Loaded(parser) && StackOk(parser, lvl, factory.nodes, matchers)
    }

    /** With rules that are in order, the stack simulates the machine on trees. */
    ghost predicate Simulates(v: Env, w: View)
      reads this, factory
    {
      parser.Ok() ==>
        && v.Ok() && v.lvl == lvl && Inv(parser, v, factory.nodes, factory.Cache(), matchers, w)
        && factory.KeywordsClear(|w.base|, w.outer)
    }

    /** Nothing is held over from a call. */
    ghost predicate Rested(w: View) {
      parser.Ok() ==> w.held == {} && w.extra == []
    }

    /** The top bracket is the argument list f of a function call; w is the view of the brackets below it. */
    ghost predicate Calls(v: Env, w: View, f: Frame)
      reads this, factory
      requires matchers != []
    {
      parser.Ok() ==>
        && v.Ok() && v.lvl == lvl && Inv(parser, v, factory.nodes, factory.Cache(), Init(matchers), w)
        && factory.KeywordsClear(|w.base|, w.outer) && f.fname == Last(matchers).fname && parser.FunctionRule(f.fname)
        && Arguments(parser, v, factory.nodes, factory.Cache(), w, Last(matchers).matcher, f)
    }

    /** k tokens of the body are read. */
    ghost predicate Reads(v: Env, ts: seq<PegToken>, k: nat, w: View)
      reads this, factory
    {
      parser.Ok() ==>
        && v.Ok() && v.lvl == lvl && BodyInv(parser, v, ts, k, factory.nodes, factory.Cache(), matchers, w)
        && factory.KeywordsClear(|w.base|, w.outer)
    }

    constructor (parser: Grammar, factory: MatcherFactory, root: nat, ghost lvl: nat)
      requires parser.Acyclic() && factory.Valid() && factory.Loaded(parser) && root < |factory.nodes|
               && factory.nodes[root].ListMatcher?
      ensures this.parser == parser && this.factory == factory && this.lvl == lvl
      ensures Valid() && matchers == [Entry(root, "")]
    {
      this.parser, this.factory, this.lvl := parser, factory, lvl;
      matchers := [Entry(root, "")];
    }

    /** Appends to the top matcher; a choice takes one more alternative and leaves the stack.
        Its exceptions cannot occur: the stack holds lists and choices only, and a list at the bottom. */
    method AddMatcher(id: nat)
      requires Valid() && id < |factory.nodes|
      modifies this`matchers, factory`nodes
      ensures Valid() && Grows(old(factory.nodes), factory.nodes)
      ensures var t := old(Last(matchers).matcher);
              && factory.nodes == Pushed(old(factory.nodes), t, id)
              && matchers == if old(factory.nodes[t].ListMatcher?) then old(matchers) else Init(old(matchers))
    {
      hide NodesIn, Missing, NodeIn, Grows, StackOk;
      StackParts(parser, lvl, factory.nodes, matchers);
      var root := matchers[|matchers| - 1].matcher;
      PushedGrows(factory.nodes, root, id);
      GrownGood(factory.nodes, factory.matchers, factory.keyword_overrides, Pushed(factory.nodes, root, id));
      StackGrown(parser, lvl, factory.nodes, Pushed(factory.nodes, root, id), matchers);
      StackParts(parser, lvl, Pushed(factory.nodes, root, id), matchers);
      match factory.nodes[root]
      case ListMatcher(cs) =>
        factory.nodes := factory.nodes[root := ListMatcher(cs + [id])];
      case ChoiceMatcher(cs) =>
        factory.nodes := factory.nodes[root := ChoiceMatcher(cs + [id])];
        matchers := matchers[..|matchers| - 1];
    }

    /** The new element stands for the tree e. */
    method AddTree(id: nat, ghost v: Env, ghost w: View, ghost e: Expr) returns (ghost w': View)
      requires Valid() && id < |factory.nodes| && Simulates(v, w)
      requires parser.Ok() ==> Standing(parser, v, factory.nodes, factory.Cache(), w, id, e) && w.held == {}
      modifies this`matchers, factory`nodes
      ensures Valid() && Grows(old(factory.nodes), factory.nodes) && Simulates(v, w')
      ensures parser.Ok() ==> FramesShape(w.fs) && SomeAlternative(e) && Moved(w, w', Add(w.fs, e))
    {
      hide NodesIn, Missing, NodeIn, Grows, StackOk, Inv, Rep, Expand, Resolved, Grammar.Ok, Grammar.Acyclic, Good;
      StackParts(parser, lvl, factory.nodes, matchers);
      w' := w;
      if parser.Ok() {
        InvParts(parser, v, factory.nodes, factory.Cache(), matchers, w);
        AddInv(parser, v, factory.nodes, factory.Cache(), matchers, w, id, e);
        w' := Advanced(w, e);
      }
      AddMatcher(id);
    }

    /** A bracket: its elements go to a new list, which remembers the function it is the argument of (if any). */
    method BeginFunction(function_name: string, ghost v: Env, ghost w: View) returns (ghost w': View)
      requires Valid() && Simulates(v, w) && Rested(w)
      requires function_name != "" && parser.Has(function_name) ==>
                 function_name in parser.live && parser.Rank(function_name) < lvl
      requires parser.Ok() && function_name != "" ==> parser.TokenOk(v.params, lvl, FunctionCall(function_name))
      modifies this`matchers, factory`nodes
      ensures Valid() && Grows(old(factory.nodes), factory.nodes) && Simulates(v, w')
      ensures factory.nodes == old(factory.nodes) + [ListMatcher([])]
      ensures matchers == old(matchers) + [Entry(old(|factory.nodes|), function_name)]
      ensures parser.Ok() ==> Moved(w, w', w.fs + [Frame(function_name, [], false)])
    {
      hide NodesIn, Missing, NodeIn, StackOk, Inv, Grammar.Ok, Grammar.Acyclic, Good;
      w' := w;
      if parser.Ok() {
        InvParts(parser, v, factory.nodes, factory.Cache(), matchers, w);
        PushInv(parser, v, factory.nodes, factory.Cache(), matchers, w, function_name);
        w' := w.(hs := w.hs + [Hole(|factory.nodes|, None, true)], fs := w.fs + [Frame(function_name, [], false)]);
      }
      ghost var was := factory.nodes;
      var parameter_list := factory.Allocate(ListMatcher([]));
      StackGrown(parser, lvl, was, factory.nodes, matchers);
      StackPushed(parser, lvl, factory.nodes, matchers, Entry(parameter_list, function_name));
      matchers := matchers + [Entry(parameter_list, function_name)];
    }

    /** `?`, `*` and `+` wrap the last element of the top list; they need one to wrap. */
    method Suffix(op: char, ghost v: Env, ghost w: View) returns (ok: bool, ghost w': View)
      requires Valid() && Simulates(v, w) && Rested(w) && (op == '?' || op == '*' || op == '+')
      requires parser.Ok() ==> FramesShape(w.fs) && Step(w.fs, Operator(op)).Some?
      modifies factory`nodes
      ensures Valid() && Grows(old(factory.nodes), factory.nodes) && Simulates(v, w')
      ensures ok == old(factory.nodes[Last(matchers).matcher].ListMatcher?
                        && factory.nodes[Last(matchers).matcher].children != [])
      ensures ok ==> factory.nodes == Resuffixed(op, old(factory.nodes), old(Last(matchers).matcher))
      ensures parser.Ok() ==> ok && Moved(w, w', Step(w.fs, Operator(op)).value)
    {
      hide NodesIn, Missing, NodeIn, Grows, StackOk, Inv, Grammar.Ok, Grammar.Acyclic, Good, Step;
      w' := w;
      StackParts(parser, lvl, factory.nodes, matchers);
      ghost var was, stack := factory.nodes, matchers;
      if parser.Ok() {
        InvParts(parser, v, was, factory.Cache(), stack, w);
        SuffixInv(parser, v, was, factory.Cache(), stack, w, op);
      }
      var root := matchers[|matchers| - 1].matcher;
      if !factory.nodes[root].ListMatcher? || factory.nodes[root].children == [] {
        PrefixGrown(was, map[], was, map[]);
        return false, w;
      }
      if parser.Ok() {
        w' := w.(hs := Init(w.hs) + [Hole(Last(w.hs).list, None, true)], fs := Step(w.fs, Operator(op)).value);
      }
      SuffixGood(op, was, factory.matchers, factory.keyword_overrides, root);
      StackGrown(parser, lvl, was, Resuffixed(op, was, root), stack);
      factory.WrapLast(op, root);
      ok := true;
    }

    /** `/` makes the last element of the top list a choice, unless it is one already, and puts it on the stack. */
    method BeginChoice(ghost v: Env, ghost w: View) returns (ok: bool, ghost w': View)
      requires Valid() && Simulates(v, w) && Rested(w)
      requires parser.Ok() ==> FramesShape(w.fs) && Step(w.fs, Operator('/')).Some?
      modifies this`matchers, factory`nodes
      ensures Valid() && Grows(old(factory.nodes), factory.nodes) && Simulates(v, w')
      ensures var t := old(Last(matchers).matcher);
              && ok == old(factory.nodes[t].ListMatcher? && factory.nodes[t].children != [])
              && (ok ==> HasLast(old(factory.nodes), t))
              && (ok ==> factory.nodes == SlashNodes(old(factory.nodes), t))
              && (ok ==> matchers == old(matchers) + [Entry(SlashChoice(old(factory.nodes), t), "")])
      ensures parser.Ok() ==> ok && Moved(w, w', Step(w.fs, Operator('/')).value)
    {
      hide NodesIn, Missing, NodeIn, Grows, StackOk, Inv, Grammar.Ok, Grammar.Acyclic, Good, Step;
      w' := w;
      StackParts(parser, lvl, factory.nodes, matchers);
      ghost var was, stack := factory.nodes, matchers;
      if parser.Ok() {
        InvParts(parser, v, was, factory.Cache(), stack, w);
        SlashInv(parser, v, was, factory.Cache(), stack, w);
      }
      var root := matchers[|matchers| - 1].matcher;
      if !factory.nodes[root].ListMatcher? || factory.nodes[root].children == [] {
        PrefixGrown(was, map[], was, map[]);
        return false, w;
      }
      SlashGood(was, factory.matchers, factory.keyword_overrides, root);
      StackGrown(parser, lvl, was, SlashNodes(was, root), stack);
      StackPushed(parser, lvl, SlashNodes(was, root), stack, Entry(SlashChoice(was, root), ""));
      if parser.Ok() {
        w' := w.(hs := Init(w.hs) + [SlashHole(v, was, Last(w.hs), Last(w.fs))], fs := Step(w.fs, Operator('/')).value);
      }
      var choice := factory.ChoiceOfLast(root);
      matchers := matchers + [Entry(choice, "")];
      ok := true;
    }

    /** `)` closes a plain bracket, or makes the function call whose arguments it ends. */
    method CloseBracket(ghost v: Env, ghost w: View) returns (ok: bool, ghost w': View)
      requires Valid() && Simulates(v, w) && Rested(w)
      requires parser.Ok() ==> FramesShape(w.fs) && Step(w.fs, Operator(')')).Some?
      modifies this`matchers, factory`nodes, factory`matchers, factory`shared
      ensures Valid() && Grown(old(factory.nodes), old(factory.matchers), factory.nodes, factory.matchers)
      ensures Simulates(v, w')
      ensures parser.Ok() ==> ok && Moved(w, w', Step(w.fs, Operator(')')).value)
      decreases Missing(parser, factory.matchers), lvl + 1, 1
    {
      hide NodesIn, Missing, NodeIn, Grows, Grown, StackOk, Inv, Rep, RepAll, Expand, ExpandAll, Ext, ExtAll, Resolved,
           Grammar.Ok, Grammar.Acyclic, Good, Standing, Arguments;
      w' := w;
      StackParts(parser, lvl, factory.nodes, matchers);
      ghost var low, f := w, Frame("", [], false);
      ghost var nodes0, cache0 := factory.nodes, factory.matchers;
      if parser.Ok() {
        InvParts(parser, v, factory.nodes, factory.Cache(), matchers, w);
        PopInv(parser, v, factory.nodes, factory.Cache(), matchers, w);
        low, f := Popped(parser, v, w), Last(w.fs);
        PoppedParts(parser, v, factory.nodes, factory.Cache(), low, Last(matchers).matcher, f);
      }
      if |matchers| <= 1 {
        PrefixGrown(nodes0, cache0, nodes0, cache0);
        return false, w;
      }
      var root_bracket := matchers[|matchers| - 1];
      var element := root_bracket.matcher;
      if root_bracket.fname == "" {
        if parser.Ok() { GroupStands(parser, v, factory.nodes, factory.Cache(), low, element, f); }
        PrefixGrown(nodes0, cache0, nodes0, cache0);
      } else {
        var r;
        r, low := MakeCall(v, low, f);
        if r.None? { return false, w; }
        element := r.value;
      }
      ghost var nodes1 := factory.nodes;
      StackParts(parser, lvl, factory.nodes, matchers);
      matchers := matchers[..|matchers| - 1];
      w' := AddTree(element, v, low, Closed(f));
      GrownTwice(nodes0, cache0, nodes1, factory.matchers, factory.nodes, factory.matchers);
      ok := true;
    }

    /** The substitution of a function call: its arguments are wrapped in one matcher and its body is compiled anew. */
    method MakeCall(ghost v: Env, ghost w: View, ghost f: Frame) returns (r: Option<nat>, ghost w': View)
      requires Valid() && matchers != [] && Last(matchers).fname != "" && Calls(v, w, f)
      modifies factory`nodes, factory`matchers, factory`shared
      ensures Valid() && Grown(old(factory.nodes), old(factory.matchers), factory.nodes, factory.matchers)
      ensures r.Some? ==> r.value < |factory.nodes|
      ensures parser.Ok() ==>
                && r.Some? && Resolved(parser, v.params, v.lvl, Closed(f)) && w' == Called(parser, v, w, f)
                && Inv(parser, v, factory.nodes, factory.Cache(), Init(matchers), w')
                && Standing(parser, v, factory.nodes, factory.Cache(), w', r.value, Closed(f))
      decreases Missing(parser, factory.matchers), lvl + 1, 0
    {
      hide NodesIn, Missing, NodeIn, Grows, Grown, StackOk, Inv, Rep, RepAll, Expand, ExpandAll, Resolved, Grammar.Ok,
           Grammar.Acyclic, Standing, CacheOk, FunctionCompiled, ChoiceCompiled, Arguments, Ready, Argument,
               FrameResolved,
           Extends, Step, Passes, Calling, PassedAlts, PassedArgument, Settled, Ext, ExtAll, Content, FramesResolved;
      ghost var nodes0, cache0 := factory.nodes, factory.matchers;
      StackParts(parser, lvl, nodes0, matchers);
      var function_name := matchers[|matchers| - 1].fname;
      w' := w;
      var parameter, arg, start := WrapArguments(v, w, f);
      ghost var nodes1, table1 := factory.nodes, factory.Cache();
      r := factory.CreateMatcher(parser, function_name, [parameter], Open(w), w.prog, arg, start);
      GrownTwice(nodes0, cache0, nodes1, cache0, factory.nodes, factory.matchers);
      GrownGrows(nodes0, cache0, factory.nodes, factory.matchers);
      StackGrown(parser, lvl, nodes0, factory.nodes, matchers);
      if parser.Ok() {
        CallEnds(parser, v, nodes1, table1, Init(matchers), w, f, parameter, factory.nodes, factory.Cache(), r.value);
        w' := Called(parser, v, w, f);
      }
    }

    /** The arguments of the top bracket as one matcher: its only element, or a new list of all of them. */
    method WrapArguments(ghost v: Env, ghost w: View, ghost f: Frame)
      returns (parameter: nat, ghost arg: Option<Expr>, ghost start: seq<Expr>)
      requires Valid() && matchers != [] && Last(matchers).fname != "" && Calls(v, w, f)
      modifies factory`nodes, factory`shared
      ensures Valid() && Grown(old(factory.nodes), factory.matchers, factory.nodes, factory.matchers)
      ensures parameter == ArgumentMatcher(old(factory.nodes), Last(matchers).matcher) < |factory.nodes|
      ensures factory.nodes == ArgumentNodes(old(factory.nodes), Last(matchers).matcher)
      ensures parser.Ok() ==>
                && Inv(parser, v, factory.nodes, factory.Cache(), Init(matchers), w)
                   && Calling(parser, v, w, f, parameter)
                && FramesResolved(parser, v.params, v.lvl, w.fs)
                && arg == Some(PassedArgument(parser, v, f)) && start == PassedAlts(parser, v, w, f)
                && Passes(parser, factory.nodes, factory.Cache(), Open(w), parameter, arg.value, start)
                && Ready(parser, factory.nodes, factory.Cache(), factory.keyword_overrides, f.fname, [parameter],
                         Open(w),
                         w.prog, arg, start)
    {
      hide NodesIn, Missing, NodeIn, Grows, Grown, StackOk, Inv, Rep, RepAll, Expand, ExpandAll, Resolved, Grammar.Ok,
           Grammar.Acyclic, CacheOk, Ready, Passes, Calling, PassedAlts, PassedArgument, Ext, ExtAll, Content,
               Arguments,
           FramesResolved, FrameResolved;
      ghost var nodes0, table0 := factory.nodes, factory.Cache();
      StackParts(parser, lvl, nodes0, matchers);
      var list := matchers[|matchers| - 1].matcher;
      ChildIn(nodes0, list);
      arg, start := None, [];
      if parser.Ok() {
        CallBegins(parser, v, nodes0, table0, Init(matchers), w, list, f);
        CallingFrom(parser, v, nodes0, table0, Init(matchers), w, list, f);
        ParamNotHeld(parser, v, nodes0, table0, Init(matchers), w);
        CallingParts(parser, v, w, f, ArgumentMatcher(nodes0, list));
        arg, start := Some(PassedArgument(parser, v, f)), PassedAlts(parser, v, w, f);
      }
      var kids := factory.nodes[list].children;
      if |kids| == 1 {
        parameter := kids[0];
      } else {
        parameter := factory.Allocate(ListMatcher(kids));
      }
      if parser.Ok() && OwnArgument(v, f) {
        factory.shared := factory.shared[parameter := arg.value];
      }
      PrefixGrown(nodes0, factory.matchers, factory.nodes, factory.matchers);
      GrownGrows(nodes0, factory.matchers, factory.nodes, factory.matchers);
      StackGrown(parser, lvl, nodes0, factory.nodes, matchers);
      if parser.Ok() {
        CallReady(parser, v, factory.nodes, factory.Cache(), factory.keyword_overrides, Init(matchers), w, f.fname,
                  parameter,
                  arg.value, start);
      }
    }
  }

  class MatcherFactory {
    var nodes: seq<Node>
    var matchers: map<string, nat>
    var keyword_overrides: map<string, nat>
    ghost var shared: map<nat, Expr>

    ghost predicate Valid()
      reads this
    {
      Good(nodes, matchers, keyword_overrides)
    }

    /** The cache, and which choice matchers were passed to functions. */
    ghost function Cache(): Table
      reads this
    {
      Table(matchers, shared)
    }

    /** The overridden rules are in the cache from the start. */
    ghost predicate Loaded(g: Grammar)
      reads this
    {
      forall n :: n in g.overrides ==> n in matchers
    }

    /** The overridden keywords existed before matcher `bound` and are complete. */
    ghost predicate KeywordsClear(bound: nat, open: set<nat>)
      reads this
    {
      forall k :: k in keyword_overrides ==> keyword_overrides[k] < bound && keyword_overrides[k] !in open
    }

    constructor ()
      ensures Valid() && nodes == [] && matchers == map[] && keyword_overrides == map[] && shared == map[]
    {
      nodes, matchers, keyword_overrides, shared := [], map[], map[], map[];
    }

    method Allocate(n: Node) returns (id: nat)
      requires Valid() && NodeIn(n, |nodes|)
      modifies this`nodes
      ensures Valid() && nodes == old(nodes) + [n] && id == old(|nodes|)
      ensures Grows(old(nodes), nodes)
    {
      AllocatedGood(nodes, matchers, keyword_overrides, n);
      id := |nodes|;
      nodes := nodes + [n];
    }

    /** The override of this keyword, or a new keyword matcher. */
    method Keyword(keyword: string) returns (id: nat)
      requires Valid()
      modifies this`nodes
      ensures Valid() && old(nodes) <= nodes
      ensures id < |nodes| && nodes[id].KeywordMatcher? && CIEquals(nodes[id].text, keyword)
      ensures id >= old(|nodes|) || (Lower(keyword) in keyword_overrides && id == keyword_overrides[Lower(keyword)])
    {
      if Lower(keyword) in keyword_overrides {
        return keyword_overrides[Lower(keyword)];
      }
      id := Allocate(KeywordMatcher(keyword));
    }

    /** The last child of a list is wrapped in a repeat, an optional, or both. */
    method WrapLast(op: char, list: nat)
      requires Valid() && list < |nodes| && nodes[list].ListMatcher? && nodes[list].children != []
      modifies this`nodes
      ensures Valid() && nodes == Resuffixed(op, old(nodes), list)
    {
      hide NodesIn, Missing, Grows;
      ghost var was := nodes;
      ChildIn(nodes, list);
      var kids := nodes[list].children;
      var final := kids[|kids| - 1];
      if op == '*' || op == '+' {
        final := Allocate(RepeatMatcher(final));
      }
      if op != '+' {
        final := Allocate(OptionalMatcher(final));
      }
      assert nodes == was + SuffixNodes(op, |was|, kids[|kids| - 1]);
      SuffixGood(op, was, matchers, keyword_overrides, list);
      nodes := nodes[list := ListMatcher(kids[..|kids| - 1] + [final])];
    }

    /** The last child of a list, made a choice unless it is one. */
    method ChoiceOfLast(list: nat) returns (choice: nat)
      requires Valid() && list < |nodes| && nodes[list].ListMatcher? && nodes[list].children != []
      modifies this`nodes
      ensures Valid() && HasLast(old(nodes), list)
      ensures nodes == SlashNodes(old(nodes), list) && choice == SlashChoice(old(nodes), list)
    {
      hide NodesIn, Missing, Grows;
      ghost var was := nodes;
      ChildIn(nodes, list);
      var kids := nodes[list].children;
      var previous := kids[|kids| - 1];
      if nodes[previous].ChoiceMatcher? {
        return previous;
      }
      choice := Allocate(ChoiceMatcher([previous]));
      SlashGood(was, matchers, keyword_overrides, list);
      nodes := nodes[list := ListMatcher(kids[..|kids| - 1] + [choice])];
    }

    /** Compiles one rule, or one call of a function rule; None stands for the source's exceptions. */
    method CreateMatcher(g: Grammar, name: string, parameters: seq<nat>, ghost outer: set<nat>, ghost prog: set<string>,
                         ghost arg: Option<Expr>, ghost start: seq<Expr>)
      returns (r: Option<nat>)
      requires Valid() && Loaded(g) && g.Acyclic() && (forall p :: p in parameters ==> p < |nodes|)
      requires name in g.live || !g.Has(name) || (parameters == [] && name in matchers)
      requires g.Ok() ==> Ready(g, nodes, Cache(), keyword_overrides, name, parameters, outer, prog, arg, start)
      modifies this`nodes, this`matchers, this`shared
      ensures Valid() && Loaded(g) && Grown(old(nodes), old(matchers), nodes, matchers)
              && (r.Some? ==> r.value < |nodes|)
      ensures g.Ok() ==>
                && r.Some? && Settled(old(nodes), old(Cache()), nodes, Cache(),
                                      if parameters == [] then 0 else parameters[0], arg)
                && Compiled(g, nodes, Cache(), name, parameters, outer, prog, arg, start, r.value)
      decreases Missing(g, matchers), if parameters == [] || !g.Has(name) then 0 else g.Rank(name) + 1, 5
    {
      hide NodesIn, Missing, Grows, Grown, StackOk, Inv, Rep, RepAll, Expand, ExpandAll, Resolved, Grammar.Ok,
           Grammar.Acyclic, CacheOk, FunctionCompiled, ChoiceCompiled, Ready, BodyInv, Passes;
      var is_function_call := parameters != [];
      ghost var nodes0, cache0, table0 := nodes, matchers, Cache();
      PrefixGrown(nodes0, cache0, nodes0, cache0);
      if !is_function_call && name in matchers {
        if g.Ok() { ReadyRule(g, nodes0, table0, keyword_overrides, name, parameters, outer, prog, arg, start); }
        return Some(matchers[name]);
      }
      if g.Ok() { ReadyRule(g, nodes0, table0, keyword_overrides, name, parameters, outer, prog, arg, start); }
      if !g.Has(name) { return None; }
      var rule := g.RuleOf(name);
      var matcher := Allocate(ListMatcher([]));
      if !is_function_call {
        matchers := matchers[name := matcher];
        BegunGood(nodes, cache0, keyword_overrides, name, matcher);
      }
      PrefixGrown(nodes0, cache0, nodes, matchers);
      if |rule.params| > 1 || |parameters| != |rule.params| { return None; }
      AcyclicTokens(g, name);
      ghost var param := if is_function_call then parameters[0] else 0;
      ghost var v := Env(rule.params, arg, g.Level(name), Sharing);
      ghost var w := FirstView(outer, if is_function_call then prog else prog + {name}, nodes0, table0, matcher, param,
                               start);
      if g.Ok() {
        ArgumentOk(g, nodes0, table0, keyword_overrides, name, parameters, outer, prog, arg, start);
        BodyStarted(g, v, nodes0, table0, name, is_function_call, outer, prog, param, start);
      }
      ghost var nodes1, cache1 := nodes, matchers;
      BegunShrinks(g, nodes0, cache0, nodes, matchers, name, matcher, is_function_call);
      var ok;
      ok, w := ReadBody(g, name, rule, matcher, parameters, cache0, v, w);
      GrownTwice(nodes0, cache0, nodes1, cache1, nodes, matchers);
      GrownGrows(nodes0, cache0, nodes, matchers);
      GrownGrows(nodes1, cache1, nodes, matchers);
      if g.Ok() {
        BodyCompiled(g, v, name, nodes, Cache(), Stack(w.hs, w.fs), w, prog, parameters, is_function_call);
      }
      return if ok then Some(matcher) else None;
    }

    /** The tokens of one body, from the empty root list to the point where it alone is left on the stack. */
    method ReadBody(g: Grammar, name: string, rule: Rule, matcher: nat, parameters: seq<nat>,
                    ghost cache0: map<string, nat>, ghost v: Env, ghost w0: View)
      returns (ok: bool, ghost w: View)
      requires Valid() && Loaded(g) && g.Acyclic() && name in g.live && g.Has(name) && rule == g.RuleOf(name)
      requires matcher < |nodes| && nodes[matcher].ListMatcher?
      requires |parameters| == |rule.params| <= 1 && (forall p :: p in parameters ==> p < |nodes|)
      requires Begun(g, cache0, matchers, name, matcher, parameters != [])
      requires v.params == rule.params
      requires g.Ok() ==>
                 && v.Ok() && v.lvl == g.Level(name)
                 && BodyInv(g, v, rule.tokens, 0, nodes, Cache(), [Entry(matcher, "")], w0)
                 && KeywordsClear(|w0.base|, w0.outer) && w0.hs != [] && w0.hs[0].list == matcher
                 && HasParameter(v, w0, parameters)
      modifies this`nodes, this`matchers, this`shared
      ensures Valid() && Loaded(g) && Grown(old(nodes), old(matchers), nodes, matchers)
      ensures Begun(g, cache0, matchers, name, matcher, parameters != [])
      ensures g.Ok() ==>
                && ok && w == w0.(hs := w.hs, fs := w.fs) && |w.hs| == |w.fs| == 1 && w.hs[0].list == matcher
                && !w.fs[0].pending && Parse(rule.tokens) == Some(w.fs[0].items)
                && Inv(g, v, nodes, Cache(), Stack(w.hs, w.fs), w) && w.held == {} && w.extra == []
      decreases Missing(g, matchers), g.Level(name) + 1, 4
    {
      hide NodesIn, Missing, Grows, Grown, StackOk, Inv, Rep, Grammar.Ok, Grammar.Acyclic, BodyInv, Good;
      ghost var nodes0, cache1 := nodes, matchers;
      PrefixGrown(nodes0, cache1, nodes0, cache1);
      AcyclicTokens(g, name);
      if g.Ok() { BodyRested(g, v, rule.tokens, 0, nodes, Cache(), [Entry(matcher, "")], w0); }
      var list := new MatcherList(g, this, matcher, g.Level(name));
      w := w0;
      ok := true;
      var token_idx := 0;
      while token_idx < |rule.tokens| && ok
        invariant token_idx <= |rule.tokens|
        invariant list.Valid() && fresh(list) && list.factory == this && list.parser == g && list.lvl == g.Level(name)
        invariant Grown(nodes0, cache1, nodes, matchers) && Begun(g, cache0, matchers, name, matcher, parameters != [])
        invariant |nodes0| <= |nodes| && Missing(g, matchers) <= Missing(g, cache1)
        invariant ok ==> list.Reads(v, rule.tokens, token_idx, w)
        invariant g.Ok() ==>
                    ok && w == w0.(hs := w.hs, fs := w.fs, held := {}, extra := []) && w.hs != []
                        && w.hs[0].list == matcher
        decreases |rule.tokens| - token_idx, ok
      {
        ghost var nodes2, cache2 := nodes, matchers;
        ok, w := ApplyToken(g, list, name, rule, token_idx, parameters, v, w);
        GrownTwice(nodes0, cache1, nodes2, cache2, nodes, matchers);
        GrownGrows(nodes0, cache1, nodes, matchers);
        MissingShrinks(g, cache1, matchers);
        BegunStays(g, nodes2, cache2, nodes, matchers, cache0, name, matcher, parameters != []);
        token_idx := token_idx + 1;
      }
      if g.Ok() {
        BodyEnded(g, v, rule.tokens, nodes, Cache(), list.matchers, w);
      }
      ok := ok && |list.matchers| == 1;
    }

    /** One token of a rule body. */
    method ApplyToken(g: Grammar, list: MatcherList, name: string, rule: Rule, k: nat, parameters: seq<nat>,
                      ghost v: Env, ghost w: View)
      returns (ok: bool, ghost w': View)
      requires list.Valid() && list.factory == this && list.parser == g
      requires k < |rule.tokens| && |parameters| == |rule.params| <= 1 && (forall p :: p in parameters ==> p < |nodes|)
      requires g.Has(name) && rule == g.RuleOf(name) && g.Level(name) == list.lvl
      requires forall t :: t in rule.tokens ==> g.Leads(name, t)
      requires list.Reads(v, rule.tokens, k, w) && v.params == rule.params
      requires g.Ok() ==> HasParameter(v, w, parameters)
      modifies list`matchers, this`nodes, this`matchers, this`shared
      ensures list.Valid() && Grown(old(nodes), old(matchers), nodes, matchers)
      ensures list.Reads(v, rule.tokens, k + 1, w')
      ensures g.Ok() ==>
                ok && FramesShape(w.fs) && w.hs != [] && Step(w.fs, rule.tokens[k]).Some?
                && Moved(w, w', Step(w.fs, rule.tokens[k]).value)
      decreases Missing(g, matchers), list.lvl + 1, 3
    {
      hide NodesIn, Missing, NodeIn, Grows, Grown, StackOk, Inv, Rep, RepAll, Expand, ExpandAll, Resolved, Grammar.Ok,
           Grammar.Acyclic, Standing, CacheOk, Good, BodyInv, Rest;
      ghost var nodes0, cache0 := nodes, matchers;
      var token := rule.tokens[k];
      assert token in rule.tokens;
      w' := w;
      if g.Ok() {
        BodyStep(g, v, rule.tokens, k, nodes, Cache(), list.matchers, w);
        InvParts(g, v, nodes, Cache(), list.matchers, w);
      }
      match token {
        case Literal(text) =>
          w' := ApplyLiteral(g, list, text, v, w);
          ok := true;
        case Reference(referred) =>
          ok, w' := ApplyReference(g, list, referred, name, rule, parameters, v, w);
        case FunctionCall(function_name) =>
          w' := list.BeginFunction(function_name, v, w);
          PrefixGrown(nodes0, cache0, nodes, matchers);
          ok := true;
        case Operator(op) =>
          ok, w' := ApplyOperator(g, list, op, v, w);
        case Regex(_) =>
          PrefixGrown(nodes0, cache0, nodes, matchers);
          ok := false;
      }
      if g.Ok() { BodyNext(g, v, rule.tokens, k, nodes, Cache(), list.matchers, w.fs, w'); }
    }

    method ApplyLiteral(g: Grammar, list: MatcherList, text: string, ghost v: Env, ghost w: View)
        returns (ghost w': View)
      requires list.Valid() && list.factory == this && list.parser == g && list.Simulates(v, w) && list.Rested(w)
      modifies list`matchers, this`nodes
      ensures list.Valid() && Grown(old(nodes), old(matchers), nodes, matchers) && list.Simulates(v, w')
      ensures g.Ok() ==> FramesShape(w.fs) && Moved(w, w', Add(w.fs, Lit(text)))
    {
      hide NodesIn, Missing, NodeIn, Grows, Grown, StackOk, Inv, Rep, Expand, Grammar.Ok, Grammar.Acyclic, Good;
      ghost var nodes0 := nodes;
      var keyword := Keyword(text);
      if g.Ok() { KeywordAdded(g, v, nodes0, nodes, Cache(), list.matchers, w, keyword, text); }
      PrefixGrown(nodes0, matchers, nodes, matchers);
      GrownGrows(nodes0, matchers, nodes, matchers);
      StackGrown(g, list.lvl, nodes0, nodes, list.matchers);
      ghost var nodes1 := nodes;
      w' := list.AddTree(keyword, v, w, Lit(text));
      GrownSame(nodes1, matchers, nodes);
      GrownTwice(nodes0, matchers, nodes1, matchers, nodes, matchers);
    }

    /** A reference is the parameter, or the shared matcher of the rule it names. */
    method ApplyReference(g: Grammar, list: MatcherList, name: string, ghost user: string, rule: Rule,
                          parameters: seq<nat>, ghost v: Env, ghost w: View)
      returns (ok: bool, ghost w': View)
      requires list.Valid() && list.factory == this && list.parser == g && list.Simulates(v, w) && list.Rested(w)
      requires |parameters| == |rule.params| <= 1 && (forall p :: p in parameters ==> p < |nodes|)
      requires g.Has(user) && rule == g.RuleOf(user) && g.Leads(user, Reference(name))
      requires v.params == rule.params
      requires g.Ok() ==> g.TokenOk(v.params, v.lvl, Reference(name)) && HasParameter(v, w, parameters)
      modifies list`matchers, this`nodes, this`matchers, this`shared
      ensures list.Valid() && Grown(old(nodes), old(matchers), nodes, matchers) && list.Simulates(v, w')
      ensures g.Ok() ==> ok && FramesShape(w.fs) && Moved(w, w', Add(w.fs, Ref(name)))
      decreases Missing(g, matchers), list.lvl + 1, 2
    {
      hide NodesIn, Missing, NodeIn, Grows, Grown, StackOk, Inv, Rep, Grammar.Ok, Grammar.Acyclic, Good, Compiled,
           CacheOk, FunctionCompiled, Settled, Standing;
      ghost var nodes0, cache0, table0 := nodes, matchers, Cache();
      var id;
      if name in rule.params {
        id := parameters[0];
        assert id in parameters;
        if g.Ok() { ParameterStands(g, v, nodes, table0, list.matchers, w, name); }
        PrefixGrown(nodes0, cache0, nodes, matchers);
      } else {
        if g.Ok() { ReferenceReady(g, v, nodes, table0, keyword_overrides, list.matchers, w, name); }
        var r := CreateMatcher(g, name, [], Open(w), w.prog, None, []);
        GrownGrows(nodes0, cache0, nodes, matchers);
        StackGrown(g, list.lvl, nodes0, nodes, list.matchers);
        if r.None? { return false, w; }
        id := r.value;
        if g.Ok() {
          RuleCompiled(g, v, nodes0, table0, list.matchers, w, nodes, Cache(), name, id);
          ReferenceStands(g, v, nodes, Cache(), w, id, name);
        }
      }
      ghost var nodes1 := nodes;
      w' := list.AddTree(id, v, w, Ref(name));
      GrownSame(nodes1, matchers, nodes);
      GrownTwice(nodes0, cache0, nodes1, matchers, nodes, matchers);
      ok := true;
    }

    /** One operator of a rule body; `!` is ignored. */
    method ApplyOperator(g: Grammar, list: MatcherList, op: char, ghost v: Env, ghost w: View)
      returns (ok: bool, ghost w': View)
      requires list.Valid() && list.factory == this && list.parser == g && list.Simulates(v, w) && list.Rested(w)
      requires g.Ok() ==> FramesShape(w.fs) && w.hs != [] && Step(w.fs, Operator(op)).Some?
      modifies list`matchers, this`nodes, this`matchers, this`shared
      ensures list.Valid() && Grown(old(nodes), old(matchers), nodes, matchers) && list.Simulates(v, w')
      ensures g.Ok() ==> ok && Moved(w, w', Step(w.fs, Operator(op)).value)
      decreases Missing(g, matchers), list.lvl + 1, 2
    {
      hide NodesIn, Missing, NodeIn, Grows, Grown, StackOk, Inv, Grammar.Ok, Grammar.Acyclic, Good;
      ghost var nodes0, cache0 := nodes, matchers;
      match op
      case '?' | '*' | '+' =>
        ok, w' := list.Suffix(op, v, w);
        GrownSame(nodes0, cache0, nodes);
      case '/' =>
        ok, w' := list.BeginChoice(v, w);
        GrownSame(nodes0, cache0, nodes);
      case '(' =>
        w' := list.BeginFunction("", v, w);
        GrownSame(nodes0, cache0, nodes);
        ok := true;
      case ')' =>
        ok, w' := list.CloseBracket(v, w);
      case '!' =>
        PrefixGrown(nodes0, cache0, nodes0, cache0);
        return true, w;
      case _ =>
        PrefixGrown(nodes0, cache0, nodes0, cache0);
        return false, w;
    }

    /** `AddKeywordOverride`: the first override of a keyword counts. */
    method AddKeywordOverride(name: string)
      requires Valid()
      modifies this`nodes, this`keyword_overrides
      ensures Valid() && nodes == old(nodes) + [KeywordMatcher(name)]
      ensures Lower(name) in keyword_overrides
      ensures forall k ::
                k in old(keyword_overrides) ==>
                  k in keyword_overrides && keyword_overrides[k] == old(keyword_overrides)[k]
    {
      var keyword_matcher := Allocate(KeywordMatcher(name));
      if Lower(name) !in keyword_overrides {
        keyword_overrides := keyword_overrides[Lower(name) := keyword_matcher];
      }
    }

    /** `AddRuleOverride`: the rule name stands for a terminal matcher, unless it already stands for one. */
    method AddRuleOverride(name: string, kind: Kind)
      requires Valid()
      modifies this`nodes, this`matchers
      ensures Valid() && nodes == old(nodes) + [Terminal(kind)]
      ensures matchers == if name in old(matchers) then old(matchers) else old(matchers)[name := old(|nodes|)]
    {
      var matcher := Allocate(Terminal(kind));
      if name !in matchers {
        BegunGood(nodes, matchers, keyword_overrides, name, matcher);
        matchers := matchers[name := matcher];
      }
    }

    /** The whole grammar from its root rule.  When the rules that the root reaches are in order, compiling succeeds,
        each rule has one shared matcher, and every matcher in the cache stands for its rule. */
    method CompileGrammar(g: Grammar, keywords: seq<string>, root_rule: string) returns (r: Option<nat>)
      requires Valid() && nodes == [] && matchers == map[] && keyword_overrides == map[] && shared == map[]
      requires g.Acyclic() && (root_rule in g.overrides || !g.Has(root_rule) || root_rule in g.live)
      modifies this
      ensures Valid() && (r.Some? ==> r.value < |nodes|)
      ensures root_rule !in g.overrides && (!g.Has(root_rule) || g.RuleOf(root_rule).params != []) ==> r.None?
      ensures g.Ok() && g.Plain(root_rule) ==>
                && r.Some? && CacheOk(g, nodes, Cache(), {}, {})
                && root_rule in matchers && matchers[root_rule] == r.value
    {
      for k := 0 to |keywords|
        invariant Valid() && matchers == map[] && shared == map[]
      {
        AddKeywordOverride(keywords[k]);
      }
      AddRuleOverrides(g);
      if root_rule !in matchers && (!g.Has(root_rule) || g.RuleOf(root_rule).params != []) {
        return None;  // a missing rule, or a function rule without its argument
      }
      if g.Ok() && g.Plain(root_rule) { RootReady(g, nodes, Cache(), keyword_overrides, root_rule); }
      r := CreateMatcher(g, root_rule, [], {}, {}, None, []);
    }

    /** All rule overrides, in any order. */
    method AddRuleOverrides(g: Grammar)
      requires Valid() && matchers == map[]
      modifies this`nodes, this`matchers
      ensures Valid() && matchers.Keys == g.overrides.Keys
      ensures forall n :: n in matchers ==> nodes[matchers[n]] == Terminal(g.overrides[n])
    {
      var todo := g.overrides.Keys;
      while todo != {}
        invariant Valid() && todo <= g.overrides.Keys && matchers.Keys == g.overrides.Keys - todo
        invariant forall n :: n in matchers ==> nodes[matchers[n]] == Terminal(g.overrides[n])
        decreases todo
      {
        var name :| name in todo;
        AddRuleOverride(name, g.overrides[name]);
        todo := todo - {name};
      }
    }
  }

  /** With the overrides in the cache and nothing else, the root rule can be compiled. */
  lemma RootReady(g: Grammar, nodes: seq<Node>, cache: Table, keywords: map<string, nat>, root_rule: string)
    requires g.Ok() && g.Plain(root_rule) && cache.shared == map[] && cache.rules.Keys == g.overrides.Keys
    requires forall n :: n in cache.rules ==>
               cache.rules[n] < |nodes| && nodes[cache.rules[n]] == Terminal(g.overrides[n])
    ensures Ready(g, nodes, cache, keywords, root_rule, [], {}, {}, None, [])
  {
    forall n | n in cache.rules ensures CacheEntry(g, nodes, cache, {}, {}, n) {
    }
  }
}
