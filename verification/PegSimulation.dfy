/** The matcher stack of `MatcherList` simulates the machine on trees: what each step does to the graph.
    A frame of the tree machine is a list matcher whose children stand for the frame's items; the last of them may be a
    choice under way, the bracket's own or the one that the rule's parameter shares with the caller. */
module PegSimulation {
  import opened Options
  import opened PegSyntax
  import opened PegGraph

  datatype Entry = Entry(matcher: nat, fname: string)

  /** The matchers of one open bracket that may still change: its list, and the choice in last position, which either is
      this bracket's own or the shared choice of the parameter. */
  datatype Hole = Hole(list: nat, choice: Option<nat>, owned: bool)

  function Ids(h: Hole): set<nat> {
    {h.list} + if h.owned && h.choice.Some? then {h.choice.value} else {}
  }

  function OpenSet(outer: set<nat>, hs: seq<Hole>): set<nat> {
    if hs == [] then outer else OpenSet(outer, Init(hs)) + Ids(Last(hs))
  }

  predicate Disjoint(outer: set<nat>, hs: seq<Hole>) {
    hs == [] || (Disjoint(outer, Init(hs)) && Ids(Last(hs)) !! OpenSet(outer, Init(hs)))
  }

  function Entries(h: Hole, f: Frame): seq<Entry> {
    [Entry(h.list, f.fname)] + if f.pending && h.choice.Some? then [Entry(h.choice.value, "")] else []
  }

  function Stack(hs: seq<Hole>, fs: seq<Frame>): (r: seq<Entry>)
    requires |hs| == |fs|
    ensures |r| >= |hs|
  {
    if hs == [] then [] else Stack(Init(hs), Init(fs)) + Entries(Last(hs), Last(fs))
  }

  // ----- simulation of one frame and of all frames -----

  /** Matcher p is the parameter of the rule being compiled (if it has one). */
  ghost predicate FrameSim(g: Grammar, v: Env, p: nat, nodes: seq<Node>, cache: Table, open: set<nat>, h: Hole,
                           f: Frame)
    requires g.Ok() && v.Ok()
  {
    && FrameShape(f) && FrameResolved(g, v.params, v.lvl, f)
    && (h.choice.Some? <==> f.items != [] && Last(f.items).Choice?)
    && Ids(h) <= open
    && h.list < |nodes| && nodes[h.list].ListMatcher?
    && var kids := nodes[h.list].children;
       && |kids| == |f.items|
       && (f.items != [] ==>
             && (forall k :: 0 <= k < |kids| - 1 ==> Rep(nodes, cache, open, kids[k], Expand(g, v, f.items[k])))
             && LastSim(g, v, p, nodes, cache, open, h, Last(kids), Last(f.items)))
  }

  ghost predicate LastSim(g: Grammar, v: Env, p: nat, nodes: seq<Node>, cache: Table, open: set<nat>, h: Hole, id: nat,
                          e: Expr)
    requires g.Ok() && v.Ok() && Resolved(g, v.params, v.lvl, e)
  {
    if e.Choice? then
      && h.choice == Some(id) && id != h.list && id < |nodes| && nodes[id].ChoiceMatcher?
      && (h.owned <==> !v.Extends(e.alts))
      && if h.owned then
           id !in cache.shared && RepAll(nodes, cache, open, nodes[id].children, ExpandAll(g, v, e.alts))
         else
           id == p && Rep(nodes, cache, open, p, v.arg.value)
    else
      Rep(nodes, cache, open, id, Expand(g, v, e)) && (v.IsParameter(e) ==> id == p)
  }

  /** The matcher whose alternatives the body may extend. */
  function Hot(v: Env, p: nat): set<nat> {
    if v.Shares() then {p} else {}
  }

  ghost predicate Sim(g: Grammar, v: Env, p: nat, nodes: seq<Node>, cache: Table, outer: set<nat>, hs: seq<Hole>,
                      fs: seq<Frame>)
    requires g.Ok() && v.Ok()
  {
    && |hs| == |fs| > 0
    && FramesShape(fs)
    && Disjoint(outer, hs)
    && Hot(v, p) <= outer
    && (forall x :: x in OpenSet(outer, hs) ==> x < |nodes|)
    && (forall m :: 0 <= m < |hs| ==> FrameSim(g, v, p, nodes, cache, OpenSet(outer, hs), hs[m], fs[m]))
  }

  lemma FrameKept(g: Grammar, v: Env, p: nat, nodes: seq<Node>, cache: Table, open: set<nat>,
                  nodes': seq<Node>, cache': Table, open': set<nat>, h: Hole, f: Frame)
    requires g.Ok() && v.Ok()
    requires Keeps(nodes, cache, open, nodes', cache', open') && FrameSim(g, v, p, nodes, cache, open, h, f)
    requires Ids(h) <= open' && forall k :: k in Ids(h) && k < |nodes| ==> nodes'[k] == nodes[k]
    requires forall k :: k in Ids(h) && k in cache'.shared ==> k in cache.shared
    ensures FrameSim(g, v, p, nodes', cache', open', h, f)
  {
    if f.items != [] {
      var kids := nodes[h.list].children;
      forall k | 0 <= k < |kids| - 1 ensures Rep(nodes', cache', open', kids[k], Expand(g, v, f.items[k])) {
        RepKept(nodes, cache, open, nodes', cache', open', kids[k], Expand(g, v, f.items[k]));
      }
      var e := Last(f.items);
      assert e in f.items;
      if e.Choice? && h.owned {
        RepAllKept(nodes, cache, open, nodes', cache', open', nodes[Last(kids)].children, ExpandAll(g, v, e.alts));
      } else {
        RepKept(nodes, cache, open, nodes', cache', open', Last(kids), Expand(g, v, e));
      }
    }
  }

  /** Once the own choice of a frame can no longer change, all items of the frame are represented. */
  lemma ItemsRep(g: Grammar, v: Env, p: nat, nodes: seq<Node>, cache: Table, open: set<nat>,
                 nodes': seq<Node>, cache': Table, open': set<nat>, h: Hole, f: Frame)
    requires g.Ok() && v.Ok()
    requires Keeps(nodes, cache, open, nodes', cache', open') && FrameSim(g, v, p, nodes, cache, open, h, f)
    requires h.owned && h.choice.Some? ==>
               h.choice.value !in open' && h.choice.value < |nodes| && nodes'[h.choice.value] == nodes[h.choice.value]
    ensures RepAll(nodes', cache', open', nodes[h.list].children, ExpandAll(g, v, f.items))
  {
    var kids := nodes[h.list].children;
    forall k | 0 <= k < |kids| ensures Rep(nodes', cache', open', kids[k], Expand(g, v, f.items[k])) {
      var e := f.items[k];
      assert e in f.items;
      if k == |kids| - 1 && e.Choice? && h.owned {
        RepAllKept(nodes, cache, open, nodes', cache', open', nodes[kids[k]].children, ExpandAll(g, v, e.alts));
      } else {
        RepKept(nodes, cache, open, nodes', cache', open', kids[k], Expand(g, v, e));
      }
    }
  }

  lemma {:induction false} OpenSetPrefix(outer: set<nat>, hs: seq<Hole>, m: nat)
    requires m < |hs|
    ensures Ids(hs[m]) <= OpenSet(outer, hs)
    decreases |hs|
  {
    if m < |hs| - 1 {
      OpenSetPrefix(outer, Init(hs), m);
      assert Init(hs)[m] == hs[m];
    }
  }

  lemma {:induction false} OuterOpen(outer: set<nat>, hs: seq<Hole>)
    ensures outer <= OpenSet(outer, hs)
    decreases |hs|
  {
    if hs != [] { OuterOpen(outer, Init(hs)); }
  }

  /** The matchers of the open brackets are none of the outer ones. */
  lemma {:induction false} HolesDisjoint(outer: set<nat>, hs: seq<Hole>, m: nat)
    requires Disjoint(outer, hs) && m < |hs|
    ensures Ids(hs[m]) !! outer
    decreases |hs|
  {
    if m == |hs| - 1 {
      OuterOpen(outer, Init(hs));
    } else {
      HolesDisjoint(outer, Init(hs), m);
      assert Init(hs)[m] == hs[m];
    }
  }

  /** Replacing the top frame: only its own matchers, the parameter's shared choice, and new matchers changed. */
  lemma TopReplaced(g: Grammar, v: Env, p: nat, nodes: seq<Node>, cache: Table, outer: set<nat>, hs: seq<Hole>,
                    fs: seq<Frame>, nodes': seq<Node>, h': Hole, f': Frame)
    requires g.Ok() && v.Ok() && Sim(g, v, p, nodes, cache, outer, hs, fs)
    requires |nodes| <= |nodes'|
    requires forall k :: 0 <= k < |nodes| && k !in Ids(Last(hs)) + Hot(v, p) ==> nodes'[k] == nodes[k]
    requires forall k :: 0 <= k < |nodes| && nodes[k].ListMatcher? ==> nodes'[k].ListMatcher?
    requires forall k :: 0 <= k < |nodes| && nodes[k].ChoiceMatcher? ==> nodes'[k].ChoiceMatcher?
    requires forall x :: x in Ids(h') ==> x in Ids(Last(hs)) || |nodes| <= x < |nodes'|
    requires FrameSim(g, v, p, nodes', cache, OpenSet(outer, Init(hs)) + Ids(h'), h', f')
    ensures Sim(g, v, p, nodes', cache, outer, Init(hs) + [h'], Init(fs) + [f'])
    ensures Keeps(nodes, cache, OpenSet(outer, hs), nodes', cache, OpenSet(outer, Init(hs) + [h']))
  {
    var low := Init(hs);
    var hs', fs' := low + [h'], Init(fs) + [f'];
    assert Init(hs') == low && Last(hs') == h';
    var open, open' := OpenSet(outer, hs), OpenSet(outer, hs');
    assert open' == OpenSet(outer, low) + Ids(h');
    OuterOpen(outer, hs);
    assert Keeps(nodes, cache, open, nodes', cache, open');
    forall m | 0 <= m < |hs'| ensures FrameSim(g, v, p, nodes', cache, open', hs'[m], fs'[m]) {
      if m < |low| {
        assert hs'[m] == hs[m] == low[m] && fs'[m] == fs[m];
        OpenSetPrefix(outer, low, m);
        HolesDisjoint(outer, hs, m);
        FrameKept(g, v, p, nodes, cache, open, nodes', cache, open', hs[m], fs[m]);
      }
    }
  }

  /** No open bracket changed: something else was compiled in between. */
  lemma SimKept(g: Grammar, v: Env, p: nat, nodes: seq<Node>, cache: Table, outer: set<nat>, hs: seq<Hole>,
                fs: seq<Frame>, nodes': seq<Node>, cache': Table, outer': set<nat>)
    requires g.Ok() && v.Ok() && Sim(g, v, p, nodes, cache, outer, hs, fs)
    requires outer' <= outer && Hot(v, p) <= outer'
    requires |nodes| <= |nodes'| && forall k :: 0 <= k < |nodes| && k !in outer ==> nodes'[k] == nodes[k]
    requires forall k :: 0 <= k < |nodes| && nodes[k].ListMatcher? ==> nodes'[k].ListMatcher?
    requires forall k :: 0 <= k < |nodes| && nodes[k].ChoiceMatcher? ==> nodes'[k].ChoiceMatcher?
    requires Extends(cache.rules, cache'.rules) && Extends(cache.shared, cache'.shared)
    requires forall k :: k in cache'.shared && k !in cache.shared ==> k in outer || k >= |nodes|
    ensures Sim(g, v, p, nodes', cache', outer', hs, fs)
    ensures Keeps(nodes, cache, OpenSet(outer, hs), nodes', cache', OpenSet(outer', hs))
  {
    var open, open' := OpenSet(outer, hs), OpenSet(outer', hs);
    OuterOpen(outer, hs);
    SmallerOuter(outer, outer', hs);
    assert Keeps(nodes, cache, open, nodes', cache', open');
    forall m | 0 <= m < |hs| ensures FrameSim(g, v, p, nodes', cache', open', hs[m], fs[m]) {
      OpenSetPrefix(outer, hs, m);
      OpenSetPrefix(outer', hs, m);
      HolesDisjoint(outer, hs, m);
      FrameKept(g, v, p, nodes, cache, open, nodes', cache', open', hs[m], fs[m]);
    }
  }

  lemma {:induction false} SmallerOuter(outer: set<nat>, outer': set<nat>, hs: seq<Hole>)
    requires outer' <= outer && Disjoint(outer, hs)
    ensures OpenSet(outer', hs) <= OpenSet(outer, hs) && Disjoint(outer', hs)
    ensures OpenSet(outer, hs) == OpenSet(outer', hs) + outer
    decreases |hs|
  {
    if hs != [] { SmallerOuter(outer, outer', Init(hs)); }
  }

  // ----- adding an element -----

  /** `push_back` on the children of a list or a choice. */
  function Pushed(nodes: seq<Node>, id: nat, kid: nat): (r: seq<Node>)
    requires id < |nodes| && (nodes[id].ListMatcher? || nodes[id].ChoiceMatcher?)
  {
    nodes[id := nodes[id].(children := nodes[id].children + [kid])]
  }

  function AddedHole(h: Hole, f: Frame): Hole {
    if f.pending then h else Hole(h.list, None, true)
  }

  function Target(h: Hole, f: Frame): nat {
    if f.pending && h.choice.Some? then h.choice.value else h.list
  }

  lemma AddPending(g: Grammar, v: Env, p: nat, nodes: seq<Node>, cache: Table, open: set<nat>, h: Hole, f: Frame,
                   id: nat, e: Expr)
    requires g.Ok() && v.Ok() && FrameSim(g, v, p, nodes, cache, open, h, f) && f.pending && Hot(v, p) <= open
    requires Resolved(g, v.params, v.lvl, e) && !e.Choice? && Rep(nodes, cache, open, id, Expand(g, v, e))
    ensures FrameSim(g, v, p, Pushed(nodes, h.choice.value, id), cache, open, h, AddToFrame(f, e))
  {
    hide Rep, Run, Step;
    var nodes' := Pushed(nodes, h.choice.value, id);
    var f', alts := AddToFrame(f, e), Last(f.items).alts;
    assert Last(f.items) in f.items && Last(f'.items) in f'.items;
    assert Keeps(nodes, cache, open, nodes', cache, open);
    AddResolved(g, v.params, v.lvl, f, e);
    var kids := nodes[h.list].children;
    forall k | 0 <= k < |kids| - 1 ensures Rep(nodes', cache, open, kids[k], Expand(g, v, f'.items[k])) {
      RepKept(nodes, cache, open, nodes', cache, open, kids[k], Expand(g, v, f.items[k]));
    }
    if h.owned {
      RepAllKept(nodes, cache, open, nodes', cache, open, nodes[h.choice.value].children, ExpandAll(g, v, alts));
      RepKept(nodes, cache, open, nodes', cache, open, id, Expand(g, v, e));
    } else {
      RepKept(nodes, cache, open, nodes', cache, open, p, v.arg.value);
    }
  }

  lemma AddPlain(g: Grammar, v: Env, p: nat, nodes: seq<Node>, cache: Table, open: set<nat>, open': set<nat>, h: Hole,
                 f: Frame, id: nat, e: Expr)
    requires g.Ok() && v.Ok() && FrameSim(g, v, p, nodes, cache, open, h, f) && !f.pending
    requires Resolved(g, v.params, v.lvl, e) && !e.Choice? && Rep(nodes, cache, open, id, Expand(g, v, e))
    requires v.IsParameter(e) ==> id == p
    requires open' <= open && h.list in open' && (h.owned && h.choice.Some? ==> h.choice.value !in open')
    ensures FrameSim(g, v, p, Pushed(nodes, h.list, id), cache, open', Hole(h.list, None, true), AddToFrame(f, e))
  {
    var nodes' := Pushed(nodes, h.list, id);
    var f' := AddToFrame(f, e);
    assert Keeps(nodes, cache, open, nodes', cache, open');
    AddResolved(g, v.params, v.lvl, f, e);
    if h.choice.Some? { assert Last(nodes[h.list].children) == h.choice.value; }
    ItemsRep(g, v, p, nodes, cache, open, nodes', cache, open', h, f);
    RepKept(nodes, cache, open, nodes', cache, open', id, Expand(g, v, e));
  }

  /** The element may be added: it stands for the tree e, and the bare parameter is the parameter's own matcher. */
  ghost predicate Addable(g: Grammar, v: Env, p: nat, nodes: seq<Node>, cache: Table, open: set<nat>, id: nat, e: Expr)
    requires g.Ok()
  {
    && v.Ok() && Resolved(g, v.params, v.lvl, e) && !e.Choice? && Rep(nodes, cache, open, id, Expand(g, v, e))
    && (v.IsParameter(e) ==> id == p)
  }

  lemma AddSim(g: Grammar, v: Env, p: nat, nodes: seq<Node>, cache: Table, outer: set<nat>, hs: seq<Hole>,
               fs: seq<Frame>, id: nat, e: Expr)
    requires g.Ok() && v.Ok() && Sim(g, v, p, nodes, cache, outer, hs, fs)
    requires Addable(g, v, p, nodes, cache, OpenSet(outer, hs), id, e)
    ensures var t := Target(Last(hs), Last(fs));
            && t < |nodes| && (nodes[t].ListMatcher? || nodes[t].ChoiceMatcher?)
            && (nodes[t].ChoiceMatcher? <==> Last(fs).pending)
            && (t in Ids(Last(hs)) || (t == p && v.Shares()))
            && Sim(g, v, p, Pushed(nodes, t, id), cache, outer, Init(hs) + [AddedHole(Last(hs), Last(fs))], Add(fs, e))
            && Keeps(nodes, cache, OpenSet(outer, hs), Pushed(nodes, t, id), cache,
                     OpenSet(outer, Init(hs) + [AddedHole(Last(hs), Last(fs))]))
  {
    var h, f := Last(hs), Last(fs);
    var h' := AddedHole(h, f);
    var open := OpenSet(outer, hs);
    assert open == OpenSet(outer, Init(hs)) + Ids(h);
    OuterOpen(outer, hs);
    assert FrameSim(g, v, p, nodes, cache, open, h, f);
    var nodes' := Pushed(nodes, Target(h, f), id);
    if f.pending {
      AddPending(g, v, p, nodes, cache, open, h, f, id, e);
    } else {
      AddPlain(g, v, p, nodes, cache, open, OpenSet(outer, Init(hs)) + Ids(h'), h, f, id, e);
    }
    TopReplaced(g, v, p, nodes, cache, outer, hs, fs, nodes', h', AddToFrame(f, e));
  }

  // ----- the stack under an addition -----

  lemma AddStack(hs: seq<Hole>, fs: seq<Frame>, e: Expr)
    requires |hs| == |fs| > 0 && FramesShape(fs) && SomeAlternative(e)
    requires Last(fs).pending ==> Last(hs).choice.Some?
    ensures Last(Stack(hs, fs)).matcher == Target(Last(hs), Last(fs))
    ensures Stack(Init(hs) + [AddedHole(Last(hs), Last(fs))], Add(fs, e))
         == if Last(fs).pending then Init(Stack(hs, fs)) else Stack(hs, fs)
  {
    var hs', fs' := Init(hs) + [AddedHole(Last(hs), Last(fs))], Add(fs, e);
    assert Init(hs') == Init(hs) && Init(fs') == Init(fs);
  }

  // ----- `?`, `*`, `+` -----

  /** The matchers a suffix allocates around the last element. */
  function SuffixNodes(op: char, n: nat, kid: nat): (r: seq<Node>)
    ensures r != []
  {
    if op == '+' then [RepeatMatcher(kid)]
    else if op == '*' then [RepeatMatcher(kid), OptionalMatcher(n)]
    else [OptionalMatcher(kid)]
  }

  function Resuffixed(op: char, nodes: seq<Node>, l: nat): (r: seq<Node>)
    requires l < |nodes| && nodes[l].ListMatcher? && nodes[l].children != []
  {
    var kids := nodes[l].children;
    var more := nodes + SuffixNodes(op, |nodes|, Last(kids));
    more[l := ListMatcher(Init(kids) + [|more| - 1])]
  }

  lemma SuffixFrame(g: Grammar, v: Env, p: nat, nodes: seq<Node>, cache: Table, open: set<nat>, open': set<nat>,
                    h: Hole, f: Frame, op: char)
    requires g.Ok() && v.Ok() && FrameSim(g, v, p, nodes, cache, open, h, f)
    requires f.items != [] && !f.pending && h.list in open' && open' <= open && (forall x :: x in open ==> x < |nodes|)
    requires h.owned && h.choice.Some? ==> h.choice.value !in open'
    requires var f' := Frame(f.fname, Init(f.items) + [Suffixed(op, Last(f.items))], false);
             FrameShape(f') && FrameResolved(g, v.params, v.lvl, f')
    ensures FrameSim(g, v, p, Resuffixed(op, nodes, h.list), cache, open', Hole(h.list, None, true),
                     Frame(f.fname, Init(f.items) + [Suffixed(op, Last(f.items))], false))
  {
    hide Expand, Rep, Resolved;
    var f' := Frame(f.fname, Init(f.items) + [Suffixed(op, Last(f.items))], false);
    var nodes', kids, e := Resuffixed(op, nodes, h.list), nodes[h.list].children, Last(f.items);
    assert Keeps(nodes, cache, open, nodes', cache, open');
    ItemsRep(g, v, p, nodes, cache, open, nodes', cache, open', h, f);
    assert e in f.items && Last(f'.items) == Suffixed(op, e) && Last(f'.items) in f'.items;
    assert Rep(nodes', cache, open', Last(kids), Expand(g, v, e));
    SuffixRep(g, v, nodes', cache, open', op, |nodes|, Last(kids), e);
  }

  lemma SuffixSim(g: Grammar, v: Env, p: nat, nodes: seq<Node>, cache: Table, outer: set<nat>, hs: seq<Hole>,
                  fs: seq<Frame>, op: char)
    requires g.Ok() && v.Ok() && Sim(g, v, p, nodes, cache, outer, hs, fs)
    requires op == '?' || op == '*' || op == '+'
    requires Step(fs, Operator(op)).Some?
    requires var l := Last(hs).list; l < |nodes| && nodes[l].ListMatcher? && nodes[l].children != []
    ensures var hs', nodes' := Init(hs) + [Hole(Last(hs).list, None, true)], Resuffixed(op, nodes, Last(hs).list);
            && Sim(g, v, p, nodes', cache, outer, hs', Step(fs, Operator(op)).value)
            && Keeps(nodes, cache, OpenSet(outer, hs), nodes', cache, OpenSet(outer, hs'))
  {
    hide Expand, Rep, Resolved, Run, LastSim;
    var h, f := Last(hs), Last(fs);
    var h' := Hole(h.list, None, true);
    var open, open' := OpenSet(outer, hs), OpenSet(outer, Init(hs)) + {h.list};
    var f' := Last(Step(fs, Operator(op)).value);
    assert open == OpenSet(outer, Init(hs)) + Ids(h) && Ids(h') == {h.list};
    assert FrameSim(g, v, p, nodes, cache, open, h, f);
    SimResolved(g, v, p, nodes, cache, outer, hs, fs);
    StepResolved(g, v.params, v.lvl, fs, Operator(op));
    assert f' in Step(fs, Operator(op)).value && FrameResolved(g, v.params, v.lvl, f');
    if h.owned && h.choice.Some? { LastOther(g, v, p, nodes, cache, open, h, f); }
    SuffixFrame(g, v, p, nodes, cache, open, open', h, f, op);
    TopReplaced(g, v, p, nodes, cache, outer, hs, fs, Resuffixed(op, nodes, h.list), h', f');
  }

  /** The choice of a frame is not its list. */
  lemma LastOther(g: Grammar, v: Env, p: nat, nodes: seq<Node>, cache: Table, open: set<nat>, h: Hole, f: Frame)
    requires g.Ok() && v.Ok() && FrameSim(g, v, p, nodes, cache, open, h, f) && h.choice.Some?
    ensures h.choice.value != h.list && h.choice.value < |nodes| && nodes[h.choice.value].ChoiceMatcher?
    ensures f.items != [] && Last(f.items) in f.items && Last(f.items).Choice?
    ensures h.choice == Some(Last(nodes[h.list].children))
    ensures h.owned <==> !v.Extends(Last(f.items).alts)
    ensures h.owned ==> h.choice.value !in cache.shared
    ensures !h.owned ==> h.choice.value == p
  {
  }

  lemma SuffixRep(g: Grammar, v: Env, nodes: seq<Node>, cache: Table, open: set<nat>, op: char, n: nat, kid: nat,
                  e: Expr)
    requires g.Ok() && v.Ok() && Resolved(g, v.params, v.lvl, e) && Resolved(g, v.params, v.lvl, Suffixed(op, e))
    requires Rep(nodes, cache, open, kid, Expand(g, v, e))
    requires n + |SuffixNodes(op, n, kid)| == |nodes| && nodes[n..] == SuffixNodes(op, n, kid)
    requires forall x :: x in open ==> x < n
    ensures Rep(nodes, cache, open, |nodes| - 1, Expand(g, v, Suffixed(op, e)))
  {
    assert nodes[n] == nodes[n..][0];
    if op == '*' {
      assert nodes[n + 1] == nodes[n..][1];
      assert Rep(nodes, cache, open, n, Expand(g, v, Plus(e)));
    }
  }

  lemma SimResolved(g: Grammar, v: Env, p: nat, nodes: seq<Node>, cache: Table, outer: set<nat>, hs: seq<Hole>,
                    fs: seq<Frame>)
    requires g.Ok() && v.Ok() && Sim(g, v, p, nodes, cache, outer, hs, fs)
    ensures FramesResolved(g, v.params, v.lvl, fs)
  {
    forall k | 0 <= k < |fs| ensures FrameResolved(g, v.params, v.lvl, fs[k]) {
      assert FrameSim(g, v, p, nodes, cache, OpenSet(outer, hs), hs[k], fs[k]);
    }
  }

  lemma SuffixStack(hs: seq<Hole>, fs: seq<Frame>, op: char)
    requires |hs| == |fs| > 0 && FramesShape(fs) && Step(fs, Operator(op)).Some?
    requires op == '?' || op == '*' || op == '+'
    ensures Stack(Init(hs) + [Hole(Last(hs).list, None, true)], Step(fs, Operator(op)).value) == Stack(hs, fs)
    ensures Last(Stack(hs, fs)).matcher == Last(hs).list
  {
    var hs', fs' := Init(hs) + [Hole(Last(hs).list, None, true)], Step(fs, Operator(op)).value;
    assert Init(hs') == Init(hs) && Init(fs') == Init(fs);
  }

  // ----- `/` -----

  /** Where `/` finds no choice, a new one takes the place of the last element. */
  function Rechosen(nodes: seq<Node>, l: nat): (r: seq<Node>)
    requires l < |nodes| && nodes[l].ListMatcher? && nodes[l].children != []
  {
    var kids := nodes[l].children;
    (nodes + [ChoiceMatcher([Last(kids)])])[l := ListMatcher(Init(kids) + [|nodes|])]
  }

  predicate HasLast(nodes: seq<Node>, l: nat) {
    l < |nodes| && nodes[l].ListMatcher? && nodes[l].children != [] && Last(nodes[l].children) < |nodes|
  }

  function SlashNodes(nodes: seq<Node>, l: nat): (r: seq<Node>)
    requires HasLast(nodes, l)
  {
    if nodes[Last(nodes[l].children)].ChoiceMatcher? then nodes else Rechosen(nodes, l)
  }

  function SlashChoice(nodes: seq<Node>, l: nat): nat
    requires HasLast(nodes, l)
  {
    if nodes[Last(nodes[l].children)].ChoiceMatcher? then Last(nodes[l].children) else |nodes|
  }

  /** The hole after `/`: the choice is the bracket's own unless the last element is a parameter that shares a
      choice. */
  function SlashHole(v: Env, nodes: seq<Node>, h: Hole, f: Frame): Hole
    requires HasLast(nodes, h.list) && f.items != []
  {
    var owned := if Last(f.items).Choice? then h.owned else !(v.Shares() && v.IsParameter(Last(f.items)));
    Hole(h.list, Some(SlashChoice(nodes, h.list)), owned)
  }

  /** The last element is a choice matcher only when it is a choice of this very bracket, or the shared one. */
  predicate LastIsChoice(v: Env, nodes: seq<Node>, id: nat, e: Expr) {
    id < |nodes| && (nodes[id].ChoiceMatcher? <==> e.Choice? || (v.Shares() && v.IsParameter(e)))
  }

  lemma SlashFrame(g: Grammar, v: Env, p: nat, nodes: seq<Node>, cache: Table, open: set<nat>, h: Hole, f: Frame)
    requires g.Ok() && v.Ok() && FrameSim(g, v, p, nodes, cache, open, h, f)
    requires f.items != [] && !f.pending && !Last(f.items).Choice? && !(v.Shares() && v.IsParameter(Last(f.items)))
    requires forall x :: x in open || x in cache.shared ==> x < |nodes|
    ensures FrameSim(g, v, p, Rechosen(nodes, h.list), cache, open + {|nodes|}, Hole(h.list, Some(|nodes|), true),
                     Frame(f.fname, Init(f.items) + [Opened(Last(f.items))], true))
  {
    var nodes', open', h' := Rechosen(nodes, h.list), open + {|nodes|}, Hole(h.list, Some(|nodes|), true);
    var f' := Frame(f.fname, Init(f.items) + [Opened(Last(f.items))], true);
    var e, kids := Last(f.items), nodes[h.list].children;
    assert Keeps(nodes, cache, open, nodes', cache, open');
    SlashResolved(g, v, f);
    assert nodes'[h.list].children == Init(kids) + [|nodes|];
    forall k | 0 <= k < |kids| - 1 ensures Rep(nodes', cache, open', kids[k], Expand(g, v, f'.items[k])) {
      assert f'.items[k] == f.items[k];
      RepKept(nodes, cache, open, nodes', cache, open', kids[k], Expand(g, v, f.items[k]));
    }
    assert LastSim(g, v, p, nodes', cache, open', h', |nodes|, Choice([e])) by {
      RepKept(nodes, cache, open, nodes', cache, open', Last(kids), Expand(g, v, e));
      assert ExpandAll(g, v, [e]) == [Expand(g, v, e)];
    }
  }

  /** After the bare parameter `/` reopens the shared choice. */
  lemma SlashShared(g: Grammar, v: Env, p: nat, nodes: seq<Node>, cache: Table, open: set<nat>, h: Hole, f: Frame)
    requires g.Ok() && v.Ok() && FrameSim(g, v, p, nodes, cache, open, h, f)
    requires f.items != [] && !f.pending && v.Shares() && v.IsParameter(Last(f.items))
    requires h.list in open && h.list != p
    ensures FrameSim(g, v, p, nodes, cache, open, Hole(h.list, Some(p), false),
                     Frame(f.fname, Init(f.items) + [Opened(Last(f.items))], true))
  {
    SlashResolved(g, v, f);
    assert Last(f.items) in f.items;
  }

  lemma SlashResolved(g: Grammar, v: Env, f: Frame)
    requires FrameResolved(g, v.params, v.lvl, f) && f.items != [] && !Last(f.items).Choice?
    ensures var f' := Frame(f.fname, Init(f.items) + [Opened(Last(f.items))], true);
            && FrameResolved(g, v.params, v.lvl, f') && Last(f'.items) == Choice([Last(f.items)])
            && Resolved(g, v.params, v.lvl, Last(f.items)) && Resolved(g, v.params, v.lvl, Choice([Last(f.items)]))
  {
    assert forall a :: a in Init(f.items) ==> a in f.items;
    assert Last(f.items) in f.items;
    OpenedResolved(g, v.params, v.lvl, Last(f.items));
  }

  lemma SlashSim(g: Grammar, v: Env, p: nat, nodes: seq<Node>, cache: Table, outer: set<nat>, hs: seq<Hole>,
                 fs: seq<Frame>)
    requires g.Ok() && v.Ok() && Sim(g, v, p, nodes, cache, outer, hs, fs)
    requires Step(fs, Operator('/')).Some? && (forall x :: x in cache.shared ==> x < |nodes|)
    requires HasLast(nodes, Last(hs).list)
             && LastIsChoice(v, nodes, Last(nodes[Last(hs).list].children), Last(Last(fs).items))
    ensures var nodes', hs' := SlashNodes(nodes, Last(hs).list), Init(hs) + [SlashHole(v, nodes, Last(hs), Last(fs))];
            && Sim(g, v, p, nodes', cache, outer, hs', Step(fs, Operator('/')).value)
            && Keeps(nodes, cache, OpenSet(outer, hs), nodes', cache, OpenSet(outer, hs'))
            && Stack(hs', Step(fs, Operator('/')).value)
               == Stack(hs, fs) + [Entry(SlashChoice(nodes, Last(hs).list), "")]
            && Last(Stack(hs, fs)).matcher == Last(hs).list
  {
    var h, f := Last(hs), Last(fs);
    var nodes', h' := SlashNodes(nodes, h.list), SlashHole(v, nodes, h, f);
    var open := OpenSet(outer, hs);
    var f' := Last(Step(fs, Operator('/')).value);
    OuterOpen(outer, hs);
    assert FrameShape(f') && FrameSim(g, v, p, nodes, cache, open, h, f);
    assert open == OpenSet(outer, Init(hs)) + Ids(h);
    HolesDisjoint(outer, hs, |hs| - 1);
    SlashTop(g, v, p, nodes, cache, outer, OpenSet(outer, Init(hs)), h, f);
    hide FrameSim, FrameResolved, LastIsChoice, FrameShape, Rechosen;
    TopReplaced(g, v, p, nodes, cache, outer, hs, fs, nodes', h', f');
    SlashStack(hs, fs, h', f');
  }

  /** `/` on the top frame, in its three cases. */
  lemma SlashTop(g: Grammar, v: Env, p: nat, nodes: seq<Node>, cache: Table, outer: set<nat>, low: set<nat>, h: Hole,
                 f: Frame)
    requires g.Ok() && v.Ok() && FrameSim(g, v, p, nodes, cache, low + Ids(h), h, f)
    requires f.items != [] && !f.pending && Hot(v, p) <= outer <= low && Ids(h) !! outer
    requires forall x :: x in low + Ids(h) || x in cache.shared ==> x < |nodes|
    requires HasLast(nodes, h.list) && LastIsChoice(v, nodes, Last(nodes[h.list].children), Last(f.items))
    ensures var nodes', h' := SlashNodes(nodes, h.list), SlashHole(v, nodes, h, f);
            && FrameSim(g, v, p, nodes', cache, low + Ids(h'), h',
                        Frame(f.fname, Init(f.items) + [Opened(Last(f.items))], true))
            && (forall x :: x in Ids(h') ==> x in Ids(h) || |nodes| <= x < |nodes'|)
  {
    var open, h' := low + Ids(h), SlashHole(v, nodes, h, f);
    if Last(f.items).Choice? {
      assert Init(f.items) + [Last(f.items)] == f.items;
      assert h' == h;
    } else if v.Shares() && v.IsParameter(Last(f.items)) {
      SlashShared(g, v, p, nodes, cache, open, h, f);
      assert h.choice == None && low + Ids(h') == open;
    } else {
      SlashFrame(g, v, p, nodes, cache, open, h, f);
      assert low + Ids(h') == open + {|nodes|};
    }
  }

  lemma SlashStack(hs: seq<Hole>, fs: seq<Frame>, h': Hole, f': Frame)
    requires |hs| == |fs| > 0 && !Last(fs).pending && f'.pending && h'.choice.Some?
    requires h'.list == Last(hs).list && f'.fname == Last(fs).fname
    ensures Stack(Init(hs) + [h'], Init(fs) + [f']) == Stack(hs, fs) + [Entry(h'.choice.value, "")]
    ensures Last(Stack(hs, fs)).matcher == Last(hs).list
  {
    assert Init(Init(hs) + [h']) == Init(hs) && Init(Init(fs) + [f']) == Init(fs);
  }

  // ----- brackets -----

  lemma PushSim(g: Grammar, v: Env, p: nat, nodes: seq<Node>, cache: Table, outer: set<nat>, hs: seq<Hole>,
                fs: seq<Frame>, f: string)
    requires g.Ok() && v.Ok() && Sim(g, v, p, nodes, cache, outer, hs, fs)
    requires (f != "" ==> g.TokenOk(v.params, v.lvl, FunctionCall(f)))
             && (forall x :: x in cache.shared ==> x < |nodes|)
    ensures var nodes', hs', fs' := nodes + [ListMatcher([])], hs + [Hole(|nodes|, None, true)],
            fs + [Frame(f, [], false)];
            && Sim(g, v, p, nodes', cache, outer, hs', fs')
            && Keeps(nodes, cache, OpenSet(outer, hs), nodes', cache, OpenSet(outer, hs'))
            && Stack(hs', fs') == Stack(hs, fs) + [Entry(|nodes|, f)]
  {
    var nodes', hs', fs' := nodes + [ListMatcher([])], hs + [Hole(|nodes|, None, true)], fs + [Frame(f, [], false)];
    assert Init(hs') == hs && Init(fs') == fs;
    var open, open' := OpenSet(outer, hs), OpenSet(outer, hs');
    assert Keeps(nodes, cache, open, nodes', cache, open');
    forall m | 0 <= m < |hs'| ensures FrameSim(g, v, p, nodes', cache, open', hs'[m], fs'[m]) {
      if m < |hs| {
        OpenSetPrefix(outer, hs, m);
        FrameKept(g, v, p, nodes, cache, open, nodes', cache, open', hs[m], fs[m]);
      }
    }
  }

  lemma {:induction false} LargerOuter(outer: set<nat>, held: set<nat>, hs: seq<Hole>)
    requires Disjoint(outer, hs) && held !! OpenSet(outer, hs)
    ensures OpenSet(outer + held, hs) == OpenSet(outer, hs) + held && Disjoint(outer + held, hs)
    decreases |hs|
  {
    if hs != [] { LargerOuter(outer, held, Init(hs)); }
  }

  /** Closing the top bracket: the frames below are still simulated; a choice of the bracket may be held open. */
  lemma PopSim(g: Grammar, v: Env, p: nat, nodes: seq<Node>, cache: Table, outer: set<nat>, hs: seq<Hole>,
               fs: seq<Frame>, held: set<nat>)
    requires g.Ok() && v.Ok() && Sim(g, v, p, nodes, cache, outer, hs, fs)
    requires |hs| > 1 && !Last(fs).pending && held <= Ids(Last(hs))
    ensures Sim(g, v, p, nodes, cache, outer + held, Init(hs), Init(fs))
    ensures Keeps(nodes, cache, OpenSet(outer, hs), nodes, cache, OpenSet(outer + held, Init(hs)))
    ensures OpenSet(outer + held, Init(hs)) == OpenSet(outer, Init(hs)) + held
    ensures Stack(hs, fs) == Stack(Init(hs), Init(fs)) + [Entry(Last(hs).list, Last(fs).fname)]
  {
    hide FrameSim, FrameShape;
    var open, low := OpenSet(outer, hs), Init(hs);
    LargerOuter(outer, held, low);
    var open' := OpenSet(outer + held, low);
    assert Keeps(nodes, cache, open, nodes, cache, open');
    forall m | 0 <= m < |low| ensures FrameSim(g, v, p, nodes, cache, open', low[m], Init(fs)[m]) {
      OpenSetPrefix(outer, low, m);
      FrameKept(g, v, p, nodes, cache, open, nodes, cache, open', hs[m], fs[m]);
    }
  }

  /** The list of the closed bracket stands for its items. */
  lemma PoppedItems(g: Grammar, v: Env, p: nat, nodes: seq<Node>, cache: Table, outer: set<nat>, hs: seq<Hole>,
                    fs: seq<Frame>)
    requires g.Ok() && v.Ok() && Sim(g, v, p, nodes, cache, outer, hs, fs) && !Last(fs).pending
    ensures var l := Last(hs).list;
            && l < |nodes| && l !in OpenSet(outer, Init(hs)) && nodes[l].ListMatcher?
            && FrameResolved(g, v.params, v.lvl, Last(fs))
            && RepAll(nodes, cache, OpenSet(outer, Init(hs)), nodes[l].children, ExpandAll(g, v, Last(fs).items))
  {
    var h, f := Last(hs), Last(fs);
    var open, open' := OpenSet(outer, hs), OpenSet(outer, Init(hs));
    assert FrameSim(g, v, p, nodes, cache, open, h, f);
    assert Keeps(nodes, cache, open, nodes, cache, open');
    ItemsRep(g, v, p, nodes, cache, open, nodes, cache, open', h, f);
  }

  /** The root list alone is left: it stands for the whole body. */
  lemma RootRep(g: Grammar, v: Env, p: nat, nodes: seq<Node>, cache: Table, outer: set<nat>, hs: seq<Hole>,
                fs: seq<Frame>)
    requires g.Ok() && v.Ok() && Sim(g, v, p, nodes, cache, outer, hs, fs)
    requires |hs| == 1 && !fs[0].pending
    ensures var l := hs[0].list;
            && l < |nodes| && l !in outer && nodes[l].ListMatcher?
            && FrameResolved(g, v.params, v.lvl, fs[0])
            && RepAll(nodes, cache, outer, nodes[l].children, ExpandAll(g, v, fs[0].items))
    ensures Keeps(nodes, cache, OpenSet(outer, hs), nodes, cache, outer)
  {
    assert Init(hs) == [];
    assert OpenSet(outer, Init(hs)) == outer;
    assert FrameSim(g, v, p, nodes, cache, OpenSet(outer, hs), hs[0], fs[0]);
    assert Keeps(nodes, cache, OpenSet(outer, hs), nodes, cache, outer);
    ItemsRep(g, v, p, nodes, cache, OpenSet(outer, hs), nodes, cache, outer, hs[0], fs[0]);
  }

  // ----- what the open brackets have added to the shared choice -----

  ghost function ExtFrames(g: Grammar, v: Env, fs: seq<Frame>): seq<Expr>
    requires g.Ok() && v.Ok() && FramesResolved(g, v.params, v.lvl, fs)
  {
    if fs == [] then []
    else
      assert FrameResolved(g, v.params, v.lvl, Last(fs));
      ExtFrames(g, v, Init(fs)) + ExtAll(g, v, Last(fs).items)
  }

  lemma ExtSnoc(g: Grammar, v: Env, es: seq<Expr>, e: Expr)
    requires g.Ok() && v.Ok() && (forall a :: a in es ==> Resolved(g, v.params, v.lvl, a))
             && Resolved(g, v.params, v.lvl, e)
    ensures ExtAll(g, v, es + [e]) == ExtAll(g, v, es) + Ext(g, v, e)
    ensures es != [] ==> ExtLater(g, v, es + [e]) == ExtLater(g, v, es) + Ext(g, v, e) + [Expand(g, v, e)]
  {
    assert Init(es + [e]) == es;
  }

  /** What an element adds to the shared choice when it is put into the innermost bracket: itself, if it is an
      alternative of that choice. */
  ghost function Alternative(g: Grammar, v: Env, f: Frame, e: Expr): seq<Expr>
    requires g.Ok() && v.Ok() && FrameShape(f) && Resolved(g, v.params, v.lvl, e)
  {
    if f.pending && v.Extends(Last(f.items).alts) then [Expand(g, v, e)] else []
  }

  /** One more alternative of a choice under way. */
  lemma ExtGrown(g: Grammar, v: Env, alts: seq<Expr>, e: Expr)
    requires g.Ok() && v.Ok() && alts != [] && Resolved(g, v.params, v.lvl, e)
    requires forall a :: a in alts ==> Resolved(g, v.params, v.lvl, a)
    ensures Resolved(g, v.params, v.lvl, Choice(alts)) && Resolved(g, v.params, v.lvl, Choice(alts + [e]))
    ensures Ext(g, v, Choice(alts + [e]))
         == Ext(g, v, Choice(alts)) + Ext(g, v, e) + if v.Extends(alts) then [Expand(g, v, e)] else []
  {
    hide Expand;
    assert Resolved(g, v.params, v.lvl, Choice(alts + [e])) by {
      assert forall a :: a in alts + [e] ==> Resolved(g, v.params, v.lvl, a);
    }
    ExtSnoc(g, v, alts, e);
    assert (alts + [e])[0] == alts[0];
  }

  lemma ExtAdded(g: Grammar, v: Env, f: Frame, e: Expr)
    requires g.Ok() && v.Ok() && FrameShape(f) && FrameResolved(g, v.params, v.lvl, f)
    requires Resolved(g, v.params, v.lvl, e) && SomeAlternative(e)
    ensures FrameResolved(g, v.params, v.lvl, AddToFrame(f, e))
    ensures ExtAll(g, v, AddToFrame(f, e).items) == ExtAll(g, v, f.items) + Ext(g, v, e) + Alternative(g, v, f, e)
  {
    hide Expand, Ext, ExtAll, ExtLater, Grammar.Ok;
    AddResolved(g, v.params, v.lvl, f, e);
    if f.pending {
      var front, alts := Init(f.items), Last(f.items).alts;
      assert Last(f.items) in f.items && (forall a :: a in front ==> a in f.items);
      assert front + [Last(f.items)] == f.items;
      ExtGrown(g, v, alts, e);
      ExtSnoc(g, v, front, Last(f.items));
      ExtSnoc(g, v, front, Choice(alts + [e]));
    } else {
      ExtSnoc(g, v, f.items, e);
    }
  }

  lemma AddFramesResolved(g: Grammar, params: seq<string>, lvl: nat, fs: seq<Frame>, e: Expr)
    requires FramesShape(fs) && FramesResolved(g, params, lvl, fs) && Resolved(g, params, lvl, e) && SomeAlternative(e)
    ensures FramesResolved(g, params, lvl, Add(fs, e))
  {
    AddResolved(g, params, lvl, Last(fs), e);
  }

  lemma ExtFramesAdd(g: Grammar, v: Env, fs: seq<Frame>, e: Expr)
    requires g.Ok() && v.Ok() && FramesShape(fs) && FramesResolved(g, v.params, v.lvl, fs)
    requires Resolved(g, v.params, v.lvl, e) && SomeAlternative(e) && FramesResolved(g, v.params, v.lvl, Add(fs, e))
    ensures ExtFrames(g, v, Add(fs, e)) == ExtFrames(g, v, fs) + Ext(g, v, e) + Alternative(g, v, Last(fs), e)
  {
    hide Expand, Ext, ExtAll, Alternative, Resolved, Grammar.Ok, Env.Ok, AddToFrame, FrameShape;
    assert FrameResolved(g, v.params, v.lvl, Last(fs));
    ExtAdded(g, v, Last(fs), e);
    assert Init(Add(fs, e)) == Init(fs);
  }

  lemma ExtSuffixed(g: Grammar, v: Env, op: char, e: Expr)
    requires g.Ok() && v.Ok() && Resolved(g, v.params, v.lvl, e)
    ensures Resolved(g, v.params, v.lvl, Suffixed(op, e)) && Ext(g, v, Suffixed(op, e)) == Ext(g, v, e)
  {
    hide Expand, Grammar.Ok;
    if op == '*' { assert Ext(g, v, Plus(e)) == Ext(g, v, e); }
  }

  lemma ExtSingle(g: Grammar, v: Env, e: Expr)
    requires g.Ok() && v.Ok() && Resolved(g, v.params, v.lvl, e)
    ensures ExtAll(g, v, [e]) == Ext(g, v, e) && ExtLater(g, v, [e]) == []
  {
    hide Expand, Ext, Resolved, Grammar.Ok, Env.Ok;
    assert Init([e]) == [] && Last([e]) == e;
    assert ExtAll(g, v, []) == [];
  }

  lemma ExtOpened(g: Grammar, v: Env, e: Expr)
    requires g.Ok() && v.Ok() && Resolved(g, v.params, v.lvl, e)
    ensures Resolved(g, v.params, v.lvl, Opened(e)) && Ext(g, v, Opened(e)) == Ext(g, v, e)
  {
    OpenedResolved(g, v.params, v.lvl, e);
    if !e.Choice? {
      hide Expand, Resolved, ExtAll, ExtLater, Grammar.Ok;
      ExtSingle(g, v, e);
      if v.Extends([e]) { assert e.Ref?; }
    }
  }

  /** Suffixes and `/` add nothing yet. */
  lemma ExtFramesReplaced(g: Grammar, v: Env, fs: seq<Frame>, op: char)
    requires g.Ok() && v.Ok() && FramesShape(fs) && FramesResolved(g, v.params, v.lvl, fs)
    requires (op == '?' || op == '*' || op == '+' || op == '/') && Step(fs, Operator(op)).Some?
    ensures FramesResolved(g, v.params, v.lvl, Step(fs, Operator(op)).value)
    ensures ExtFrames(g, v, Step(fs, Operator(op)).value) == ExtFrames(g, v, fs)
  {
    hide Expand, Ext, ExtAll, Resolved, Grammar.Ok, Env.Ok, Opened, Suffixed;
    var top := Last(fs);
    assert FrameResolved(g, v.params, v.lvl, top);
    var front, e := Init(top.items), Last(top.items);
    assert e in top.items && (forall a :: a in front ==> a in top.items);
    StepResolved(g, v.params, v.lvl, fs, Operator(op));
    if op == '/' { ExtOpened(g, v, e); } else { ExtSuffixed(g, v, op, e); }
    assert front + [e] == top.items;
    ExtSnoc(g, v, front, e);
    ExtSnoc(g, v, front, if op == '/' then Opened(e) else Suffixed(op, e));
    assert Init(Step(fs, Operator(op)).value) == Init(fs);
  }

  // ----- the cache -----

  /** Every rule in the cache has one matcher; unless it is still in progress it stands for the rule's body. */
  ghost predicate CacheEntry(g: Grammar, nodes: seq<Node>, cache: Table, open: set<nat>, prog: set<string>, r: string)
    requires g.Ok() && r in cache.rules
  {
    && cache.rules[r] < |nodes|
    && if r in g.overrides then cache.rules[r] !in open && nodes[cache.rules[r]] == Terminal(g.overrides[r])
       else
         && g.PlainRule(r) && nodes[cache.rules[r]].ListMatcher?
         && (r !in prog ==>
               && cache.rules[r] !in open
               && RepAll(nodes, cache, open, nodes[cache.rules[r]].children, RuleMeaning(g, Sharing, r)))
  }

  /** Every shared choice is a choice matcher; once nothing can extend it any more, it has all its alternatives. */
  ghost predicate SharedEntry(g: Grammar, nodes: seq<Node>, cache: Table, open: set<nat>, id: nat)
    requires g.Ok() && id in cache.shared
  {
    && id < |nodes| && nodes[id].ChoiceMatcher? && WellShared(g, cache.shared[id])
    && (id !in open ==> RepAll(nodes, cache, open, nodes[id].children, SharedAlts(g, cache.shared[id])))
  }

  ghost predicate CacheOk(g: Grammar, nodes: seq<Node>, cache: Table, open: set<nat>, prog: set<string>)
    requires g.Ok()
  {
    && (forall r :: r in g.overrides ==> r in cache.rules)
    && (forall r :: r in cache.rules ==> CacheEntry(g, nodes, cache, open, prog, r))
    && (forall id :: id in cache.shared ==> SharedEntry(g, nodes, cache, open, id))
  }

  /** The cache gains no entries here; shared choices stay open. */
  lemma CacheKept(g: Grammar, nodes: seq<Node>, cache: Table, open: set<nat>, prog: set<string>, nodes': seq<Node>,
                  open': set<nat>)
    requires g.Ok() && CacheOk(g, nodes, cache, open, prog) && Keeps(nodes, cache, open, nodes', cache, open')
    requires forall id :: id in cache.shared && id in open ==> id in open'
    ensures CacheOk(g, nodes', cache, open', prog)
  {
    forall r | r in cache.rules ensures CacheEntry(g, nodes', cache, open', prog, r) {
      assert CacheEntry(g, nodes, cache, open, prog, r);
      if r !in g.overrides && r !in prog {
        RepAllKept(nodes, cache, open, nodes', cache, open', nodes[cache.rules[r]].children,
                   RuleMeaning(g, Sharing, r));
      }
    }
    forall id | id in cache.shared ensures SharedEntry(g, nodes', cache, open', id) {
      assert SharedEntry(g, nodes, cache, open, id);
      if id !in open {
        RepAllKept(nodes, cache, open, nodes', cache, open', nodes[id].children, SharedAlts(g, cache.shared[id]));
      }
    }
  }

  function Begin(cache: Table, r: string, id: nat): Table {
    cache.(rules := cache.rules[r := id])
  }

  /** A rule enters the cache with a fresh empty list before its body is compiled. */
  lemma CacheBegun(g: Grammar, nodes: seq<Node>, cache: Table, open: set<nat>, prog: set<string>, r: string)
    requires g.Ok() && CacheOk(g, nodes, cache, open, prog) && g.PlainRule(r) && r !in cache.rules
    requires forall x :: x in open ==> x < |nodes|
    ensures CacheOk(g, nodes + [ListMatcher([])], Begin(cache, r, |nodes|), open + {|nodes|}, prog + {r})
    ensures Keeps(nodes, cache, open, nodes + [ListMatcher([])], Begin(cache, r, |nodes|), open + {|nodes|})
  {
    var nodes', cache', open', prog' := nodes + [ListMatcher([])], Begin(cache, r, |nodes|), open + {|nodes|},
        prog + {r};
    forall q | q in cache'.rules ensures CacheEntry(g, nodes', cache', open', prog', q) {
      if q != r {
        assert CacheEntry(g, nodes, cache, open, prog, q);
        if q !in g.overrides && q !in prog {
          RepAllKept(nodes, cache, open, nodes', cache', open', nodes[cache.rules[q]].children,
                     RuleMeaning(g, Sharing, q));
        }
      }
    }
    forall id | id in cache'.shared ensures SharedEntry(g, nodes', cache', open', id) {
      assert SharedEntry(g, nodes, cache, open, id);
      if id !in open {
        RepAllKept(nodes, cache, open, nodes', cache', open', nodes[id].children, SharedAlts(g, cache.shared[id]));
      }
    }
  }

  function Share(cache: Table, id: nat, s: Expr): Table {
    cache.(shared := cache.shared[id := s])
  }

  /** A choice is passed to a function: from here on it stays open until the call is compiled. */
  lemma CacheShared(g: Grammar, nodes: seq<Node>, cache: Table, open: set<nat>, prog: set<string>, id: nat, s: Expr)
    requires g.Ok() && CacheOk(g, nodes, cache, open, prog) && WellShared(g, s)
    requires id < |nodes| && nodes[id].ChoiceMatcher? && id in open && id !in cache.shared
    ensures CacheOk(g, nodes, Share(cache, id, s), open, prog)
    ensures Keeps(nodes, cache, open, nodes, Share(cache, id, s), open)
  {
    var cache' := Share(cache, id, s);
    forall r | r in cache'.rules ensures CacheEntry(g, nodes, cache', open, prog, r) {
      assert CacheEntry(g, nodes, cache, open, prog, r);
      if r !in g.overrides && r !in prog {
        RepAllKept(nodes, cache, open, nodes, cache', open, nodes[cache.rules[r]].children, RuleMeaning(g, Sharing, r));
      }
    }
    forall k | k in cache'.shared ensures SharedEntry(g, nodes, cache', open, k) {
      if k != id {
        assert SharedEntry(g, nodes, cache, open, k);
        if k !in open {
          RepAllKept(nodes, cache, open, nodes, cache', open, nodes[k].children, SharedAlts(g, cache.shared[k]));
        }
      }
    }
  }

  /** The call is compiled: its shared choice has all its alternatives and is closed. */
  lemma CacheUnshared(g: Grammar, nodes: seq<Node>, cache: Table, open: set<nat>, prog: set<string>, id: nat)
    requires g.Ok() && CacheOk(g, nodes, cache, open + {id}, prog) && id in cache.shared
             && WellShared(g, cache.shared[id])
    requires id < |nodes| && RepAll(nodes, cache, open + {id}, nodes[id].children, SharedAlts(g, cache.shared[id]))
    ensures CacheOk(g, nodes, cache, open, prog)
  {
    var wide := open + {id};
    assert Keeps(nodes, cache, wide, nodes, cache, open);
    forall r | r in cache.rules ensures CacheEntry(g, nodes, cache, open, prog, r) {
      assert CacheEntry(g, nodes, cache, wide, prog, r);
      if r !in g.overrides && r !in prog {
        RepAllKept(nodes, cache, wide, nodes, cache, open, nodes[cache.rules[r]].children, RuleMeaning(g, Sharing, r));
      }
    }
    forall k | k in cache.shared ensures SharedEntry(g, nodes, cache, open, k) {
      assert SharedEntry(g, nodes, cache, wide, k);
      if k !in open {
        RepAllKept(nodes, cache, wide, nodes, cache, open, nodes[k].children, SharedAlts(g, cache.shared[k]));
      }
    }
  }
}
