/** Running a matcher graph: the declarative PEG relation, and the backtracking `MatchParseResult` methods. */
module PegMatcher {
  import opened Options
  import opened PegSyntax
  import opened PegGraph
  import opened Characters
  import opened Tokens

  // ----- the PEG relation -----

  datatype Goal = Whole(id: nat) | SeqOf(ids: seq<nat>) | AltsOf(ids: seq<nat>) | StarOf(id: nat)

  datatype Outcome = Fail | Match(end: nat)

  /** A derivation: a fact, a step from one premise, or from two with the position between them. */
  datatype Deriv = Axiom | One(sub: Deriv) | Two(first: Deriv, mid: nat, second: Deriv)

  /** A token either is the one this terminal matcher takes, or not. */
  predicate Takes(n: Node, accepts: (Kind, string) -> bool, text: string)
    requires n.KeywordMatcher? || n.Terminal?
  {
    if n.KeywordMatcher? then CIEquals(n.text, text) else accepts(n.kind, text)
  }

  /** The rules of PEG: sequences stop at the first failure, choices at the first success, repetition is greedy. */
  ghost predicate Proves(nodes: seq<Node>, accepts: (Kind, string) -> bool, toks: seq<Token>, d: Deriv, goal: Goal,
                         i: nat, o: Outcome)
    decreases d
  {
    match goal
    case Whole(id) =>
      id < |nodes| &&
      (match nodes[id]
       case ListMatcher(cs) => d.One? && Proves(nodes, accepts, toks, d.sub, SeqOf(cs), i, o)
       case ChoiceMatcher(cs) => d.One? && Proves(nodes, accepts, toks, d.sub, AltsOf(cs), i, o)
       case OptionalMatcher(c) =>
         d.One? && o.Match?
         && (Proves(nodes, accepts, toks, d.sub, Whole(c), i, o)
             || (o == Match(i) && Proves(nodes, accepts, toks, d.sub, Whole(c), i, Fail)))
       case RepeatMatcher(c) =>
         || (d.One? && o == Fail && Proves(nodes, accepts, toks, d.sub, Whole(c), i, Fail))
         || (d.Two? && Proves(nodes, accepts, toks, d.first, Whole(c), i, Match(d.mid))
             && Proves(nodes, accepts, toks, d.second, StarOf(c), d.mid, o))
       case _ =>
         d.Axiom? && o == if i < |toks| && Takes(nodes[id], accepts, toks[i].text) then Match(i + 1) else Fail)
    case SeqOf(cs) =>
      if cs == [] then d.Axiom? && o == Match(i)
      else
        || (d.One? && o == Fail && Proves(nodes, accepts, toks, d.sub, Whole(cs[0]), i, Fail))
        || (d.Two? && Proves(nodes, accepts, toks, d.first, Whole(cs[0]), i, Match(d.mid))
            && Proves(nodes, accepts, toks, d.second, SeqOf(cs[1..]), d.mid, o))
    case AltsOf(cs) =>
      if cs == [] then d.Axiom? && o == Fail
      else
        || (d.One? && o.Match? && Proves(nodes, accepts, toks, d.sub, Whole(cs[0]), i, o))
        || (d.Two? && d.mid == i && Proves(nodes, accepts, toks, d.first, Whole(cs[0]), i, Fail)
            && Proves(nodes, accepts, toks, d.second, AltsOf(cs[1..]), i, o))
    case StarOf(c) =>
      || (d.One? && o == Match(i) && Proves(nodes, accepts, toks, d.sub, Whole(c), i, Fail))
      || (d.Two? && Proves(nodes, accepts, toks, d.first, Whole(c), i, Match(d.mid))
          && Proves(nodes, accepts, toks, d.second, StarOf(c), d.mid, o))
  }

  ghost predicate Derives(nodes: seq<Node>, accepts: (Kind, string) -> bool, toks: seq<Token>, goal: Goal, i: nat,
                          o: Outcome)
  {
    exists d :: Proves(nodes, accepts, toks, d, goal, i, o)
  }

  /** The relation is deterministic: a goal has at most one outcome at a position. */
  lemma {:induction false} ProvesUnique(nodes: seq<Node>, accepts: (Kind, string) -> bool, toks: seq<Token>,
                                        d: Deriv, d': Deriv, goal: Goal, i: nat, o: Outcome, o': Outcome)
    requires Proves(nodes, accepts, toks, d, goal, i, o) && Proves(nodes, accepts, toks, d', goal, i, o')
    ensures d == d' && o == o'
    decreases d
  {
    var first := if d.One? then d.sub else if d.Two? then d.first else d;
    var first' := if d'.One? then d'.sub else if d'.Two? then d'.first else d';
    if d != Axiom && d' != Axiom {
      forall p: Goal, q: Outcome, q': Outcome |
        Proves(nodes, accepts, toks, first, p, i, q) && Proves(nodes, accepts, toks, first', p, i, q')
        ensures first == first' && q == q'
      {
        ProvesUnique(nodes, accepts, toks, first, first', p, i, q, q');
      }
      if d.Two? && d'.Two? && d.mid == d'.mid {
        forall p: Goal, q: Outcome, q': Outcome |
          Proves(nodes, accepts, toks, d.second, p, d.mid, q) && Proves(nodes, accepts, toks, d'.second, p, d.mid, q')
          ensures d.second == d'.second && q == q'
        {
          ProvesUnique(nodes, accepts, toks, d.second, d'.second, p, d.mid, q, q');
        }
      }
    }
  }

  // ----- grammars on which matching terminates -----

  /** A certificate for some matchers of a graph, the keys of `rank`: `rank` falls along calls at the same position,
      and `nullable` has every matcher that can succeed without consuming. */
  datatype Cert = Cert(rank: map<nat, nat>, nullable: set<nat>, top: nat)

  predicate AllNullable(c: Cert, cs: seq<nat>) {
    forall x :: x in cs ==> x in c.nullable
  }

  predicate AllLive(c: Cert, cs: seq<nat>) {
    forall x :: x in cs ==> x in c.rank
  }

  /** Children that can be reached without consuming a token have rank below `bound`. */
  predicate FirstsBelow(c: Cert, cs: seq<nat>, bound: nat)
    requires AllLive(c, cs)
  {
    forall k :: 0 <= k < |cs| && AllNullable(c, cs[..k]) ==> c.rank[cs[k]] < bound
  }

  /** One matcher respects the certificate: no left recursion, and a repeated element always consumes. */
  predicate NodeProgress(nodes: seq<Node>, c: Cert, id: nat)
    requires id in c.rank
  {
    && id < |nodes| && c.rank[id] < c.top
    && match nodes[id]
       case ListMatcher(cs) => AllLive(c, cs) && FirstsBelow(c, cs, c.rank[id])
           && (AllNullable(c, cs) ==> id in c.nullable)
       case ChoiceMatcher(cs) =>
         AllLive(c, cs) && forall x :: x in cs ==> c.rank[x] < c.rank[id] && (x in c.nullable ==> id in c.nullable)
       case OptionalMatcher(x) => x in c.rank && c.rank[x] < c.rank[id] && id in c.nullable
       case RepeatMatcher(x) => x in c.rank && c.rank[x] < c.rank[id] && x !in c.nullable
       case _ => true
  }

  /** No certified matcher is left-recursive, and no repeated element can succeed without consuming. */
  predicate Progress(nodes: seq<Node>, c: Cert) {
    forall id :: id in c.rank ==> NodeProgress(nodes, c, id)
  }

  predicate GoalIn(c: Cert, g: Goal) {
    match g
    case Whole(id) => id in c.rank
    case SeqOf(cs) => AllLive(c, cs)
    case AltsOf(cs) => AllLive(c, cs)
    case StarOf(x) => x in c.rank
  }

  predicate GoalNullable(c: Cert, g: Goal) {
    match g
    case Whole(id) => id in c.nullable
    case SeqOf(cs) => AllNullable(c, cs)
    case AltsOf(cs) => exists x :: x in cs && x in c.nullable
    case StarOf(_) => true
  }

  /** A match moves forward inside the tokens, and stays put only for a nullable goal. */
  lemma {:induction false} ProvesBounds(nodes: seq<Node>, accepts: (Kind, string) -> bool, toks: seq<Token>,
                                        c: Cert, d: Deriv, goal: Goal, i: nat, j: nat)
    requires Progress(nodes, c) && GoalIn(c, goal) && i <= |toks|
    requires Proves(nodes, accepts, toks, d, goal, i, Match(j))
    ensures i <= j <= |toks| && (j == i ==> GoalNullable(c, goal))
    decreases d
  {
    match goal
    case Whole(id) =>
      assert NodeProgress(nodes, c, id);
      match nodes[id] {
        case ListMatcher(cs) => ProvesBounds(nodes, accepts, toks, c, d.sub, SeqOf(cs), i, j);
        case ChoiceMatcher(cs) => ProvesBounds(nodes, accepts, toks, c, d.sub, AltsOf(cs), i, j);
        case OptionalMatcher(x) =>
          if Proves(nodes, accepts, toks, d.sub, Whole(x), i, Match(j)) {
            ProvesBounds(nodes, accepts, toks, c, d.sub, Whole(x), i, j);
          }
        case RepeatMatcher(x) =>
          ProvesBounds(nodes, accepts, toks, c, d.first, Whole(x), i, d.mid);
          ProvesBounds(nodes, accepts, toks, c, d.second, StarOf(x), d.mid, j);
        case _ =>
      }
    case SeqOf(cs) =>
      if cs != [] {
        assert forall x :: x in cs[1..] ==> x in cs;
        ProvesBounds(nodes, accepts, toks, c, d.first, Whole(cs[0]), i, d.mid);
        ProvesBounds(nodes, accepts, toks, c, d.second, SeqOf(cs[1..]), d.mid, j);
        assert forall x :: x in cs ==> x == cs[0] || x in cs[1..];
      }
    case AltsOf(cs) =>
      if d.One? {
        ProvesBounds(nodes, accepts, toks, c, d.sub, Whole(cs[0]), i, j);
      } else {
        assert forall x :: x in cs[1..] ==> x in cs;
        ProvesBounds(nodes, accepts, toks, c, d.second, AltsOf(cs[1..]), i, j);
      }
    case StarOf(x) =>
      if d.Two? {
        ProvesBounds(nodes, accepts, toks, c, d.first, Whole(x), i, d.mid);
        ProvesBounds(nodes, accepts, toks, c, d.second, StarOf(x), d.mid, j);
      }
  }

  // ----- every goal has an outcome -----

  /** The certificate covers the part of a goal that is tried at the current position. */
  predicate GoalBelow(c: Cert, g: Goal, bound: nat) {
    match g
    case Whole(id) => id in c.rank && c.rank[id] < bound
    case SeqOf(cs) => AllLive(c, cs) && FirstsBelow(c, cs, bound)
    case AltsOf(cs) => forall x :: x in cs ==> x in c.rank && c.rank[x] < bound
    case StarOf(x) => x in c.rank && c.rank[x] < bound && x !in c.nullable
  }

  function Width(g: Goal): nat {
    match g
    case Whole(_) => 0
    case SeqOf(cs) => 1 + |cs|
    case AltsOf(cs) => 1 + |cs|
    case StarOf(_) => 1
  }

  lemma TailNullable(c: Cert, cs: seq<nat>, k: nat)
    requires cs != [] && k < |cs| - 1 && AllNullable(c, cs[1..][..k]) && cs[0] in c.nullable
    ensures AllNullable(c, cs[..k + 1])
  {
    forall x | x in cs[..k + 1] ensures x in c.nullable {
      if x != cs[0] {
        var j :| 0 <= j < k + 1 && cs[..k + 1][j] == x;
        assert cs[1..][..k][j - 1] == x;
        assert x in cs[1..][..k];
      }
    }
  }

  /** After the first element, the rest is below the same bound at the same position, and below any rank later. */
  lemma RestBelow(nodes: seq<Node>, c: Cert, cs: seq<nat>, bound: nat)
    requires Progress(nodes, c) && cs != [] && GoalBelow(c, SeqOf(cs), bound)
    ensures cs[0] in c.rank && c.rank[cs[0]] < bound
    ensures cs[0] in c.nullable ==> GoalBelow(c, SeqOf(cs[1..]), bound)
    ensures GoalBelow(c, SeqOf(cs[1..]), c.top)
  {
    hide AllNullable;
    assert AllNullable(c, cs[..0]) by { EmptyNullable(c, cs); }
    assert forall x :: x in cs[1..] ==> x in cs;
    forall k | 0 <= k < |cs| - 1 ensures c.rank[cs[1..][k]] < c.top {
      assert cs[1..][k] == cs[k + 1] && cs[k + 1] in cs;
      assert NodeProgress(nodes, c, cs[k + 1]);
    }
    if cs[0] in c.nullable {
      forall k | 0 <= k < |cs[1..]| && AllNullable(c, cs[1..][..k]) ensures c.rank[cs[1..][k]] < bound {
        TailNullable(c, cs, k);
        assert cs[1..][k] == cs[k + 1];
      }
    }
  }

  lemma EmptyNullable(c: Cert, cs: seq<nat>)
    ensures AllNullable(c, cs[..0])
  {
  }

  lemma {:induction false} Total(nodes: seq<Node>, accepts: (Kind, string) -> bool, toks: seq<Token>, c: Cert,
                                 goal: Goal, i: nat, bound: nat)
    returns (d: Deriv, o: Outcome)
    requires Progress(nodes, c) && GoalBelow(c, goal, bound) && i <= |toks|
    ensures Proves(nodes, accepts, toks, d, goal, i, o)
    ensures o.Match? ==> i <= o.end <= |toks| && (o.end == i ==> GoalNullable(c, goal))
    decreases |toks| - i, bound, 0, Width(goal)
  {
    match goal {
      case Whole(id) => d, o := TotalWhole(nodes, accepts, toks, c, id, i);
      case SeqOf(cs) =>
        if cs == [] {
          d, o := Axiom, Match(i);
        } else {
          RestBelow(nodes, c, cs, bound);
          var first, q := TotalWhole(nodes, accepts, toks, c, cs[0], i);
          if q == Fail {
            d, o := One(first), Fail;
          } else {
            var rest;
            rest, o := Total(nodes, accepts, toks, c, SeqOf(cs[1..]), q.end, if q.end == i then bound else c.top);
            d := Two(first, q.end, rest);
          }
        }
      case AltsOf(cs) =>
        if cs == [] {
          d, o := Axiom, Fail;
        } else {
          var first, q := TotalWhole(nodes, accepts, toks, c, cs[0], i);
          if q.Match? {
            d, o := One(first), q;
          } else {
            var rest;
            assert forall x :: x in cs[1..] ==> x in cs;
            rest, o := Total(nodes, accepts, toks, c, AltsOf(cs[1..]), i, bound);
            d := Two(first, i, rest);
          }
        }
      case StarOf(x) =>
        var first, q := TotalWhole(nodes, accepts, toks, c, x, i);
        if q == Fail {
          d, o := One(first), Match(i);
        } else {
          var rest;
          rest, o := Total(nodes, accepts, toks, c, goal, q.end, bound);
          d := Two(first, q.end, rest);
        }
    }
    if o.Match? { ProvesBounds(nodes, accepts, toks, c, d, goal, i, o.end); }
  }

  /** On a grammar with progress, every matcher has an outcome at every position. */
  lemma {:induction false} TotalWhole(nodes: seq<Node>, accepts: (Kind, string) -> bool, toks: seq<Token>, c: Cert,
                                      id: nat, i: nat)
    returns (d: Deriv, o: Outcome)
    requires Progress(nodes, c) && id in c.rank && i <= |toks|
    ensures Proves(nodes, accepts, toks, d, Whole(id), i, o)
    ensures o.Match? ==> i <= o.end <= |toks| && (o.end == i ==> id in c.nullable)
    decreases |toks| - i, c.rank[id], 1, 0
  {
    assert NodeProgress(nodes, c, id);
    match nodes[id] {
      case ListMatcher(cs) =>
        d, o := Total(nodes, accepts, toks, c, SeqOf(cs), i, c.rank[id]);
        d := One(d);
      case ChoiceMatcher(cs) =>
        d, o := Total(nodes, accepts, toks, c, AltsOf(cs), i, c.rank[id]);
        d := One(d);
      case OptionalMatcher(x) =>
        d, o := TotalWhole(nodes, accepts, toks, c, x, i);
        d, o := One(d), if o == Fail then Match(i) else o;
      case RepeatMatcher(x) =>
        d, o := TotalWhole(nodes, accepts, toks, c, x, i);
        if o == Fail {
          d := One(d);
        } else {
          var rest, mid := d, o.end;
          rest, o := Total(nodes, accepts, toks, c, StarOf(x), mid, c.rank[id]);
          d := Two(d, mid, rest);
        }
      case _ =>
        d := Axiom;
        o := if i < |toks| && Takes(nodes[id], accepts, toks[i].text) then Match(i + 1) else Fail;
    }
  }

  // ----- MatchParseResult -----

  datatype ParseResult =
    | TokenResult(token: Token)
    | ListResult(children: seq<ParseResult>)
    | OptionalResult(child: Option<ParseResult>)
    | ChoiceResult(selected: ParseResult, index: nat)
    | RepeatResult(children: seq<ParseResult>)

  /** The tokens at the leaves of a parse result, in order. */
  function Leaves(r: ParseResult): seq<Token>
    decreases r, 1
  {
    match r
    case TokenResult(t) => [t]
    case ListResult(cs) => AllLeaves(cs)
    case OptionalResult(c) => if c.None? then [] else Leaves(c.value)
    case ChoiceResult(c, _) => Leaves(c)
    case RepeatResult(cs) => AllLeaves(cs)
  }

  function AllLeaves(rs: seq<ParseResult>): seq<Token>
    decreases rs, 0
  {
    if rs == [] then [] else AllLeaves(Init(rs)) + Leaves(Last(rs))
  }

  lemma NoLeaves()
    ensures AllLeaves([]) == []
  {
  }

  lemma LeavesSnoc(rs: seq<ParseResult>, r: ParseResult)
    ensures AllLeaves(rs + [r]) == AllLeaves(rs) + Leaves(r)
  {
    assert Init(rs + [r]) == rs;
  }

  lemma SlicesJoin(toks: seq<Token>, i: nat, j: nat, k: nat)
    requires i <= j <= k <= |toks|
    ensures toks[i..j] + toks[j..k] == toks[i..k]
  {
  }

  /** The leaves so far and those of one more result are the tokens in between. */
  lemma LeavesGrow(rs: seq<ParseResult>, r: ParseResult, toks: seq<Token>, i: nat, j: nat, k: nat)
    requires i <= j <= k <= |toks| && AllLeaves(rs) == toks[i..j] && Leaves(r) == toks[j..k]
    ensures AllLeaves(rs + [r]) == toks[i..k]
  {
    hide Leaves, AllLeaves;
    LeavesSnoc(rs, r);
    SlicesJoin(toks, i, j, k);
  }

  lemma LeavesOfRow(rs: seq<ParseResult>, k: nat)
    requires k < |rs|
    ensures AllLeaves(rs[..k + 1]) == AllLeaves(rs[..k]) + Leaves(rs[k])
  {
    assert rs[..k + 1] == rs[..k] + [rs[k]];
    LeavesSnoc(rs[..k], rs[k]);
  }

  // ----- the one result of a match -----

  /** The result that matcher id gives at token i, which covers as many tokens as it has leaves.  A terminal gives its
      token, a list one child per matcher, a choice its first alternative that matches, with its index, and a repeat
      one child per repetition, until the element fails. */
  ghost predicate Mirrors(nodes: seq<Node>, accepts: (Kind, string) -> bool, toks: seq<Token>, id: nat, i: nat,
                          r: ParseResult)
    decreases r, 1
  {
    && id < |nodes|
    && match nodes[id]
       case ListMatcher(cs) =>
         r.ListResult? && |r.children| == |cs| && MirrorsRow(nodes, accepts, toks, cs, i, r.children)
       case ChoiceMatcher(cs) =>
         && r.ChoiceResult? && r.index < |cs|
         && Mirrors(nodes, accepts, toks, cs[r.index], i, r.selected)
         && forall k :: 0 <= k < r.index ==> Derives(nodes, accepts, toks, Whole(cs[k]), i, Fail)
       case OptionalMatcher(c) =>
         r.OptionalResult?
         && (match r.child
             case None => Derives(nodes, accepts, toks, Whole(c), i, Fail)
             case Some(x) => Mirrors(nodes, accepts, toks, c, i, x))
       case RepeatMatcher(c) =>
         && r.RepeatResult? && r.children != []
         && MirrorsRow(nodes, accepts, toks, Copies(c, |r.children|), i, r.children)
         && Derives(nodes, accepts, toks, Whole(c), i + |AllLeaves(r.children)|, Fail)
       case _ => i < |toks| && Takes(nodes[id], accepts, toks[i].text) && r == TokenResult(toks[i])
  }

  /** The results of matchers one after the other, each at the token after those before it. */
  ghost predicate MirrorsRow(nodes: seq<Node>, accepts: (Kind, string) -> bool, toks: seq<Token>, ids: seq<nat>,
                             i: nat, rs: seq<ParseResult>)
    decreases rs, 0
  {
    && |rs| <= |ids|
    && forall k :: 0 <= k < |rs| ==> Mirrors(nodes, accepts, toks, ids[k], i + |AllLeaves(rs[..k])|, rs[k])
  }

  function Copies(c: nat, n: nat): seq<nat> {
    seq(n, _ => c)
  }

  lemma RowStarts(nodes: seq<Node>, accepts: (Kind, string) -> bool, toks: seq<Token>, ids: seq<nat>, i: nat)
    ensures MirrorsRow(nodes, accepts, toks, ids, i, [])
  {
  }

  lemma RowGrows(nodes: seq<Node>, accepts: (Kind, string) -> bool, toks: seq<Token>, ids: seq<nat>, i: nat,
                 rs: seq<ParseResult>, r: ParseResult)
    requires |rs| < |ids| && MirrorsRow(nodes, accepts, toks, ids, i, rs)
             && Mirrors(nodes, accepts, toks, ids[|rs|], i + |AllLeaves(rs)|, r)
    ensures MirrorsRow(nodes, accepts, toks, ids, i, rs + [r])
  {
    hide Mirrors, Leaves, AllLeaves;
    var more := rs + [r];
    forall k | 0 <= k < |more|
      ensures Mirrors(nodes, accepts, toks, ids[k], i + |AllLeaves(more[..k])|, more[k])
    {
      assert more[..k] == rs[..k];
      if k == |rs| { assert rs[..k] == rs; }
    }
  }

  /** One more repetition. */
  lemma CopiesGrow(nodes: seq<Node>, accepts: (Kind, string) -> bool, toks: seq<Token>, c: nat, i: nat,
                   rs: seq<ParseResult>, r: ParseResult)
    requires MirrorsRow(nodes, accepts, toks, Copies(c, |rs|), i, rs)
             && Mirrors(nodes, accepts, toks, c, i + |AllLeaves(rs)|, r)
    ensures MirrorsRow(nodes, accepts, toks, Copies(c, |rs + [r]|), i, rs + [r])
  {
    hide Mirrors, Leaves, AllLeaves;
    var ids := Copies(c, |rs + [r]|);
    forall k | 0 <= k < |rs| ensures Mirrors(nodes, accepts, toks, ids[k], i + |AllLeaves(rs[..k])|, rs[k]) {
      assert Copies(c, |rs|)[k] == c;
    }
    RowGrows(nodes, accepts, toks, ids, i, rs, r);
  }

  lemma RepeatMirrors(nodes: seq<Node>, accepts: (Kind, string) -> bool, toks: seq<Token>, id: nat, i: nat, j: nat,
                      rs: seq<ParseResult>)
    requires id < |nodes| && nodes[id].RepeatMatcher? && rs != [] && i <= j <= |toks| && AllLeaves(rs) == toks[i..j]
    requires MirrorsRow(nodes, accepts, toks, Copies(nodes[id].child, |rs|), i, rs)
    requires Derives(nodes, accepts, toks, Whole(nodes[id].child), j, Fail)
    ensures Mirrors(nodes, accepts, toks, id, i, RepeatResult(rs)) && Leaves(RepeatResult(rs)) == toks[i..j]
  {
    hide MirrorsRow, AllLeaves;
  }

  class MatchState {
    const tokens: seq<Token>
    var token_index: nat

    constructor (tokens: seq<Token>, token_index: nat)
      ensures this.tokens == tokens && this.token_index == token_index
    {
      this.tokens, this.token_index := tokens, token_index;
    }
  }

  /** The outcome a method reports through its result and the token index. */
  function Reported(r: Option<ParseResult>, index: nat): Outcome {
    if r.None? then Fail else Match(index)
  }

  /** The outcome of a matcher and its one result, and the parts that its callers use. */
  ghost predicate Answers(nodes: seq<Node>, accepts: (Kind, string) -> bool, toks: seq<Token>, c: Cert,
                          id: nat, i: nat, r: Option<ParseResult>, j: nat)
  {
    && Derives(nodes, accepts, toks, Whole(id), i, Reported(r, j))
    && i <= j <= |toks|
    && (r.None? ==> j == i)
    && (r.Some? ==>
          && Mirrors(nodes, accepts, toks, id, i, r.value)
          && Leaves(r.value) == toks[i..j] && (j == i ==> id in c.nullable))
  }

  /** A goal that derives an outcome derives no other. */
  lemma DerivesUnique(nodes: seq<Node>, accepts: (Kind, string) -> bool, toks: seq<Token>, goal: Goal, i: nat,
                      o: Outcome)
    requires Derives(nodes, accepts, toks, goal, i, o)
    ensures forall q :: Derives(nodes, accepts, toks, goal, i, q) <==> q == o
  {
    var d :| Proves(nodes, accepts, toks, d, goal, i, o);
    forall q | Derives(nodes, accepts, toks, goal, i, q) ensures q == o {
      var d' :| Proves(nodes, accepts, toks, d', goal, i, q);
      ProvesUnique(nodes, accepts, toks, d, d', goal, i, o, q);
    }
  }

  // ----- one rule of the relation at a time -----

  lemma WholeFromList(nodes: seq<Node>, accepts: (Kind, string) -> bool, toks: seq<Token>, id: nat, i: nat, o: Outcome)
    requires id < |nodes| && nodes[id].ListMatcher? && Derives(nodes, accepts, toks, SeqOf(nodes[id].children), i, o)
    ensures Derives(nodes, accepts, toks, Whole(id), i, o)
  {
    var d :| Proves(nodes, accepts, toks, d, SeqOf(nodes[id].children), i, o);
    assert Proves(nodes, accepts, toks, One(d), Whole(id), i, o);
  }

  lemma WholeFromChoice(nodes: seq<Node>, accepts: (Kind, string) -> bool, toks: seq<Token>, id: nat, i: nat,
                        o: Outcome)
    requires id < |nodes| && nodes[id].ChoiceMatcher? && Derives(nodes, accepts, toks, AltsOf(nodes[id].children), i, o)
    ensures Derives(nodes, accepts, toks, Whole(id), i, o)
  {
    var d :| Proves(nodes, accepts, toks, d, AltsOf(nodes[id].children), i, o);
    assert Proves(nodes, accepts, toks, One(d), Whole(id), i, o);
  }

  lemma WholeFromOptional(nodes: seq<Node>, accepts: (Kind, string) -> bool, toks: seq<Token>, id: nat, i: nat,
                          o: Outcome)
    requires id < |nodes| && nodes[id].OptionalMatcher? && Derives(nodes, accepts, toks, Whole(nodes[id].child), i, o)
    ensures Derives(nodes, accepts, toks, Whole(id), i, if o == Fail then Match(i) else o)
  {
    var d :| Proves(nodes, accepts, toks, d, Whole(nodes[id].child), i, o);
    assert Proves(nodes, accepts, toks, One(d), Whole(id), i, if o == Fail then Match(i) else o);
  }

  lemma RepeatFails(nodes: seq<Node>, accepts: (Kind, string) -> bool, toks: seq<Token>, id: nat, i: nat)
    requires id < |nodes| && nodes[id].RepeatMatcher? && Derives(nodes, accepts, toks, Whole(nodes[id].child), i, Fail)
    ensures Derives(nodes, accepts, toks, Whole(id), i, Fail)
  {
    var d :| Proves(nodes, accepts, toks, d, Whole(nodes[id].child), i, Fail);
    assert Proves(nodes, accepts, toks, One(d), Whole(id), i, Fail);
  }

  lemma RepeatGoes(nodes: seq<Node>, accepts: (Kind, string) -> bool, toks: seq<Token>, id: nat, i: nat, k: nat)
    requires id < |nodes| && nodes[id].RepeatMatcher?
             && Derives(nodes, accepts, toks, Whole(nodes[id].child), i, Match(k))
    ensures forall o ::
              Derives(nodes, accepts, toks, StarOf(nodes[id].child), k, o)
              ==> Derives(nodes, accepts, toks, Whole(id), i, o)
  {
    var d :| Proves(nodes, accepts, toks, d, Whole(nodes[id].child), i, Match(k));
    forall o | Derives(nodes, accepts, toks, StarOf(nodes[id].child), k, o)
        ensures Derives(nodes, accepts, toks, Whole(id), i, o)
    {
      var e :| Proves(nodes, accepts, toks, e, StarOf(nodes[id].child), k, o);
      assert Proves(nodes, accepts, toks, Two(d, k, e), Whole(id), i, o);
    }
  }

  lemma StarStops(nodes: seq<Node>, accepts: (Kind, string) -> bool, toks: seq<Token>, c: nat, i: nat)
    requires Derives(nodes, accepts, toks, Whole(c), i, Fail)
    ensures Derives(nodes, accepts, toks, StarOf(c), i, Match(i))
  {
    var d :| Proves(nodes, accepts, toks, d, Whole(c), i, Fail);
    assert Proves(nodes, accepts, toks, One(d), StarOf(c), i, Match(i));
  }

  lemma StarGoes(nodes: seq<Node>, accepts: (Kind, string) -> bool, toks: seq<Token>, c: nat, i: nat, k: nat)
    requires Derives(nodes, accepts, toks, Whole(c), i, Match(k))
    ensures forall o ::
              Derives(nodes, accepts, toks, StarOf(c), k, o) ==> Derives(nodes, accepts, toks, StarOf(c), i, o)
  {
    var d :| Proves(nodes, accepts, toks, d, Whole(c), i, Match(k));
    forall o | Derives(nodes, accepts, toks, StarOf(c), k, o) ensures Derives(nodes, accepts, toks, StarOf(c), i, o) {
      var e :| Proves(nodes, accepts, toks, e, StarOf(c), k, o);
      assert Proves(nodes, accepts, toks, Two(d, k, e), StarOf(c), i, o);
    }
  }

  lemma SeqFails(nodes: seq<Node>, accepts: (Kind, string) -> bool, toks: seq<Token>, cs: seq<nat>, i: nat)
    requires cs != [] && Derives(nodes, accepts, toks, Whole(cs[0]), i, Fail)
    ensures Derives(nodes, accepts, toks, SeqOf(cs), i, Fail)
  {
    var d :| Proves(nodes, accepts, toks, d, Whole(cs[0]), i, Fail);
    assert Proves(nodes, accepts, toks, One(d), SeqOf(cs), i, Fail);
  }

  lemma SeqGoes(nodes: seq<Node>, accepts: (Kind, string) -> bool, toks: seq<Token>, cs: seq<nat>, i: nat, k: nat)
    requires cs != [] && Derives(nodes, accepts, toks, Whole(cs[0]), i, Match(k))
    ensures forall o ::
              Derives(nodes, accepts, toks, SeqOf(cs[1..]), k, o) ==> Derives(nodes, accepts, toks, SeqOf(cs), i, o)
  {
    var d :| Proves(nodes, accepts, toks, d, Whole(cs[0]), i, Match(k));
    forall o | Derives(nodes, accepts, toks, SeqOf(cs[1..]), k, o)
        ensures Derives(nodes, accepts, toks, SeqOf(cs), i, o)
    {
      var e :| Proves(nodes, accepts, toks, e, SeqOf(cs[1..]), k, o);
      assert Proves(nodes, accepts, toks, Two(d, k, e), SeqOf(cs), i, o);
    }
  }

  lemma AltsStops(nodes: seq<Node>, accepts: (Kind, string) -> bool, toks: seq<Token>, cs: seq<nat>, i: nat, k: nat)
    requires cs != [] && Derives(nodes, accepts, toks, Whole(cs[0]), i, Match(k))
    ensures Derives(nodes, accepts, toks, AltsOf(cs), i, Match(k))
  {
    var d :| Proves(nodes, accepts, toks, d, Whole(cs[0]), i, Match(k));
    assert Proves(nodes, accepts, toks, One(d), AltsOf(cs), i, Match(k));
  }

  lemma AltsGoes(nodes: seq<Node>, accepts: (Kind, string) -> bool, toks: seq<Token>, cs: seq<nat>, i: nat)
    requires cs != [] && Derives(nodes, accepts, toks, Whole(cs[0]), i, Fail)
    ensures forall o ::
              Derives(nodes, accepts, toks, AltsOf(cs[1..]), i, o) ==> Derives(nodes, accepts, toks, AltsOf(cs), i, o)
  {
    var d :| Proves(nodes, accepts, toks, d, Whole(cs[0]), i, Fail);
    forall o | Derives(nodes, accepts, toks, AltsOf(cs[1..]), i, o)
        ensures Derives(nodes, accepts, toks, AltsOf(cs), i, o)
    {
      var e :| Proves(nodes, accepts, toks, e, AltsOf(cs[1..]), i, o);
      assert Proves(nodes, accepts, toks, Two(d, i, e), AltsOf(cs), i, o);
    }
  }

  lemma NothingLeft(nodes: seq<Node>, accepts: (Kind, string) -> bool, toks: seq<Token>, i: nat)
    ensures Derives(nodes, accepts, toks, SeqOf([]), i, Match(i))
    ensures Derives(nodes, accepts, toks, AltsOf([]), i, Fail)
  {
    assert Proves(nodes, accepts, toks, Axiom, SeqOf([]), i, Match(i));
    assert Proves(nodes, accepts, toks, Axiom, AltsOf([]), i, Fail);
  }

  /** From the children before k to those before k + 1. */
  lemma OneFurther(c: Cert, cs: seq<nat>, k: nat)
    requires k < |cs|
    ensures cs[k] in cs && cs[k..][0] == cs[k] && cs[k..][1..] == cs[k + 1..]
    ensures AllNullable(c, cs[..k]) && cs[k] in c.nullable ==> AllNullable(c, cs[..k + 1])
  {
    assert cs[..k + 1] == cs[..k] + [cs[k]];
  }

  /** With no tokens left, an element that always consumes fails: the early exit of a repeat is the greedy rule. */
  lemma EndFails(nodes: seq<Node>, accepts: (Kind, string) -> bool, toks: seq<Token>, c: Cert, x: nat)
    requires Progress(nodes, c) && x in c.rank && x !in c.nullable
    ensures Derives(nodes, accepts, toks, Whole(x), |toks|, Fail)
  {
    var d, o := TotalWhole(nodes, accepts, toks, c, x, |toks|);
  }

  // ----- exceptions -----

  /** The way to an exception: here, in the first part of a goal, or in a later part, which is tried at `mid`. */
  datatype Trace = Here | Now(sub: Trace) | Later(mid: nat, sub: Trace)

  /** A terminal matcher that is reached throws an exception: the parts of a goal before it match, or are alternatives
      that fail. */
  ghost predicate Throws(nodes: seq<Node>, accepts: (Kind, string) -> bool, throws: (Kind, string) -> bool,
                         toks: seq<Token>, t: Trace, goal: Goal, i: nat)
    decreases t
  {
    match goal
    case Whole(id) =>
      id < |nodes|
      && (match nodes[id]
          case ListMatcher(cs) => t.Now? && Throws(nodes, accepts, throws, toks, t.sub, SeqOf(cs), i)
          case ChoiceMatcher(cs) => t.Now? && Throws(nodes, accepts, throws, toks, t.sub, AltsOf(cs), i)
          case OptionalMatcher(c) => t.Now? && Throws(nodes, accepts, throws, toks, t.sub, Whole(c), i)
          case RepeatMatcher(c) => t.Now? && Throws(nodes, accepts, throws, toks, t.sub, StarOf(c), i)
          case KeywordMatcher(_) => false
          case Terminal(kind) => t.Here? && i < |toks| && throws(kind, toks[i].text))
    case SeqOf(cs) =>
      cs != []
      && ((t.Now? && Throws(nodes, accepts, throws, toks, t.sub, Whole(cs[0]), i))
          || (t.Later? && Derives(nodes, accepts, toks, Whole(cs[0]), i, Match(t.mid))
              && Throws(nodes, accepts, throws, toks, t.sub, SeqOf(cs[1..]), t.mid)))
    case AltsOf(cs) =>
      cs != []
      && ((t.Now? && Throws(nodes, accepts, throws, toks, t.sub, Whole(cs[0]), i))
          || (t.Later? && t.mid == i && Derives(nodes, accepts, toks, Whole(cs[0]), i, Fail)
              && Throws(nodes, accepts, throws, toks, t.sub, AltsOf(cs[1..]), i)))
    case StarOf(c) =>
      || (t.Now? && Throws(nodes, accepts, throws, toks, t.sub, Whole(c), i))
      || (t.Later? && Derives(nodes, accepts, toks, Whole(c), i, Match(t.mid))
          && Throws(nodes, accepts, throws, toks, t.sub, StarOf(c), t.mid))
  }

  ghost predicate Raises(nodes: seq<Node>, accepts: (Kind, string) -> bool, throws: (Kind, string) -> bool,
                         toks: seq<Token>, goal: Goal, i: nat)
  {
    exists t :: Throws(nodes, accepts, throws, toks, t, goal, i)
  }

  /** A matcher raises what its parts raise. */
  lemma WholeRaises(nodes: seq<Node>, accepts: (Kind, string) -> bool, throws: (Kind, string) -> bool,
                    toks: seq<Token>, id: nat, i: nat)
    requires id < |nodes|
    ensures Raises(nodes, accepts, throws, toks, Whole(id), i) <==>
            match nodes[id]
            case ListMatcher(cs) => Raises(nodes, accepts, throws, toks, SeqOf(cs), i)
            case ChoiceMatcher(cs) => Raises(nodes, accepts, throws, toks, AltsOf(cs), i)
            case OptionalMatcher(c) => Raises(nodes, accepts, throws, toks, Whole(c), i)
            case RepeatMatcher(c) => Raises(nodes, accepts, throws, toks, StarOf(c), i)
            case KeywordMatcher(_) => false
            case Terminal(kind) => i < |toks| && throws(kind, toks[i].text)
  {
    var goal := match nodes[id] case ListMatcher(cs) => SeqOf(cs) case ChoiceMatcher(cs) => AltsOf(cs)
      case OptionalMatcher(c) => Whole(c) case RepeatMatcher(c) => StarOf(c) case _ => Whole(id);
    if goal != Whole(id) || nodes[id].OptionalMatcher? {
      forall t | Throws(nodes, accepts, throws, toks, t, goal, i)
        ensures Raises(nodes, accepts, throws, toks, Whole(id), i)
      {
        assert Throws(nodes, accepts, throws, toks, Now(t), Whole(id), i);
      }
    }
    if nodes[id].Terminal? && i < |toks| && throws(nodes[id].kind, toks[i].text) {
      assert Throws(nodes, accepts, throws, toks, Here, Whole(id), i);
    }
    if Raises(nodes, accepts, throws, toks, Whole(id), i) {
      var t :| Throws(nodes, accepts, throws, toks, t, Whole(id), i);
      if t.Now? { assert Throws(nodes, accepts, throws, toks, t.sub, goal, i); }
    }
  }

  /** The first part of a sequence, and the rest behind it. */
  lemma SeqRaises(nodes: seq<Node>, accepts: (Kind, string) -> bool, throws: (Kind, string) -> bool,
                  toks: seq<Token>, cs: seq<nat>, i: nat)
    requires cs != []
    ensures Raises(nodes, accepts, throws, toks, SeqOf(cs), i)
            <==> Raises(nodes, accepts, throws, toks, Whole(cs[0]), i)
                 || exists mid: nat :: Derives(nodes, accepts, toks, Whole(cs[0]), i, Match(mid))
                      && Raises(nodes, accepts, throws, toks, SeqOf(cs[1..]), mid)
  {
    hide Derives;
    if Raises(nodes, accepts, throws, toks, SeqOf(cs), i) {
      var t :| Throws(nodes, accepts, throws, toks, t, SeqOf(cs), i);
      if t.Now? { assert Throws(nodes, accepts, throws, toks, t.sub, Whole(cs[0]), i); }
      if t.Later? { assert Throws(nodes, accepts, throws, toks, t.sub, SeqOf(cs[1..]), t.mid); }
    }
    forall t | Throws(nodes, accepts, throws, toks, t, Whole(cs[0]), i)
      ensures Raises(nodes, accepts, throws, toks, SeqOf(cs), i)
    {
      assert Throws(nodes, accepts, throws, toks, Now(t), SeqOf(cs), i);
    }
    forall t, mid: nat | Derives(nodes, accepts, toks, Whole(cs[0]), i, Match(mid))
                         && Throws(nodes, accepts, throws, toks, t, SeqOf(cs[1..]), mid)
      ensures Raises(nodes, accepts, throws, toks, SeqOf(cs), i)
    {
      assert Throws(nodes, accepts, throws, toks, Later(mid, t), SeqOf(cs), i);
    }
  }

  lemma AltsRaises(nodes: seq<Node>, accepts: (Kind, string) -> bool, throws: (Kind, string) -> bool,
                   toks: seq<Token>, cs: seq<nat>, i: nat)
    requires cs != []
    ensures Raises(nodes, accepts, throws, toks, AltsOf(cs), i)
            <==> Raises(nodes, accepts, throws, toks, Whole(cs[0]), i)
                 || (Derives(nodes, accepts, toks, Whole(cs[0]), i, Fail)
                     && Raises(nodes, accepts, throws, toks, AltsOf(cs[1..]), i))
  {
    hide Derives;
    if Raises(nodes, accepts, throws, toks, AltsOf(cs), i) {
      var t :| Throws(nodes, accepts, throws, toks, t, AltsOf(cs), i);
      if t.Now? { assert Throws(nodes, accepts, throws, toks, t.sub, Whole(cs[0]), i); }
      if t.Later? { assert Throws(nodes, accepts, throws, toks, t.sub, AltsOf(cs[1..]), i); }
    }
    forall t | Throws(nodes, accepts, throws, toks, t, Whole(cs[0]), i)
      ensures Raises(nodes, accepts, throws, toks, AltsOf(cs), i)
    {
      assert Throws(nodes, accepts, throws, toks, Now(t), AltsOf(cs), i);
    }
    forall t | Derives(nodes, accepts, toks, Whole(cs[0]), i, Fail)
               && Throws(nodes, accepts, throws, toks, t, AltsOf(cs[1..]), i)
      ensures Raises(nodes, accepts, throws, toks, AltsOf(cs), i)
    {
      assert Throws(nodes, accepts, throws, toks, Later(i, t), AltsOf(cs), i);
    }
  }

  lemma StarRaises(nodes: seq<Node>, accepts: (Kind, string) -> bool, throws: (Kind, string) -> bool,
                   toks: seq<Token>, c: nat, i: nat)
    ensures Raises(nodes, accepts, throws, toks, StarOf(c), i)
            <==> Raises(nodes, accepts, throws, toks, Whole(c), i)
                 || exists mid: nat :: Derives(nodes, accepts, toks, Whole(c), i, Match(mid))
                      && Raises(nodes, accepts, throws, toks, StarOf(c), mid)
  {
    hide Derives;
    if Raises(nodes, accepts, throws, toks, StarOf(c), i) {
      var t :| Throws(nodes, accepts, throws, toks, t, StarOf(c), i);
      if t.Now? { assert Throws(nodes, accepts, throws, toks, t.sub, Whole(c), i); }
      if t.Later? { assert Throws(nodes, accepts, throws, toks, t.sub, StarOf(c), t.mid); }
    }
    forall t | Throws(nodes, accepts, throws, toks, t, Whole(c), i)
      ensures Raises(nodes, accepts, throws, toks, StarOf(c), i)
    {
      assert Throws(nodes, accepts, throws, toks, Now(t), StarOf(c), i);
    }
    forall t, mid: nat | Derives(nodes, accepts, toks, Whole(c), i, Match(mid))
                         && Throws(nodes, accepts, throws, toks, t, StarOf(c), mid)
      ensures Raises(nodes, accepts, throws, toks, StarOf(c), i)
    {
      assert Throws(nodes, accepts, throws, toks, Later(mid, t), StarOf(c), i);
    }
  }

  /** A part that does not raise and matches up to p leaves it to the rest; one that fails leaves nothing. */
  lemma RaisesOn(nodes: seq<Node>, accepts: (Kind, string) -> bool, throws: (Kind, string) -> bool, toks: seq<Token>,
                 cs: seq<nat>, i: nat, o: Outcome)
    requires cs != [] && !Raises(nodes, accepts, throws, toks, Whole(cs[0]), i)
             && Derives(nodes, accepts, toks, Whole(cs[0]), i, o)
    ensures Raises(nodes, accepts, throws, toks, SeqOf(cs), i)
            <==> o.Match? && Raises(nodes, accepts, throws, toks, SeqOf(cs[1..]), o.end)
    ensures Raises(nodes, accepts, throws, toks, AltsOf(cs), i)
            <==> o.Fail? && Raises(nodes, accepts, throws, toks, AltsOf(cs[1..]), i)
    ensures Raises(nodes, accepts, throws, toks, StarOf(cs[0]), i)
            <==> o.Match? && Raises(nodes, accepts, throws, toks, StarOf(cs[0]), o.end)
  {
    hide Derives, Raises;
    DerivesUnique(nodes, accepts, toks, Whole(cs[0]), i, o);
    SeqRaises(nodes, accepts, throws, toks, cs, i);
    AltsRaises(nodes, accepts, throws, toks, cs, i);
    StarRaises(nodes, accepts, throws, toks, cs[0], i);
  }

  lemma NothingRaised(nodes: seq<Node>, accepts: (Kind, string) -> bool, throws: (Kind, string) -> bool,
                      toks: seq<Token>, i: nat)
    ensures !Raises(nodes, accepts, throws, toks, SeqOf([]), i) && !Raises(nodes, accepts, throws, toks, AltsOf([]), i)
  {
  }

  /** Behind the last token nothing is raised. */
  lemma {:induction false} NoneAtEnd(nodes: seq<Node>, accepts: (Kind, string) -> bool,
                                     throws: (Kind, string) -> bool, toks: seq<Token>, c: Cert, t: Trace, goal: Goal)
    requires Progress(nodes, c) && GoalIn(c, goal)
    ensures !Throws(nodes, accepts, throws, toks, t, goal, |toks|)
    decreases t
  {
    hide Derives;
    if Throws(nodes, accepts, throws, toks, t, goal, |toks|) {
      if goal.Whole? { assert NodeProgress(nodes, c, goal.id); }
      if (goal.SeqOf? || goal.AltsOf?) && goal.ids != [] {
        assert forall x :: x in goal.ids[1..] ==> x in goal.ids;
      }
      if t.Later? && !goal.AltsOf? { StaysAtEnd(nodes, accepts, toks, c, FirstOf(goal), t.mid); }
      if t.Now? || t.Later? { NoneAtEnd(nodes, accepts, throws, toks, c, t.sub, PartOf(nodes, goal, t)); }
    }
  }

  function FirstOf(goal: Goal): nat {
    match goal case Whole(id) => id case SeqOf(cs) => if cs == [] then 0 else cs[0]
      case AltsOf(cs) => if cs == [] then 0 else cs[0] case StarOf(c) => c
  }

  /** The part of a goal that a trace goes into. */
  function PartOf(nodes: seq<Node>, goal: Goal, t: Trace): Goal {
    match goal
    case Whole(id) =>
      if id >= |nodes| then goal
      else (match nodes[id] case ListMatcher(cs) => SeqOf(cs) case ChoiceMatcher(cs) => AltsOf(cs)
            case OptionalMatcher(c) => Whole(c) case RepeatMatcher(c) => StarOf(c) case _ => goal)
    case SeqOf(cs) => if cs == [] then goal else if t.Now? then Whole(cs[0]) else SeqOf(cs[1..])
    case AltsOf(cs) => if cs == [] then goal else if t.Now? then Whole(cs[0]) else AltsOf(cs[1..])
    case StarOf(c) => if t.Now? then Whole(c) else goal
  }

  lemma StaysAtEnd(nodes: seq<Node>, accepts: (Kind, string) -> bool, toks: seq<Token>, c: Cert, id: nat, j: nat)
    requires Progress(nodes, c) && id in c.rank && Derives(nodes, accepts, toks, Whole(id), |toks|, Match(j))
    ensures j == |toks|
  {
    var d :| Proves(nodes, accepts, toks, d, Whole(id), |toks|, Match(j));
    ProvesBounds(nodes, accepts, toks, c, d, Whole(id), |toks|, j);
  }

  lemma EndSilent(nodes: seq<Node>, accepts: (Kind, string) -> bool, throws: (Kind, string) -> bool,
                  toks: seq<Token>, c: Cert, x: nat)
    requires Progress(nodes, c) && x in c.rank
    ensures !Raises(nodes, accepts, throws, toks, StarOf(x), |toks|)
  {
    forall t ensures !Throws(nodes, accepts, throws, toks, t, StarOf(x), |toks|) {
      NoneAtEnd(nodes, accepts, throws, toks, c, t, StarOf(x));
    }
  }

  /** What is raised comes from some token. */
  lemma {:induction false} RaisedByToken(nodes: seq<Node>, accepts: (Kind, string) -> bool,
                                         throws: (Kind, string) -> bool, toks: seq<Token>, t: Trace, goal: Goal, i: nat)
    requires Throws(nodes, accepts, throws, toks, t, goal, i)
    ensures CanThrow(throws, toks)
    decreases t
  {
    hide Derives;
    if t.Here? {
      assert throws(nodes[goal.id].kind, toks[i].text);
    } else {
      var at := if t.Later? then t.mid else i;
      RaisedByToken(nodes, accepts, throws, toks, t.sub, PartOf(nodes, goal, t), at);
    }
  }

  /** Some terminal matcher throws an exception at one of these tokens. */
  ghost predicate CanThrow(throws: (Kind, string) -> bool, toks: seq<Token>) {
    exists k, kind :: 0 <= k < |toks| && throws(kind, toks[k].text)
  }

  /** The matcher graph, what the terminal matchers take and at which tokens they throw an exception, and the
      certificate that matching terminates.  The out-parameter `thrown` stands for an exception on its way up. */
  class Engine {
    const nodes: seq<Node>
    const accepts: (Kind, string) -> bool
    const throws: (Kind, string) -> bool
    ghost const cert: Cert

    constructor (nodes: seq<Node>, accepts: (Kind, string) -> bool, throws: (Kind, string) -> bool, ghost cert: Cert)
      ensures this.nodes == nodes && this.accepts == accepts && this.throws == throws && this.cert == cert
    {
      this.nodes, this.accepts, this.throws, this.cert := nodes, accepts, throws, cert;
    }

    ghost predicate Valid() {
      Progress(nodes, cert)
    }

    /** Without an exception the matcher's outcome is reported, and there is an exception exactly when one is raised. */
    ghost predicate Answered(state: MatchState, id: nat, i: nat, r: Option<ParseResult>, thrown: bool)
      reads state
    {
      && (thrown <==> Raises(nodes, accepts, throws, state.tokens, Whole(id), i))
      && (!thrown ==> Answers(nodes, accepts, state.tokens, cert, id, i, r, state.token_index))
    }

    /** Succeeds exactly when the relation derives a match, and then moves to its end; on failure nothing moves. */
    method MatchParseResult(id: nat, state: MatchState) returns (r: Option<ParseResult>, thrown: bool)
      requires Valid() && id in cert.rank && id < |nodes| && state.token_index <= |state.tokens|
      modifies state
      ensures Answered(state, id, old(state.token_index), r, thrown)
      decreases |state.tokens| - state.token_index, cert.rank[id], 1
    {
      hide Progress, Proves;
      match nodes[id] {
        case ListMatcher(_) => r, thrown := MatchList(id, state);
        case OptionalMatcher(_) => r, thrown := MatchOptional(id, state);
        case ChoiceMatcher(_) => r, thrown := MatchChoice(id, state);
        case RepeatMatcher(_) => r, thrown := MatchRepeat(id, state);
        case _ => r, thrown := MatchTerminal(id, state);
      }
    }

    lemma ChildrenLive(id: nat)
      requires Valid() && id in cert.rank
      ensures NodeProgress(nodes, cert, id)
      ensures nodes[id].ListMatcher? || nodes[id].ChoiceMatcher? ==>
                forall x :: x in nodes[id].children ==> x in cert.rank && x < |nodes|
      ensures nodes[id].OptionalMatcher? || nodes[id].RepeatMatcher? ==> nodes[id].child < |nodes|
    {
      if nodes[id].ListMatcher? || nodes[id].ChoiceMatcher? {
        forall x | x in nodes[id].children ensures x in cert.rank && x < |nodes| {
          assert NodeProgress(nodes, cert, x);
        }
      }
      if nodes[id].OptionalMatcher? || nodes[id].RepeatMatcher? {
        assert NodeProgress(nodes, cert, nodes[id].child);
      }
    }

    /** Keywords and the other terminal matchers: one token, or nothing. */
    method MatchTerminal(id: nat, state: MatchState) returns (r: Option<ParseResult>, thrown: bool)
      requires Valid() && id in cert.rank && id < |nodes| && state.token_index <= |state.tokens|
      requires nodes[id].KeywordMatcher? || nodes[id].Terminal?
      modifies state
      ensures Answered(state, id, old(state.token_index), r, thrown)
      decreases |state.tokens| - state.token_index, cert.rank[id], 0
    {
      ghost var i := state.token_index;
      WholeRaises(nodes, accepts, throws, state.tokens, id, i);
      if state.token_index < |state.tokens| && nodes[id].Terminal?
         && throws(nodes[id].kind, state.tokens[state.token_index].text)
      {
        return None, true;
      }
      thrown := false;
      if state.token_index < |state.tokens| && Takes(nodes[id], accepts, state.tokens[state.token_index].text) {
        r := Some(TokenResult(state.tokens[state.token_index]));
        state.token_index := state.token_index + 1;
      } else {
        r := None;
      }
      assert Proves(nodes, accepts, state.tokens, Axiom, Whole(id), i, Reported(r, state.token_index));
    }

    method MatchOptional(id: nat, state: MatchState) returns (r: Option<ParseResult>, thrown: bool)
      requires Valid() && id in cert.rank && id < |nodes| && state.token_index <= |state.tokens|
               && nodes[id].OptionalMatcher?
      modifies state
      ensures Answered(state, id, old(state.token_index), r, thrown)
      decreases |state.tokens| - state.token_index, cert.rank[id], 0
    {
      hide Progress, Proves, Raises;
      ChildrenLive(id);
      WholeRaises(nodes, accepts, throws, state.tokens, id, state.token_index);
      var child_state := new MatchState(state.tokens, state.token_index);
      var child_match, failure := MatchParseResult(nodes[id].child, child_state);
      if failure { return None, true; }
      WholeFromOptional(nodes, accepts, state.tokens, id, state.token_index,
                        Reported(child_match, child_state.token_index));
      if child_match.None? {
        return Some(OptionalResult(None)), false;
      }
      state.token_index := child_state.token_index;
      return Some(OptionalResult(child_match)), false;
    }

    method MatchList(id: nat, state: MatchState) returns (r: Option<ParseResult>, thrown: bool)
      requires Valid() && id in cert.rank && id < |nodes| && state.token_index <= |state.tokens|
               && nodes[id].ListMatcher?
      modifies state
      ensures Answered(state, id, old(state.token_index), r, thrown)
      decreases |state.tokens| - state.token_index, cert.rank[id], 0
    {
      hide Progress, Proves, Derives, AllLeaves, AllNullable, Raises;
      ChildrenLive(id);
      var matchers := nodes[id].children;
      ghost var i, toks := state.token_index, state.tokens;
      WholeRaises(nodes, accepts, throws, toks, id, i);
      var list_state := new MatchState(state.tokens, state.token_index);
      var results := [];
      NoLeaves();
      RowStarts(nodes, accepts, toks, matchers, i);
      EmptyNullable(cert, matchers);
      var k := 0;
      assert matchers[0..] == matchers;
      while k < |matchers|
        invariant k <= |matchers| == |matchers[k..]| + k && state.token_index == i
                  && i <= list_state.token_index <= |toks|
        invariant list_state.tokens == state.tokens == toks && list_state != state
        invariant |results| == k && AllLeaves(results) == toks[i..list_state.token_index]
        invariant MirrorsRow(nodes, accepts, toks, matchers, i, results)
        invariant list_state.token_index == i ==> AllNullable(cert, matchers[..k])
        invariant forall o :: Derives(nodes, accepts, toks, SeqOf(matchers[k..]), list_state.token_index, o)
                          ==> Derives(nodes, accepts, toks, SeqOf(matchers), i, o)
        invariant Raises(nodes, accepts, throws, toks, SeqOf(matchers[k..]), list_state.token_index)
                  <==> Raises(nodes, accepts, throws, toks, SeqOf(matchers), i)
        decreases |matchers| - k
      {
        ghost var here := list_state.token_index;
        assert matchers[k] in matchers;
        SeqRaises(nodes, accepts, throws, toks, matchers[k..], here);
        var child_result, failure := MatchParseResult(matchers[k], list_state);
        if failure { return None, true; }
        OneFurther(cert, matchers, k);
        RaisesOn(nodes, accepts, throws, toks, matchers[k..], here, Reported(child_result, list_state.token_index));
        if child_result.None? {
          SeqFails(nodes, accepts, toks, matchers[k..], here);
          WholeFromList(nodes, accepts, toks, id, i, Fail);
          return None, false;
        }
        SeqGoes(nodes, accepts, toks, matchers[k..], here, list_state.token_index);
        LeavesGrow(results, child_result.value, toks, i, here, list_state.token_index);
        RowGrows(nodes, accepts, toks, matchers, i, results, child_result.value);
        results := results + [child_result.value];
        k := k + 1;
      }
      assert matchers[k..] == [] && matchers[..k] == matchers;
      NothingLeft(nodes, accepts, toks, list_state.token_index);
      NothingRaised(nodes, accepts, throws, toks, list_state.token_index);
      WholeFromList(nodes, accepts, toks, id, i, Match(list_state.token_index));
      state.token_index := list_state.token_index;
      return Some(ListResult(results)), false;
    }

    method MatchChoice(id: nat, state: MatchState) returns (r: Option<ParseResult>, thrown: bool)
      requires Valid() && id in cert.rank && id < |nodes| && state.token_index <= |state.tokens|
               && nodes[id].ChoiceMatcher?
      modifies state
      ensures Answered(state, id, old(state.token_index), r, thrown)
      decreases |state.tokens| - state.token_index, cert.rank[id], 0
    {
      hide Progress, Proves, Derives, Raises;
      ChildrenLive(id);
      var matchers := nodes[id].children;
      ghost var i, toks := state.token_index, state.tokens;
      WholeRaises(nodes, accepts, throws, toks, id, i);
      var k := 0;
      assert matchers[0..] == matchers;
      while k < |matchers|
        invariant k <= |matchers| && state.token_index == i && state.tokens == toks
        invariant forall o ::
                    Derives(nodes, accepts, toks, AltsOf(matchers[k..]), i, o)
                    ==> Derives(nodes, accepts, toks, AltsOf(matchers), i, o)
        invariant forall m :: 0 <= m < k ==> Derives(nodes, accepts, toks, Whole(matchers[m]), i, Fail)
        invariant Raises(nodes, accepts, throws, toks, AltsOf(matchers[k..]), i)
                  <==> Raises(nodes, accepts, throws, toks, AltsOf(matchers), i)
        decreases |matchers| - k
      {
        assert matchers[k] in matchers;
        AltsRaises(nodes, accepts, throws, toks, matchers[k..], i);
        var choice_state := new MatchState(state.tokens, state.token_index);
        var child_result, failure := MatchParseResult(matchers[k], choice_state);
        if failure { return None, true; }
        assert matchers[k..][0] == matchers[k] && matchers[k..][1..] == matchers[k + 1..];
        RaisesOn(nodes, accepts, throws, toks, matchers[k..], i, Reported(child_result, choice_state.token_index));
        if child_result.Some? {
          AltsStops(nodes, accepts, toks, matchers[k..], i, choice_state.token_index);
          WholeFromChoice(nodes, accepts, toks, id, i, Match(choice_state.token_index));
          state.token_index := choice_state.token_index;
          return Some(ChoiceResult(child_result.value, k)), false;
        }
        AltsGoes(nodes, accepts, toks, matchers[k..], i);
        k := k + 1;
      }
      assert matchers[k..] == [];
      NothingLeft(nodes, accepts, toks, i);
      NothingRaised(nodes, accepts, throws, toks, i);
      WholeFromChoice(nodes, accepts, toks, id, i, Fail);
      return None, false;
    }

    method MatchRepeat(id: nat, state: MatchState) returns (r: Option<ParseResult>, thrown: bool)
      requires Valid() && id in cert.rank && id < |nodes| && state.token_index <= |state.tokens|
               && nodes[id].RepeatMatcher?
      modifies state
      ensures Answered(state, id, old(state.token_index), r, thrown)
      decreases |state.tokens| - state.token_index, cert.rank[id], 0
    {
      hide Progress, Proves, Derives, Mirrors, MirrorsRow, AllLeaves, Leaves, Copies, Raises;
      ChildrenLive(id);
      var element := nodes[id].child;
      ghost var i, toks := state.token_index, state.tokens;
      WholeRaises(nodes, accepts, throws, toks, id, i);
      StarRaises(nodes, accepts, throws, toks, element, i);
      var repeat_state := new MatchState(state.tokens, state.token_index);
      var first_result, failure := MatchParseResult(element, repeat_state);
      if failure { return None, true; }
      RaisesOn(nodes, accepts, throws, toks, [element], i, Reported(first_result, repeat_state.token_index));
      if first_result.None? {
        RepeatFails(nodes, accepts, toks, id, i);
        return None, false;
      }
      RepeatGoes(nodes, accepts, toks, id, i, repeat_state.token_index);
      LeavesSnoc([], first_result.value);
      NoLeaves();
      RowStarts(nodes, accepts, toks, Copies(element, 0), i);
      CopiesGrow(nodes, accepts, toks, element, i, [], first_result.value);
      var results := [first_result.value];
      assert [] + results == results;
      while true
        invariant i < repeat_state.token_index <= |toks| && repeat_state.tokens == state.tokens == toks
                  && repeat_state != state
        invariant [] + results == results && AllLeaves(results) == toks[i..repeat_state.token_index]
        invariant results != [] && MirrorsRow(nodes, accepts, toks, Copies(element, |results|), i, results)
        invariant forall o :: Derives(nodes, accepts, toks, StarOf(element), repeat_state.token_index, o)
                          ==> Derives(nodes, accepts, toks, Whole(id), i, o)
        invariant Raises(nodes, accepts, throws, toks, StarOf(element), repeat_state.token_index)
                  <==> Raises(nodes, accepts, throws, toks, Whole(id), i)
        decreases |toks| - repeat_state.token_index
      {
        state.token_index := repeat_state.token_index;
        if repeat_state.token_index >= |state.tokens| {
          EndFails(nodes, accepts, toks, cert, element);
          EndSilent(nodes, accepts, throws, toks, cert, element);
          break;
        }
        ghost var here := repeat_state.token_index;
        StarRaises(nodes, accepts, throws, toks, element, here);
        var next_result, failure := MatchParseResult(element, repeat_state);
        if failure { return None, true; }
        RaisesOn(nodes, accepts, throws, toks, [element], here, Reported(next_result, repeat_state.token_index));
        if next_result.None? { break; }
        StarGoes(nodes, accepts, toks, element, here, repeat_state.token_index);
        LeavesSnoc(results, next_result.value);
        CopiesGrow(nodes, accepts, toks, element, i, results, next_result.value);
        results := results + [next_result.value];
      }
      StarStops(nodes, accepts, toks, element, state.token_index);
      RepeatMirrors(nodes, accepts, toks, id, i, state.token_index, results);
      return Some(RepeatResult(results)), false;
    }
  }
}
