/** Certificates of progress, and left recursion. */
module PegProgress {
  import opened Options
  import opened PegSyntax
  import opened PegGraph
  import opened PegMeaning

  // ----- names -----

  /** The rule names and shared choices in a tree. */
  function Names(g: Grammar, e: Expr): set<Expr>
    decreases e, 1
  {
    match e
    case Lit(_) => {}
    case Ref(r) => if r in g.overrides then {} else {e}
    case Call(_, _) => {}
    case Group(es) => NamesAll(g, es)
    case Choice(es) => NamesAll(g, es)
    case Opt(x) => Names(g, x)
    case Plus(x) => Names(g, x)
    case Shared(_, _) => {e}
  }

  function NamesAll(g: Grammar, es: seq<Expr>): set<Expr>
    decreases es, 0
  {
    if es == [] then {} else Names(g, es[0]) + NamesAll(g, es[1..])
  }

  lemma {:induction false} NamesIn(g: Grammar, es: seq<Expr>, x: Expr)
    requires x in es
    ensures Names(g, x) <= NamesAll(g, es)
    decreases |es|
  {
    if x != es[0] { NamesIn(g, es[1..], x); }
  }

  lemma {:induction false} NamesJoined(g: Grammar, es: seq<Expr>, es': seq<Expr>)
    ensures NamesAll(g, es + es') == NamesAll(g, es) + NamesAll(g, es')
    decreases |es|
  {
    if es == [] {
      assert es + es' == es';
    } else {
      assert (es + es')[0] == es[0] && (es + es')[1..] == es[1..] + es';
      NamesJoined(g, es[1..], es');
    }
  }

  /** A set of names that contains all names of their bodies. */
  ghost predicate ClosedNames(g: Grammar, ns: set<Expr>)
    requires g.Ok()
  {
    forall n :: n in ns ==> IsName(g, n) && Names(g, Unrolled(g, n)) <= ns
  }

  // ----- what can succeed without consuming -----

  /** The tree can succeed without consuming a token, by unrolling names at most k deep. */
  ghost predicate Empties(g: Grammar, k: nat, e: Expr)
    requires g.Ok()
    decreases k, e
  {
    match e
    case Lit(_) => false
    case Call(_, _) => false
    case Group(es) => forall x :: x in es ==> Empties(g, k, x)
    case Choice(es) => exists x :: x in es && Empties(g, k, x)
    case Opt(_) => true
    case Plus(x) => Empties(g, k, x)
    case _ => IsName(g, e) && k > 0 && Empties(g, k - 1, Unrolled(g, e))
  }

  ghost predicate CanBeEmpty(g: Grammar, e: Expr)
    requires g.Ok()
  {
    exists k: nat :: Empties(g, k, e)
  }

  lemma {:induction false} EmptiesMore(g: Grammar, k: nat, k': nat, e: Expr)
    requires g.Ok() && Empties(g, k, e) && k <= k'
    ensures Empties(g, k', e)
    decreases k, e
  {
    match e
    case Group(es) => forall x | x in es ensures Empties(g, k', x) { EmptiesMore(g, k, k', x); }
    case Choice(es) =>
      var x :| x in es && Empties(g, k, x);
      EmptiesMore(g, k, k', x);
    case Opt(_) =>
    case Plus(x) => EmptiesMore(g, k, k', x);
    case Ref(_) => EmptiesMore(g, k - 1, k' - 1, Unrolled(g, e));
    case Shared(_, _) => EmptiesMore(g, k - 1, k' - 1, Unrolled(g, e));
    case _ =>
  }

  lemma {:induction false} AllEmpty(g: Grammar, es: seq<Expr>) returns (k: nat)
    requires g.Ok() && forall x :: x in es ==> CanBeEmpty(g, x)
    ensures forall x :: x in es ==> Empties(g, k, x)
    decreases |es|
  {
    if es == [] {
      k := 0;
    } else {
      var rest := AllEmpty(g, es[1..]);
      assert es[0] in es;
      var first: nat :| Empties(g, first, es[0]);
      k := Max(rest, first);
      forall x | x in es ensures Empties(g, k, x) {
        if x == es[0] { EmptiesMore(g, first, k, x); } else { EmptiesMore(g, rest, k, x); }
      }
    }
  }

  /** What it takes to be empty, constructor by constructor. */
  lemma EmptyRules(g: Grammar, e: Expr)
    requires g.Ok()
    ensures e.Lit? || e.Call? ==> !CanBeEmpty(g, e)
    ensures e.Group? ==> (CanBeEmpty(g, e) <==> forall x :: x in e.items ==> CanBeEmpty(g, x))
    ensures e.Choice? ==> (CanBeEmpty(g, e) <==> exists x :: x in e.alts && CanBeEmpty(g, x))
    ensures e.Opt? ==> CanBeEmpty(g, e)
    ensures e.Plus? ==> (CanBeEmpty(g, e) <==> CanBeEmpty(g, e.inner))
    ensures e.Ref? || e.Shared? ==> (CanBeEmpty(g, e) <==> IsName(g, e) && CanBeEmpty(g, Unrolled(g, e)))
  {
    match e
    case Group(es) => EmptyGroup(g, es);
    case Choice(es) => EmptyChoice(g, es);
    case Opt(_) => assert Empties(g, 0, e);
    case Plus(x) =>
      assert forall k: nat :: Empties(g, k, e) <==> Empties(g, k, x);
    case Lit(_) =>
    case Call(_, _) =>
    case Ref(_) => EmptyName(g, e);
    case Shared(_, _) => EmptyName(g, e);
  }

  lemma EmptyGroup(g: Grammar, es: seq<Expr>)
    requires g.Ok()
    ensures CanBeEmpty(g, Group(es)) <==> forall x :: x in es ==> CanBeEmpty(g, x)
  {
    if forall x :: x in es ==> CanBeEmpty(g, x) {
      var k := AllEmpty(g, es);
      assert Empties(g, k, Group(es));
    }
    if k: nat :| Empties(g, k, Group(es)) {
      assert forall x :: x in es ==> Empties(g, k, x);
    }
  }

  lemma EmptyChoice(g: Grammar, es: seq<Expr>)
    requires g.Ok()
    ensures CanBeEmpty(g, Choice(es)) <==> exists x :: x in es && CanBeEmpty(g, x)
  {
    if x :| x in es && CanBeEmpty(g, x) {
      var k: nat :| Empties(g, k, x);
      assert Empties(g, k, Choice(es));
    }
    if k: nat :| Empties(g, k, Choice(es)) {
      var x :| x in es && Empties(g, k, x);
      assert CanBeEmpty(g, x);
    }
  }

  lemma EmptyName(g: Grammar, n: Expr)
    requires g.Ok() && (n.Ref? || n.Shared?)
    ensures CanBeEmpty(g, n) <==> IsName(g, n) && CanBeEmpty(g, Unrolled(g, n))
  {
    if IsName(g, n) {
      if k: nat :| Empties(g, k, Unrolled(g, n)) { assert Empties(g, k + 1, n); }
      if k: nat :| Empties(g, k, n) { assert Empties(g, k - 1, Unrolled(g, n)); }
    }
  }

  // ----- left recursion -----

  /** The names that a tree may enter before it consumes a token. */
  ghost function Firsts(g: Grammar, e: Expr): set<Expr>
    requires g.Ok()
    decreases e, 1
  {
    match e
    case Lit(_) => {}
    case Call(_, _) => {}
    case Group(es) => FirstsOf(g, es)
    case Choice(es) => FirstsAmong(g, es)
    case Opt(x) => Firsts(g, x)
    case Plus(x) => Firsts(g, x)
    case _ => if IsName(g, e) then {e} else {}
  }

  ghost function FirstsOf(g: Grammar, es: seq<Expr>): set<Expr>
    requires g.Ok()
    decreases es, 0
  {
    if es == [] then {} else Firsts(g, es[0]) + if CanBeEmpty(g, es[0]) then FirstsOf(g, es[1..]) else {}
  }

  ghost function FirstsAmong(g: Grammar, es: seq<Expr>): set<Expr>
    requires g.Ok()
    decreases es, 0
  {
    if es == [] then {} else Firsts(g, es[0]) + FirstsAmong(g, es[1..])
  }

  /** A walk from name to name without consuming. */
  ghost predicate Walk(g: Grammar, ns: seq<Expr>)
    requires g.Ok()
  {
    forall k :: 0 <= k < |ns| - 1 ==> ns[k + 1] in Firsts(g, Unrolled(g, ns[k]))
  }

  /** Some name comes back to itself without consuming a token. */
  ghost predicate LeftRecursive(g: Grammar, names: set<Expr>)
    requires g.Ok()
  {
    exists ns: seq<Expr> :: |ns| >= 2 && ns[0] in names && Walk(g, ns) && ns[0] == Last(ns)
  }

  /** No repeated element of the tree can succeed without consuming. */
  ghost predicate RepeatsConsume(g: Grammar, e: Expr)
    requires g.Ok()
    decreases e
  {
    match e
    case Group(es) => forall x :: x in es ==> RepeatsConsume(g, x)
    case Choice(es) => forall x :: x in es ==> RepeatsConsume(g, x)
    case Opt(x) => RepeatsConsume(g, x)
    case Plus(x) => RepeatsConsume(g, x) && !CanBeEmpty(g, x)
    case _ => true
  }

  ghost predicate AllRepeatsConsume(g: Grammar, names: set<Expr>)
    requires g.Ok()
  {
    forall n :: n in names ==> RepeatsConsume(g, Unrolled(g, n))
  }

  // ----- a certificate rules both out -----

  /** The certificate's nullability is the real one. */
  lemma {:induction false} EmptyIsNullable(g: Grammar, c: TreeCert, k: nat, e: Expr)
    requires g.Ok() && TreeProgress(g, c) && Fine(g, c, e) && Empties(g, k, e)
    ensures Nullable(g, c, e)
    decreases k, e
  {
    match e
    case Group(es) => forall x | x in es ensures Nullable(g, c, x) { EmptyIsNullable(g, c, k, x); }
    case Choice(es) =>
      var x :| x in es && Empties(g, k, x);
      EmptyIsNullable(g, c, k, x);
    case Opt(_) =>
    case Plus(x) => EmptyIsNullable(g, c, k, x);
    case Ref(_) =>
      assert CertEntry(g, c, e);
      EmptyIsNullable(g, c, k - 1, Unrolled(g, e));
    case Shared(_, _) =>
      assert CertEntry(g, c, e);
      EmptyIsNullable(g, c, k - 1, Unrolled(g, e));
    case _ =>
  }

  lemma {:induction false} NullableIsEmpty(g: Grammar, c: TreeCert, e: Expr)
    requires g.Ok() && TreeProgress(g, c) && Fine(g, c, e) && Nullable(g, c, e)
    ensures CanBeEmpty(g, e)
    decreases Depth(g, c, e), if e.Ref? || e.Shared? then 1 else 0
  {
    EmptyRules(g, e);
    match e
    case Group(es) =>
      forall x | x in es ensures CanBeEmpty(g, x) {
        var k :| 0 <= k < |es| && es[k] == x;
        assert forall j :: 0 <= j < k ==> es[j] in es;
        FirstReached(g, c, es, k);
        NullableIsEmpty(g, c, x);
      }
    case Choice(es) =>
      var x :| x in es && Nullable(g, c, x);
      var k :| 0 <= k < |es| && es[k] == x;
      AltBelow(g, c, es, k);
      NullableIsEmpty(g, c, x);
    case Opt(_) =>
    case Plus(_) =>
    case Ref(_) =>
      assert CertEntry(g, c, e);
      NullableIsEmpty(g, c, Unrolled(g, e));
    case Shared(_, _) =>
      assert CertEntry(g, c, e);
      NullableIsEmpty(g, c, Unrolled(g, e));
    case _ =>
  }

  lemma NullableExact(g: Grammar, c: TreeCert, e: Expr)
    requires g.Ok() && TreeProgress(g, c) && Fine(g, c, e)
    ensures Nullable(g, c, e) <==> CanBeEmpty(g, e)
  {
    if Nullable(g, c, e) { NullableIsEmpty(g, c, e); }
    if k: nat :| Empties(g, k, e) { EmptyIsNullable(g, c, k, e); }
  }

  /** A name that may be entered first is no deeper than the tree. */
  lemma {:induction false} FirstNotDeeper(g: Grammar, c: TreeCert, e: Expr, n: Expr)
    requires g.Ok() && TreeProgress(g, c) && Fine(g, c, e) && n in Firsts(g, e)
    ensures n in c.depth && Depth(g, c, n) <= Depth(g, c, e)
    ensures e.Group? || e.Choice? ==> Depth(g, c, n) < Depth(g, c, e)
    decreases e, 1
  {
    match e
    case Group(es) => FirstOfNotDeeper(g, c, es, n);
    case Choice(es) => FirstAmongNotDeeper(g, c, es, n);
    case Opt(x) => FirstNotDeeper(g, c, x, n);
    case Plus(x) => FirstNotDeeper(g, c, x, n);
    case _ =>
  }

  lemma {:induction false} FirstOfNotDeeper(g: Grammar, c: TreeCert, es: seq<Expr>, n: Expr)
    requires g.Ok() && TreeProgress(g, c) && (forall x :: x in es ==> Fine(g, c, x)) && n in FirstsOf(g, es)
    ensures n in c.depth && Depth(g, c, n) <= FirstDepth(g, c, es)
    decreases es, 0
  {
    NullableExact(g, c, es[0]);
    if n in Firsts(g, es[0]) {
      FirstNotDeeper(g, c, es[0], n);
    } else {
      FirstOfNotDeeper(g, c, es[1..], n);
    }
  }

  lemma {:induction false} FirstAmongNotDeeper(g: Grammar, c: TreeCert, es: seq<Expr>, n: Expr)
    requires g.Ok() && TreeProgress(g, c) && (forall x :: x in es ==> Fine(g, c, x)) && n in FirstsAmong(g, es)
    ensures n in c.depth && Depth(g, c, n) <= AltDepth(g, c, es)
    decreases es, 0
  {
    if n in Firsts(g, es[0]) {
      FirstNotDeeper(g, c, es[0], n);
    } else {
      FirstAmongNotDeeper(g, c, es[1..], n);
    }
  }

  /** One step of a walk goes down. */
  lemma StepFalls(g: Grammar, c: TreeCert, n: Expr, m: Expr)
    requires g.Ok() && TreeProgress(g, c) && n in c.depth && m in Firsts(g, Unrolled(g, n))
    ensures m in c.depth && Depth(g, c, m) < Depth(g, c, n)
  {
    hide Firsts, Fine, Nullable;
    assert CertEntry(g, c, n);
    FirstNotDeeper(g, c, Unrolled(g, n), m);
  }

  lemma WalkTail(g: Grammar, ns: seq<Expr>)
    requires g.Ok() && Walk(g, ns) && |ns| >= 2
    ensures ns[1] in Firsts(g, Unrolled(g, ns[0])) && Walk(g, ns[1..])
  {
    var rest := ns[1..];
    assert ns[0 + 1] in Firsts(g, Unrolled(g, ns[0]));
    forall k | 0 <= k < |rest| - 1 ensures rest[k + 1] in Firsts(g, Unrolled(g, rest[k])) {
      assert ns[k + 1 + 1] in Firsts(g, Unrolled(g, ns[k + 1]));
    }
  }

  /** Along a walk the depth falls. */
  lemma {:induction false} WalkFalls(g: Grammar, c: TreeCert, ns: seq<Expr>)
    requires g.Ok() && TreeProgress(g, c) && |ns| >= 2 && ns[0] in c.depth && Walk(g, ns)
    ensures Last(ns) in c.depth && Depth(g, c, Last(ns)) < Depth(g, c, ns[0])
    decreases |ns|
  {
    hide Walk, Firsts, Unrolled, Depth, TreeProgress, Grammar.Ok;
    WalkTail(g, ns);
    StepFalls(g, c, ns[0], ns[1]);
    if |ns| > 2 { WalkFalls(g, c, ns[1..]); }
  }

  lemma {:induction false} FineRepeats(g: Grammar, c: TreeCert, e: Expr)
    requires g.Ok() && TreeProgress(g, c) && Fine(g, c, e)
    ensures RepeatsConsume(g, e)
    decreases e
  {
    match e
    case Group(es) => forall x | x in es ensures RepeatsConsume(g, x) { FineRepeats(g, c, x); }
    case Choice(es) => forall x | x in es ensures RepeatsConsume(g, x) { FineRepeats(g, c, x); }
    case Opt(x) => FineRepeats(g, c, x);
    case Plus(x) =>
      FineRepeats(g, c, x);
      NullableExact(g, c, x);
    case _ =>
  }

  lemma CertificateSuffices(g: Grammar, names: set<Expr>, c: TreeCert)
    requires g.Ok() && TreeProgress(g, c) && c.depth.Keys == names
    ensures !LeftRecursive(g, names) && AllRepeatsConsume(g, names)
  {
    if ns: seq<Expr> :| |ns| >= 2 && ns[0] in names && Walk(g, ns) && ns[0] == Last(ns) { WalkFalls(g, c, ns); }
    forall n | n in names ensures RepeatsConsume(g, Unrolled(g, n)) {
      assert CertEntry(g, c, n);
      FineRepeats(g, c, Unrolled(g, n));
    }
  }

  // ----- without left recursion, walks are short -----

  /** No walk out of the tree is longer than k. */
  ghost predicate Short(g: Grammar, k: nat, e: Expr)
    requires g.Ok()
    decreases k
  {
    forall n :: n in Firsts(g, e) ==> k > 0 && Short(g, k - 1, Unrolled(g, n))
  }

  lemma {:induction false} LongWalk(g: Grammar, k: nat, n: Expr) returns (ns: seq<Expr>)
    requires g.Ok() && !Short(g, k, Unrolled(g, n))
    ensures |ns| == k + 2 && ns[0] == n && Walk(g, ns)
    decreases k
  {
    var m :| m in Firsts(g, Unrolled(g, n)) && !(k > 0 && Short(g, k - 1, Unrolled(g, m)));
    if k == 0 {
      ns := [n, m];
    } else {
      var rest := LongWalk(g, k - 1, m);
      ns := [n] + rest;
      forall j | 0 <= j < |ns| - 1 ensures ns[j + 1] in Firsts(g, Unrolled(g, ns[j])) {
        if j > 0 { assert rest[j - 1 + 1] in Firsts(g, Unrolled(g, rest[j - 1])); }
      }
    }
  }

  lemma {:induction false} FirstsAreNames(g: Grammar, e: Expr)
    requires g.Ok()
    ensures Firsts(g, e) <= Names(g, e)
    decreases e, 1
  {
    match e
    case Group(es) => FirstsOfAreNames(g, es);
    case Choice(es) => FirstsOfAreNames(g, es);
    case Opt(x) => FirstsAreNames(g, x);
    case Plus(x) => FirstsAreNames(g, x);
    case _ =>
  }

  lemma {:induction false} FirstsOfAreNames(g: Grammar, es: seq<Expr>)
    requires g.Ok()
    ensures FirstsOf(g, es) <= NamesAll(g, es) && FirstsAmong(g, es) <= NamesAll(g, es)
    decreases es, 0
  {
    if es != [] {
      FirstsAreNames(g, es[0]);
      FirstsOfAreNames(g, es[1..]);
    }
  }

  lemma {:induction false} WalkStays(g: Grammar, names: set<Expr>, ns: seq<Expr>, k: nat)
    requires g.Ok() && ClosedNames(g, names) && Walk(g, ns) && k < |ns| && ns[0] in names
    ensures ns[k] in names
    decreases k
  {
    if k > 0 {
      WalkStays(g, names, ns, k - 1);
      assert ns[k - 1 + 1] in Firsts(g, Unrolled(g, ns[k - 1]));
      FirstsAreNames(g, Unrolled(g, ns[k - 1]));
    }
  }

  /** More entries than there are values: some value comes twice. */
  lemma {:induction false} Pigeonhole<T>(s: seq<T>, values: set<T>) returns (i: nat, j: nat)
    requires |s| > |values| && forall k :: 0 <= k < |s| ==> s[k] in values
    ensures i < j < |s| && s[i] == s[j]
    decreases |s|
  {
    var front, last := s[..|s| - 1], s[|s| - 1];
    if last in front {
      i :| 0 <= i < |front| && front[i] == last;
      j := |s| - 1;
    } else {
      assert |values - {last}| == |values| - 1;
      forall k | 0 <= k < |front| ensures front[k] in values - {last} { assert front[k] == s[k] && front[k] in front; }
      i, j := Pigeonhole(front, values - {last});
    }
  }

  lemma LoopInWalk(g: Grammar, names: set<Expr>, ns: seq<Expr>, i: nat, j: nat)
    requires g.Ok() && Walk(g, ns) && i < j < |ns| && ns[i] == ns[j] && ns[i] in names
    ensures LeftRecursive(g, names)
  {
    var loop := ns[i..j + 1];
    forall k | 0 <= k < |loop| - 1 ensures loop[k + 1] in Firsts(g, Unrolled(g, loop[k])) {
      assert ns[i + k + 1] in Firsts(g, Unrolled(g, ns[i + k]));
    }
    assert Walk(g, loop) && loop[0] == Last(loop);
  }

  lemma WalksAreShort(g: Grammar, names: set<Expr>, n: Expr)
    requires g.Ok() && ClosedNames(g, names) && !LeftRecursive(g, names) && n in names
    ensures Short(g, |names|, Unrolled(g, n))
  {
    if !Short(g, |names|, Unrolled(g, n)) {
      var ns := LongWalk(g, |names|, n);
      forall k | 0 <= k < |ns| ensures ns[k] in names { WalkStays(g, names, ns, k); }
      var i, j := Pigeonhole(ns, names);
      LoopInWalk(g, names, ns, i, j);
    }
  }

  // ----- the depth of a name, by unrolling it far enough -----

  ghost function DepthBy(g: Grammar, k: nat, e: Expr): nat
    requires g.Ok()
    decreases k, e, 1
  {
    match e
    case Lit(_) => 0
    case Call(_, _) => 0
    case Group(es) => 1 + DepthOf(g, k, es)
    case Choice(es) => 1 + DepthAmong(g, k, es)
    case Opt(x) => 1 + DepthBy(g, k, x)
    case Plus(x) => 1 + DepthBy(g, k, x)
    case _ => if IsName(g, e) && k > 0 then DepthBy(g, k - 1, Unrolled(g, e)) else 0
  }

  ghost function DepthOf(g: Grammar, k: nat, es: seq<Expr>): nat
    requires g.Ok()
    decreases k, es, 0
  {
    if es == [] then 0 else Max(DepthBy(g, k, es[0]), if CanBeEmpty(g, es[0]) then DepthOf(g, k, es[1..]) else 0)
  }

  ghost function DepthAmong(g: Grammar, k: nat, es: seq<Expr>): nat
    requires g.Ok()
    decreases k, es, 0
  {
    if es == [] then 0 else Max(DepthBy(g, k, es[0]), DepthAmong(g, k, es[1..]))
  }

  ghost predicate ShortSet(g: Grammar, k: nat, ns: set<Expr>)
    requires g.Ok()
  {
    forall n :: n in ns ==> k > 0 && Short(g, k - 1, Unrolled(g, n))
  }

  /** Once all walks are shorter, unrolling further changes nothing. */
  lemma {:induction false} DepthSettles(g: Grammar, k: nat, e: Expr)
    requires g.Ok() && ShortSet(g, k, Firsts(g, e))
    ensures DepthBy(g, k, e) == DepthBy(g, k + 1, e)
    decreases k, e, 1
  {
    match e
    case Group(es) => DepthOfSettles(g, k, es);
    case Choice(es) => DepthAmongSettles(g, k, es);
    case Opt(x) => DepthSettles(g, k, x);
    case Plus(x) => DepthSettles(g, k, x);
    case Lit(_) =>
    case Call(_, _) =>
    case _ =>
      if IsName(g, e) {
        assert e in Firsts(g, e);
        DepthSettles(g, k - 1, Unrolled(g, e));
      }
  }

  lemma {:induction false} DepthOfSettles(g: Grammar, k: nat, es: seq<Expr>)
    requires g.Ok() && ShortSet(g, k, FirstsOf(g, es))
    ensures DepthOf(g, k, es) == DepthOf(g, k + 1, es)
    decreases k, es, 0
  {
    if es != [] {
      DepthSettles(g, k, es[0]);
      if CanBeEmpty(g, es[0]) { DepthOfSettles(g, k, es[1..]); }
    }
  }

  lemma {:induction false} DepthAmongSettles(g: Grammar, k: nat, es: seq<Expr>)
    requires g.Ok() && ShortSet(g, k, FirstsAmong(g, es))
    ensures DepthAmong(g, k, es) == DepthAmong(g, k + 1, es)
    decreases k, es, 0
  {
    if es != [] {
      DepthSettles(g, k, es[0]);
      DepthAmongSettles(g, k, es[1..]);
    }
  }

  // ----- the certificate -----

  ghost function Certificate(g: Grammar, names: set<Expr>): TreeCert
    requires g.Ok()
  {
    TreeCert(map n | n in names :: DepthBy(g, |names| + 1, n), set n | n in names && CanBeEmpty(g, n))
  }

  lemma {:induction false} CertNullable(g: Grammar, names: set<Expr>, e: Expr)
    requires g.Ok() && Names(g, e) <= names
    ensures Nullable(g, Certificate(g, names), e) <==> CanBeEmpty(g, e)
    decreases e
  {
    EmptyRules(g, e);
    match e
    case Group(es) =>
      forall x | x in es ensures Nullable(g, Certificate(g, names), x) <==> CanBeEmpty(g, x) {
        NamesIn(g, es, x);
        CertNullable(g, names, x);
      }
    case Choice(es) =>
      forall x | x in es ensures Nullable(g, Certificate(g, names), x) <==> CanBeEmpty(g, x) {
        NamesIn(g, es, x);
        CertNullable(g, names, x);
      }
    case Plus(x) => CertNullable(g, names, x);
    case _ =>
  }

  lemma {:induction false} CertDepth(g: Grammar, names: set<Expr>, e: Expr)
    requires g.Ok() && Names(g, e) <= names && forall n :: n in names ==> IsName(g, n)
    ensures Depth(g, Certificate(g, names), e) == DepthBy(g, |names| + 1, e)
    decreases e, 1
  {
    match e
    case Group(es) => CertDepthOf(g, names, es);
    case Choice(es) => CertDepthOf(g, names, es);
    case Opt(x) => CertDepth(g, names, x);
    case Plus(x) => CertDepth(g, names, x);
    case _ =>
  }

  lemma {:induction false} CertDepthOf(g: Grammar, names: set<Expr>, es: seq<Expr>)
    requires g.Ok() && NamesAll(g, es) <= names && forall n :: n in names ==> IsName(g, n)
    ensures FirstDepth(g, Certificate(g, names), es) == DepthOf(g, |names| + 1, es)
    ensures AltDepth(g, Certificate(g, names), es) == DepthAmong(g, |names| + 1, es)
    decreases es, 0
  {
    if es != [] {
      CertDepth(g, names, es[0]);
      CertNullable(g, names, es[0]);
      CertDepthOf(g, names, es[1..]);
    }
  }

  lemma {:induction false} CertFine(g: Grammar, names: set<Expr>, e: Expr)
    requires g.Ok() && Names(g, e) <= names && RepeatsConsume(g, e)
    ensures Fine(g, Certificate(g, names), e)
    decreases e
  {
    match e
    case Group(es) =>
      forall x | x in es ensures Fine(g, Certificate(g, names), x) {
        NamesIn(g, es, x);
        CertFine(g, names, x);
      }
    case Choice(es) =>
      forall x | x in es ensures Fine(g, Certificate(g, names), x) {
        NamesIn(g, es, x);
        CertFine(g, names, x);
      }
    case Opt(x) => CertFine(g, names, x);
    case Plus(x) =>
      CertFine(g, names, x);
      CertNullable(g, names, x);
    case _ =>
  }

  lemma CertificateProves(g: Grammar, names: set<Expr>)
    requires g.Ok() && ClosedNames(g, names) && !LeftRecursive(g, names) && AllRepeatsConsume(g, names)
    ensures TreeProgress(g, Certificate(g, names)) && Certificate(g, names).depth.Keys == names
  {
    hide Nullable, Depth, Fine, Short, DepthBy, CanBeEmpty, RepeatsConsume, Unrolled, Names, IsName;
    var c := Certificate(g, names);
    forall n | n in c.depth ensures CertEntry(g, c, n) {
      var body := Unrolled(g, n);
      WalksAreShort(g, names, n);
      NameSettles(g, |names|, n);
      CertDepth(g, names, body);
      CertNullable(g, names, body);
      CertFine(g, names, body);
    }
  }

  lemma NameSettles(g: Grammar, k: nat, n: Expr)
    requires g.Ok() && IsName(g, n) && Short(g, k, Unrolled(g, n))
    ensures DepthBy(g, k + 1, n) == DepthBy(g, k + 1, Unrolled(g, n))
    ensures CanBeEmpty(g, n) <==> CanBeEmpty(g, Unrolled(g, n))
  {
    EmptyRules(g, n);
    DepthSettles(g, k, Unrolled(g, n));
  }

  /** Names certified to make progress: exactly those with no left recursion and no repetition of what can be empty. */
  lemma ProgressExactly(g: Grammar, names: set<Expr>)
    requires g.Ok() && ClosedNames(g, names)
    ensures (exists c :: TreeProgress(g, c) && c.depth.Keys == names) <==>
            !LeftRecursive(g, names) && AllRepeatsConsume(g, names)
  {
    if c :| TreeProgress(g, c) && c.depth.Keys == names { CertificateSuffices(g, names, c); }
    if !LeftRecursive(g, names) && AllRepeatsConsume(g, names) {
      CertificateProves(g, names);
      assert Certificate(g, names).depth.Keys == names;
    }
  }

  // ----- the names a grammar reaches -----

  function RuleNames(g: Grammar): set<Expr> {
    set r | r in g.live && g.PlainRule(r) && r !in g.overrides :: Ref(r)
  }

  /** The shared choices that the calls in a tree create, and those that compiling these calls creates. */
  ghost function Sites(g: Grammar, v: Env, e: Expr): set<Expr>
    requires g.Ok() && v.Ok() && Resolved(g, v.params, v.lvl, e)
    decreases v.lvl, e, 0
  {
    match e
    case Call(f, args) =>
      BodyResolved(g, f);
      var tree := Wrapped(ExpandAll(g, v, args));
      var arg := Passed(v.style, f, tree);
      SitesAll(g, v, args) + (if arg != tree then {arg} else {}) + SitesAll(g, CallEnv(g, f, arg, v.style), g.Body(f))
    case Group(items) => SitesAll(g, v, items)
    case Choice(alts) => SitesAll(g, v, alts)
    case Opt(x) => Sites(g, v, x)
    case Plus(x) => Sites(g, v, x)
    case _ => {}
  }

  ghost function SitesAll(g: Grammar, v: Env, es: seq<Expr>): set<Expr>
    requires g.Ok() && v.Ok() && forall a :: a in es ==> Resolved(g, v.params, v.lvl, a)
    decreases v.lvl, es, 0
  {
    if es == [] then {}
    else
      assert forall a :: a in Init(es) ==> a in es;
      SitesAll(g, v, Init(es)) + Sites(g, v, Last(es))
  }

  ghost function RuleSites(g: Grammar, r: string): set<Expr>
    requires g.Ok() && g.PlainRule(r)
  {
    BodyResolved(g, r);
    SitesAll(g, Env([], None, g.Level(r), Sharing), g.Body(r))
  }

  /** All names that occur when the live rules are unrolled. */
  ghost function Reached(g: Grammar): set<Expr>
    requires g.Ok()
  {
    RuleNames(g) + set r, s | r in g.live && g.PlainRule(r) && s in RuleSites(g, r) :: s
  }

  ghost predicate NamesWithin(g: Grammar, es: seq<Expr>, names: set<Expr>) {
    forall e :: e in es ==> Names(g, e) <= names
  }

  /** Every shared choice in the set is one, and its alternatives name nothing outside. */
  ghost predicate SitesClosed(g: Grammar, sites: set<Expr>, names: set<Expr>)
    requires g.Ok()
  {
    forall s :: s in sites ==> WellShared(g, s) && NamesWithin(g, SharedAlts(g, s), names)
  }

  lemma {:induction false} NamesOfAll(g: Grammar, es: seq<Expr>, names: set<Expr>)
    requires NamesWithin(g, es, names)
    ensures NamesAll(g, es) <= names
    decreases |es|
  {
    if es != [] {
      assert es[0] in es;
      NamesOfAll(g, es[1..], names);
    }
  }

  /** What a tree expands to, and what it adds to the shared choice, names only rules, the sites of the tree, and what
      the argument names. */
  lemma {:induction false} SitesCover(g: Grammar, v: Env, e: Expr, names: set<Expr>)
    requires g.Ok() && v.Ok() && v.style.Sharing? && Resolved(g, v.params, v.lvl, e)
    requires RuleNames(g) + Sites(g, v, e) <= names && (v.arg.Some? ==> Names(g, v.arg.value) <= names)
    ensures Names(g, Expand(g, v, e)) <= names && NamesWithin(g, Ext(g, v, e), names)
            && SitesClosed(g, Sites(g, v, e), names)
    decreases v.lvl, e, 1
  {
    match e
    case Lit(_) =>
    case Ref(n) => if n !in v.params && n !in g.overrides { assert Ref(n) in RuleNames(g); }
    case Call(f, args) => CallCover(g, v, f, args, names);
    case Group(items) =>
      SitesCoverAll(g, v, items, names);
      NamesOfAll(g, ExpandAll(g, v, items), names);
    case Choice(alts) =>
      SitesCoverAll(g, v, alts, names);
      NamesOfAll(g, ExpandAll(g, v, alts), names);
    case Opt(x) => SitesCover(g, v, x, names);
    case Plus(x) => SitesCover(g, v, x, names);
  }

  lemma {:induction false} SitesCoverAll(g: Grammar, v: Env, es: seq<Expr>, names: set<Expr>)
    requires g.Ok() && v.Ok() && v.style.Sharing? && forall a :: a in es ==> Resolved(g, v.params, v.lvl, a)
    requires RuleNames(g) + SitesAll(g, v, es) <= names && (v.arg.Some? ==> Names(g, v.arg.value) <= names)
    ensures NamesWithin(g, ExpandAll(g, v, es), names) && NamesWithin(g, ExtAll(g, v, es), names)
    ensures NamesWithin(g, ExtLater(g, v, es), names) && SitesClosed(g, SitesAll(g, v, es), names)
    decreases v.lvl, es, 0
  {
    hide Expand, Ext, Sites, Names, SharedAlts, Grammar.Ok;
    if es != [] {
      assert forall a :: a in Init(es) ==> a in es;
      assert Last(es) in es;
      SitesCoverAll(g, v, Init(es), names);
      SitesCover(g, v, Last(es), names);
    }
  }

  lemma {:induction false} CallCover(g: Grammar, v: Env, f: string, args: seq<Expr>, names: set<Expr>)
    requires g.Ok() && v.Ok() && v.style.Sharing? && Resolved(g, v.params, v.lvl, Call(f, args))
    requires RuleNames(g) + Sites(g, v, Call(f, args)) <= names && (v.arg.Some? ==> Names(g, v.arg.value) <= names)
    ensures var e := Call(f, args);
            Names(g, Expand(g, v, e)) <= names && NamesWithin(g, Ext(g, v, e), names)
                && SitesClosed(g, Sites(g, v, e), names)
    decreases v.lvl, Call(f, args), 0
  {
    BodyResolved(g, f);
    hide Grammar.Ok, SitesAll, ExtAll, Names;
    var tree := Wrapped(ExpandAll(g, v, args));
    var arg := Passed(v.style, f, tree);
    var inner := CallEnv(g, f, arg, v.style);
    SitesCoverAll(g, v, args, names);
    ArgumentNames(g, ExpandAll(g, v, args), f, names);
    SitesCoverAll(g, inner, g.Body(f), names);
    NamesOfAll(g, ExpandAll(g, inner, g.Body(f)), names);
    if arg != tree {
      assert SharedAlts(g, arg) == tree.alts + ExtAll(g, inner, g.Body(f));
    }
  }

  /** The argument of a call names what its elements name, or is itself a shared choice. */
  lemma ArgumentNames(g: Grammar, es: seq<Expr>, f: string, names: set<Expr>)
    requires NamesWithin(g, es, names)
    ensures var tree := Wrapped(es);
            && Names(g, tree) <= names
            && (tree.Choice? ==> NamesWithin(g, tree.alts, names))
  {
    NamesOfAll(g, es, names);
    if |es| == 1 && es[0].Choice? {
      assert es[0] in es;
      forall x | x in es[0].alts ensures Names(g, x) <= names { NamesIn(g, es[0].alts, x); }
    }
  }

  lemma ReachedClosed(g: Grammar)
    requires g.Ok()
    ensures ClosedNames(g, Reached(g))
    ensures forall r :: g.PlainRule(r) && r !in g.overrides ==> Ref(r) in Reached(g)
  {
    hide Unrolled;
    var names := Reached(g);
    forall n | n in names ensures IsName(g, n) && Names(g, Unrolled(g, n)) <= names {
      if n in RuleNames(g) {
        RuleReached(g, n.name);
      } else {
        var r :| r in g.live && g.PlainRule(r) && n in RuleSites(g, r);
        SiteReached(g, r, n);
      }
    }
  }

  lemma RuleCover(g: Grammar, r: string)
    requires g.Ok() && g.PlainRule(r)
    ensures NamesWithin(g, RuleMeaning(g, Sharing, r), Reached(g)) && SitesClosed(g, RuleSites(g, r), Reached(g))
  {
    BodyResolved(g, r);
    assert forall s :: s in RuleSites(g, r) ==> s in Reached(g);
    SitesCoverAll(g, Env([], None, g.Level(r), Sharing), g.Body(r), Reached(g));
  }

  lemma RuleReached(g: Grammar, r: string)
    requires g.Ok() && g.PlainRule(r) && r !in g.overrides
    ensures IsName(g, Ref(r)) && Names(g, Unrolled(g, Ref(r))) <= Reached(g)
  {
    RuleCover(g, r);
    NamesOfAll(g, RuleMeaning(g, Sharing, r), Reached(g));
  }

  lemma SiteReached(g: Grammar, r: string, s: Expr)
    requires g.Ok() && g.PlainRule(r) && s in RuleSites(g, r)
    ensures IsName(g, s) && Names(g, Unrolled(g, s)) <= Reached(g)
  {
    RuleCover(g, r);
    NamesOfAll(g, SharedAlts(g, s), Reached(g));
  }

  /** No live rule is left-recursive, and no repeated element can succeed without consuming a token. */
  ghost predicate Progressive(g: Grammar)
    requires g.Ok()
  {
    !LeftRecursive(g, Reached(g)) && AllRepeatsConsume(g, Reached(g))
  }

  /** Such a grammar has a certificate for all its rules. */
  lemma ProgressiveCertified(g: Grammar) returns (c: TreeCert)
    requires g.Ok() && Progressive(g)
    ensures TreeProgress(g, c) && forall r :: g.Plain(r) ==> Fine(g, c, Ref(r))
  {
    ReachedClosed(g);
    CertificateProves(g, Reached(g));
    c := Certificate(g, Reached(g));
  }
}
