/** Replacing text by text, as `str.replace` does: from left to right, every occurrence that overlaps none before it.
    Each character carries the file and the offset it was read from, so that copies and losses can be told. */
module TextReplacement {

  /** A character, with where it was read. */
  datatype Mark = Mark(c: char, file: string, at: nat)

  function Chars(t: seq<Mark>): (s: string)
    ensures |s| == |t| && forall i :: 0 <= i < |t| ==> s[i] == t[i].c
  {
    seq(|t|, i requires 0 <= i < |t| => t[i].c)
  }

  function Replace(text: string, s: string, put: string): string
    requires s != ""
  {
    if |text| < |s| then text
    else if text[..|s|] == s then put + Replace(text[|s|..], s, put)
    else [text[0]] + Replace(text[1..], s, put)
  }

  /** The text s stands at q. */
  predicate Occurs(t: seq<Mark>, s: string, q: int) {
    0 <= q && q + |s| <= |t| && Chars(t[q..q + |s|]) == s
  }

  function ReplaceMarks(t: seq<Mark>, s: string, put: seq<Mark>): seq<Mark>
    requires s != ""
  {
    if |t| < |s| then t
    else if Occurs(t, s, 0) then put + ReplaceMarks(t[|s|..], s, put)
    else [t[0]] + ReplaceMarks(t[1..], s, put)
  }

  /** How many occurrences are replaced. */
  function Hits(t: seq<Mark>, s: string): nat
    requires s != ""
  {
    if |t| < |s| then 0 else if Occurs(t, s, 0) then 1 + Hits(t[|s|..], s) else Hits(t[1..], s)
  }

  // ----- occurrences -----

  lemma OccursFrom(t: seq<Mark>, s: string, k: nat, q: int)
    requires k <= |t| && k <= q
    ensures Occurs(t, s, q) <==> Occurs(t[k..], s, q - k)
  {
    if q + |s| <= |t| {
      assert t[k..][q - k..q - k + |s|] == t[q..q + |s|];
    }
  }

  lemma OccursBefore(t: seq<Mark>, u: seq<Mark>, s: string, q: int)
    requires 0 <= q && q + |s| <= |t|
    ensures Occurs(t + u, s, q) <==> Occurs(t, s, q)
  {
    assert (t + u)[q..q + |s|] == t[q..q + |s|];
  }

  lemma OccursChar(t: seq<Mark>, s: string, q: int, i: nat)
    requires Occurs(t, s, q) && i < |s|
    ensures t[q + i].c == s[i]
  {
    assert t[q + i] == t[q..q + |s|][i];
  }

  lemma OccursLast(t: seq<Mark>, s: string, q: int)
    requires Occurs(t, s, q) && s != ""
    ensures t[q + |s| - 1].c == s[|s| - 1]
  {
    OccursChar(t, s, q, |s| - 1);
  }

  lemma ReplaceHit(t: seq<Mark>, s: string, put: seq<Mark>)
    requires s != "" && Occurs(t, s, 0)
    ensures |s| <= |t| && ReplaceMarks(t, s, put) == put + ReplaceMarks(t[|s|..], s, put)
    ensures ReplaceMarks(t, s, []) == ReplaceMarks(t[|s|..], s, [])
    ensures Hits(t, s) == 1 + Hits(t[|s|..], s)
  {
    assert [] + ReplaceMarks(t[|s|..], s, []) == ReplaceMarks(t[|s|..], s, []);
  }

  lemma ReplaceSkip(t: seq<Mark>, s: string, put: seq<Mark>)
    requires s != "" && t != [] && !Occurs(t, s, 0)
    ensures ReplaceMarks(t, s, put) == [t[0]] + ReplaceMarks(t[1..], s, put)
    ensures Hits(t, s) == Hits(t[1..], s)
  {
    if |t| < |s| { assert ReplaceMarks(t, s, put) == t && ReplaceMarks(t[1..], s, put) == t[1..]; }
  }

  /** The marks are only a record: the characters are replaced as in a string. */
  lemma {:induction false} CharsReplaced(t: seq<Mark>, s: string, put: seq<Mark>)
    requires s != ""
    ensures Chars(ReplaceMarks(t, s, put)) == Replace(Chars(t), s, Chars(put))
  {
    if |t| >= |s| {
      assert t[0..0 + |s|] == t[..|s|] && Chars(t[..|s|]) == Chars(t)[..|s|];
      if Occurs(t, s, 0) {
        CharsReplaced(t[|s|..], s, put);
        assert Chars(t[|s|..]) == Chars(t)[|s|..];
      } else {
        CharsReplaced(t[1..], s, put);
        assert Chars(t[1..]) == Chars(t)[1..];
      }
    }
  }

  /** What a replacement takes away, and what it adds: no line end is taken away. */
  lemma {:induction false} Counts(t: seq<Mark>, s: string, put: seq<Mark>, m: Mark)
    requires s != ""
    ensures multiset(ReplaceMarks(t, s, put))[m] == multiset(ReplaceMarks(t, s, []))[m] + Hits(t, s) * multiset(put)[m]
    ensures multiset(ReplaceMarks(t, s, []))[m] <= multiset(t)[m]
    ensures m.c == '\n' && '\n' !in s ==> multiset(ReplaceMarks(t, s, []))[m] == multiset(t)[m]
  {
    hide Occurs, ReplaceMarks, Hits;
    if t == [] {
      EmptyStays(s, put);
      EmptyStays(s, []);
    } else if Occurs(t, s, 0) {
      ReplaceHit(t, s, put);
      Counts(t[|s|..], s, put, m);
      OneMore(Hits(t[|s|..], s), multiset(put)[m]);
      assert t == t[..|s|] + t[|s|..];
      if m in t[..|s|] { CharIn(t, s, m); }
    } else {
      ReplaceSkip(t, s, put);
      ReplaceSkip(t, s, []);
      Counts(t[1..], s, put, m);
      assert t == [t[0]] + t[1..];
    }
  }

  lemma EmptyStays(s: string, put: seq<Mark>)
    requires s != ""
    ensures ReplaceMarks([], s, put) == [] && Hits([], s) == 0
  {
  }

  lemma OneMore(n: nat, c: nat)
    ensures (1 + n) * c == c + n * c
  {
  }

  lemma CharIn(t: seq<Mark>, s: string, m: Mark)
    requires Occurs(t, s, 0) && m in t[..|s|]
    ensures m.c in s
  {
    var i :| 0 <= i < |s| && t[..|s|][i] == m;
    OccursChar(t, s, 0, i);
  }

  lemma {:induction false} NoHit(t: seq<Mark>, s: string, put: seq<Mark>)
    requires s != "" && forall q :: !Occurs(t, s, q)
    ensures ReplaceMarks(t, s, put) == t && Hits(t, s) == 0
  {
    hide Occurs, ReplaceMarks, Hits;
    if t == [] {
      EmptyStays(s, put);
    } else {
      forall q ensures !Occurs(t[1..], s, q) {
        if q >= 0 { OccursFrom(t, s, 1, q + 1); } else { NotBefore(t[1..], s, q); }
      }
      ReplaceSkip(t, s, put);
      NoHit(t[1..], s, put);
    }
  }

  lemma NotBefore(t: seq<Mark>, s: string, q: int)
    requires q < 0
    ensures !Occurs(t, s, q)
  {
  }

  lemma OccursInside(t: seq<Mark>, s: string, q: int)
    requires Occurs(t, s, q)
    ensures 0 <= q && q + |s| <= |t|
  {
  }

  /** The first occurrence is replaced. */
  lemma {:induction false} FirstHit(t: seq<Mark>, s: string, put: seq<Mark>, q: int) returns (first: nat)
    requires s != "" && Occurs(t, s, q)
    ensures first <= q && first + |s| <= |t| && Occurs(t, s, first)
    ensures ReplaceMarks(t, s, put) == t[..first] + put + ReplaceMarks(t[first + |s|..], s, put)
    ensures Hits(t, s) == 1 + Hits(t[first + |s|..], s)
    decreases q
  {
    hide Occurs, ReplaceMarks, Hits;
    OccursInside(t, s, q);
    if Occurs(t, s, 0) {
      first := 0;
      ReplaceHit(t, s, put);
    } else {
      OccursFrom(t, s, 1, q);
      var one := FirstHit(t[1..], s, put, q - 1);
      first := one + 1;
      OccursFrom(t, s, 1, first);
      ReplaceSkip(t, s, put);
      assert t[1..][one + |s|..] == t[first + |s|..];
      assert t[..first] == [t[0]] + t[1..][..one];
    }
  }

  /** An occurrence that no other one precedes and that no other one follows is all that is replaced. */
  lemma FoundAlone(x: seq<Mark>, here: seq<Mark>, y: seq<Mark>, s: string, put: seq<Mark>)
    requires s != "" && Chars(here) == s
    requires forall q :: Occurs(x + here + y, s, q) ==> |x| <= q < |x| + |s|
    ensures ReplaceMarks(x + here + y, s, put) == x + put + y
  {
    hide ReplaceMarks, Hits;
    var t := x + here + y;
    OccursHere(x, here, y, s);
    var first := FirstHit(t, s, put, |x|);
    assert first == |x| && t[..first] == x && t[first + |s|..] == y;
    forall q ensures !Occurs(y, s, q) {
      hide Occurs;
      if Occurs(y, s, q) {
        OccursInside(y, s, q);
        OccursFrom(t, s, |x| + |s|, |x| + |s| + q);
      }
    }
    NoHit(y, s, put);
  }

  lemma OccursHere(x: seq<Mark>, here: seq<Mark>, y: seq<Mark>, s: string)
    requires Chars(here) == s
    ensures Occurs(x + here + y, s, |x|)
  {
    assert (x + here + y)[|x|..|x| + |s|] == here;
  }

  // ----- lines -----

  predicate EndsLine(t: seq<Mark>) {
    t == [] || t[|t| - 1].c == '\n'
  }

  /** Text without a line end is replaced line by line. */
  lemma {:induction false} Cut(x: seq<Mark>, y: seq<Mark>, s: string, put: seq<Mark>)
    requires s != "" && '\n' !in s && EndsLine(x)
    ensures ReplaceMarks(x + y, s, put) == ReplaceMarks(x, s, put) + ReplaceMarks(y, s, put)
    ensures EndsLine(put) ==> EndsLine(ReplaceMarks(x, s, put))
    ensures x != [] ==> ReplaceMarks(x, s, put) != []
    decreases |x|
  {
    hide Occurs, ReplaceMarks, Hits;
    if x == [] {
      assert x + y == y;
      EmptyStays(s, put);
    } else if Occurs(x + y, s, 0) {
      OccursInside(x + y, s, 0);
      if |x| <= |s| {
        OccursChar(x + y, s, 0, |x| - 1);
        assert false;
      }
      OccursBefore(x, y, s, 0);
      ReplaceHit(x + y, s, put);
      ReplaceHit(x, s, put);
      assert (x + y)[|s|..] == x[|s|..] + y;
      Cut(x[|s|..], y, s, put);
    } else {
      if |x| >= |s| { OccursBefore(x, y, s, 0); } else { TooShort(x, s); }
      ReplaceSkip(x + y, s, put);
      ReplaceSkip(x, s, put);
      assert (x + y)[1..] == x[1..] + y;
      Cut(x[1..], y, s, put);
    }
  }

  lemma TooShort(t: seq<Mark>, s: string)
    requires |t| < |s|
    ensures !Occurs(t, s, 0)
  {
  }

  // ----- copies and losses -----

  ghost predicate NoCopies(t: seq<Mark>) {
    forall m :: multiset(t)[m] <= 1
  }

  /** A whole line end stands twice: this can never be undone. */
  ghost predicate Doubled(t: seq<Mark>) {
    exists m: Mark :: m.c == '\n' && multiset(t)[m] >= 2
  }

  ghost predicate Apart(t: seq<Mark>, u: seq<Mark>) {
    forall m :: m in t ==> m !in u
  }

  ghost predicate Tellable(t: seq<Mark>) {
    EndsLine(t) && (NoCopies(t) || Doubled(t))
  }

  /** Either nothing stands twice, or a line end does. */
  lemma StaysTellable(t: seq<Mark>, s: string, put: seq<Mark>)
    requires s != "" && '\n' !in s && Tellable(t) && Tellable(put) && Apart(t, put)
    ensures Tellable(ReplaceMarks(t, s, put))
    ensures Doubled(t) ==> Doubled(ReplaceMarks(t, s, put))
    ensures Doubled(put) && Hits(t, s) > 0 ==> Doubled(ReplaceMarks(t, s, put))
    ensures put != [] && Hits(t, s) > 1 ==> Doubled(ReplaceMarks(t, s, put))
  {
    hide Occurs, ReplaceMarks, Hits;
    Cut(t, [], s, put);
    var r := ReplaceMarks(t, s, put);
    var n := Hits(t, s);
    if Doubled(t) {
      var m: Mark :| m.c == '\n' && multiset(t)[m] >= 2;
      Counts(t, s, put, m);
    } else if n > 0 && Doubled(put) {
      var m: Mark :| m.c == '\n' && multiset(put)[m] >= 2;
      Counts(t, s, put, m);
      AtLeast(n, multiset(put)[m]);
    } else if n > 1 && put != [] {
      var m := put[|put| - 1];
      Counts(t, s, put, m);
      AtLeastTwice(n, multiset(put)[m]);
    } else {
      forall m ensures multiset(r)[m] <= 1 {
        Counts(t, s, put, m);
        if m in put { assert m !in t; }
      }
    }
  }

  lemma AtLeast(n: nat, c: nat)
    requires n > 0
    ensures n * c >= c
  {
    assert n * c == c + (n - 1) * c;
  }

  lemma AtLeastTwice(n: nat, c: nat)
    requires n > 1 && c > 0
    ensures n * c >= 2
  {
    assert n * c == 2 * c + (n - 2) * c;
  }

  /** Nothing comes from elsewhere. */
  lemma MarksFrom(t: seq<Mark>, s: string, put: seq<Mark>, m: Mark)
    requires s != "" && m in ReplaceMarks(t, s, put)
    ensures m in t || m in put
  {
    hide Occurs, ReplaceMarks, Hits;
    assert multiset(ReplaceMarks(t, s, put))[m] > 0;
    Counts(t, s, put, m);
    if m !in put { assert Hits(t, s) * multiset(put)[m] == 0; }
  }

  /** What the first occurrence covers is lost from a text without copies. */
  lemma FirstLost(t: seq<Mark>, s: string, q: int) returns (first: nat)
    requires s != "" && Occurs(t, s, q) && NoCopies(t)
    ensures first <= q && first + |s| <= |t| && Occurs(t, s, first)
    ensures forall i :: first <= i < first + |s| ==> t[i] !in ReplaceMarks(t, s, [])
    ensures ReplaceMarks(t, s, []) == t[..first] + ReplaceMarks(t[first + |s|..], s, [])
    ensures Hits(t, s) == 1 + Hits(t[first + |s|..], s)
  {
    hide ReplaceMarks, Occurs, Hits;
    first := FirstHit(t, s, [], q);
    forall i | first <= i < first + |s| ensures t[i] !in ReplaceMarks(t, s, []) {
      OnceOnly(t[..first], t[first..first + |s|], t[first + |s|..], t, t[first..first + |s|][i - first]);
      if t[i] in ReplaceMarks(t[first + |s|..], s, []) { MarksFrom(t[first + |s|..], s, [], t[i]); }
    }
  }

  lemma OnceOnly(x: seq<Mark>, here: seq<Mark>, y: seq<Mark>, t: seq<Mark>, m: Mark)
    requires NoCopies(t) && t == x + here + y && m in here
    ensures m !in x && m !in y
  {
    assert multiset(t)[m] == multiset(x)[m] + multiset(here)[m] + multiset(y)[m];
    assert multiset(here)[m] >= 1;
  }
}
