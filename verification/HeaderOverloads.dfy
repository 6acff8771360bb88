/** Function overloads: exported sorted, and rebuilt. */
module HeaderOverloads {
  import opened Options
  import opened HeaderTables

  /** An overload of a function: its extension, parameter types and return type. */
  datatype Overload = Overload(extension: string, parameters: seq<string>, result: string)

  function Join(ps: seq<string>, c: char): string {
    if ps == [] then "" else if |ps| == 1 then ps[0] else ps[0] + [c] + Join(ps[1..], c)
  }

  /** Python's `split` on one character. */
  function Split(s: string, c: char): (ps: seq<string>)
    ensures ps != []
    decreases |s|
  {
    if s == "" then [""]
    else if s[0] == c then [""] + Split(s[1..], c)
    else var ps := Split(s[1..], c); [[s[0]] + ps[0]] + ps[1..]
  }

  /** Python's `s[1:-1]`. */
  function Inner(s: string): string {
    if |s| < 2 then "" else s[1..|s| - 1]
  }

  function Signature(ps: seq<string>, result: string): string {
    "[" + Join(ps, ',') + "]>" + result
  }

  /** The signature as `create_map` reads it; None is an exception. */
  function ReadSignature(s: string): Option<(seq<string>, string)> {
    var splits := Split(s, '>');
    if |splits| < 2 then None else Some((Split(Inner(splits[0]), ','), splits[1]))
  }

  predicate Lacks(s: string, c: char) {
    forall k :: 0 <= k < |s| ==> s[k] != c
  }

  /** What a signature can carry: at least one parameter, no ',' or '>' in a parameter, no '>' in the result. */
  predicate Carried(o: Overload) {
    && o.parameters != []
    && Lacks(o.result, '>')
    && forall k :: 0 <= k < |o.parameters| ==> Lacks(o.parameters[k], ',') && Lacks(o.parameters[k], '>')
  }

  lemma {:induction false} SplitLacks(s: string, c: char)
    ensures forall k :: 0 <= k < |Split(s, c)| ==> Lacks(Split(s, c)[k], c)
    decreases |s|
  {
    if s != "" { SplitLacks(s[1..], c); }
  }

  /** Pieces hold only characters of the whole. */
  lemma {:induction false} SplitKeepsLacking(s: string, c: char, d: char)
    requires Lacks(s, d)
    ensures forall k :: 0 <= k < |Split(s, c)| ==> Lacks(Split(s, c)[k], d)
    decreases |s|
  {
    if s != "" { SplitKeepsLacking(s[1..], c, d); }
  }

  lemma {:induction false} SplitWhole(s: string, c: char)
    requires Lacks(s, c)
    ensures Split(s, c) == [s]
    decreases |s|
  {
    if s != "" {
      SplitWhole(s[1..], c);
      assert [s[0]] + s[1..] == s;
    }
  }

  lemma {:induction false} SplitFirst(a: string, c: char, b: string)
    requires Lacks(a, c)
    ensures Split(a + [c] + b, c) == [a] + Split(b, c)
    decreases |a|
  {
    var s := a + [c] + b;
    if a == "" {
      assert s[1..] == b;
    } else {
      assert s[1..] == a[1..] + [c] + b;
      SplitFirst(a[1..], c, b);
      assert [a[0]] + a[1..] == a;
      assert ([a[1..]] + Split(b, c))[1..] == Split(b, c);
    }
  }

  lemma {:induction false} SplitJoined(ps: seq<string>, c: char)
    requires ps != [] && forall k :: 0 <= k < |ps| ==> Lacks(ps[k], c)
    ensures Split(Join(ps, c), c) == ps
    decreases |ps|
  {
    if |ps| == 1 {
      SplitWhole(ps[0], c);
    } else {
      SplitFirst(ps[0], c, Join(ps[1..], c));
      SplitJoined(ps[1..], c);
      assert ps == [ps[0]] + ps[1..];
    }
  }

  lemma {:induction false} JoinLacks(ps: seq<string>, c: char, d: char)
    requires c != d && forall k :: 0 <= k < |ps| ==> Lacks(ps[k], d)
    ensures Lacks(Join(ps, c), d)
    decreases |ps|
  {
    if |ps| > 1 { JoinLacks(ps[1..], c, d); }
  }

  /** A signature reads back as its parts exactly when it can carry them. */
  lemma SignatureRoundTrip(o: Overload)
    ensures ReadSignature(Signature(o.parameters, o.result)) == Some((o.parameters, o.result)) <==> Carried(o)
  {
    var s := Signature(o.parameters, o.result);
    var joined := Join(o.parameters, ',');
    SplitLacks(s, '>');
    SplitLacks(Inner(Split(s, '>')[0]), ',');
    SplitKeepsLacking(Inner(Split(s, '>')[0]), ',', '>');
    if Carried(o) {
      JoinLacks(o.parameters, ',', '>');
      var head := "[" + joined + "]";
      assert s == head + ['>'] + o.result;
      SplitFirst(head, '>', o.result);
      SplitWhole(o.result, '>');
      assert Inner(head) == joined;
      SplitJoined(o.parameters, ',');
    }
  }

  lemma SignatureSplits(ps: seq<string>, result: string)
    ensures ReadSignature(Signature(ps, result)).Some?
  {
    assert Signature(ps, result) == ("[" + Join(ps, ',') + "]") + (['>'] + result);
    SplitCount("[" + Join(ps, ',') + "]", '>', result);
  }

  lemma {:induction false} SplitCount(a: string, c: char, b: string)
    ensures |Split(a + ([c] + b), c)| >= 2
    decreases |a|
  {
    var s := a + ([c] + b);
    if a == "" {
      assert s[1..] == b;
    } else {
      assert s[1..] == a[1..] + ([c] + b);
      SplitCount(a[1..], c, b);
    }
  }

  // ----- Python's order of overloads -----

  /** Code point by code point. */
  predicate TextLeq(a: string, b: string) {
    if a == "" then true
    else if b == "" then false
    else if a[0] == b[0] then TextLeq(a[1..], b[1..])
    else a[0] < b[0]
  }

  predicate ListLeq(a: seq<string>, b: seq<string>) {
    if a == [] then true
    else if b == [] then false
    else if a[0] == b[0] then ListLeq(a[1..], b[1..])
    else TextLeq(a[0], b[0])
  }

  /** Tuples are compared field by field; name and type are those of the function for all its overloads. */
  predicate OverloadLeq(a: Overload, b: Overload) {
    if a.extension != b.extension then TextLeq(a.extension, b.extension)
    else if a.parameters != b.parameters then ListLeq(a.parameters, b.parameters)
    else TextLeq(a.result, b.result)
  }

  lemma {:induction false} TextOrder(a: string, b: string, c: string)
    ensures TextLeq(a, b) || TextLeq(b, a)
    ensures TextLeq(a, b) && TextLeq(b, a) ==> a == b
    ensures TextLeq(a, b) && TextLeq(b, c) ==> TextLeq(a, c)
    decreases |a|
  {
    if a != "" {
      assert a == [a[0]] + a[1..];
      if b != "" {
        assert b == [b[0]] + b[1..];
        TextOrder(a[1..], b[1..], if c != "" then c[1..] else "");
      }
    }
  }

  lemma {:induction false} ListOrder(a: seq<string>, b: seq<string>, c: seq<string>)
    ensures ListLeq(a, b) || ListLeq(b, a)
    ensures ListLeq(a, b) && ListLeq(b, a) ==> a == b
    ensures ListLeq(a, b) && ListLeq(b, c) ==> ListLeq(a, c)
    decreases |a|
  {
    hide TextLeq;
    if a != [] {
      assert a == [a[0]] + a[1..];
      if b != [] {
        assert b == [b[0]] + b[1..];
        var c0 := if c != [] then c[0] else "";
        TextOrder(a[0], b[0], c0);
        TextOrder(b[0], a[0], c0);
        TextOrder(b[0], c0, a[0]);
        ListOrder(a[1..], b[1..], if c != [] then c[1..] else []);
      }
    }
  }

  /** The order is total. */
  lemma OverloadOrder(a: Overload, b: Overload, c: Overload)
    ensures OverloadLeq(a, a)
    ensures OverloadLeq(a, b) || OverloadLeq(b, a)
    ensures OverloadLeq(a, b) && OverloadLeq(b, a) ==> a == b
    ensures OverloadLeq(a, b) && OverloadLeq(b, c) ==> OverloadLeq(a, c)
  {
    hide TextLeq, ListLeq;
    TextOrder(a.extension, b.extension, c.extension);
    TextOrder(b.extension, c.extension, a.extension);
    ListOrder(a.parameters, b.parameters, c.parameters);
    ListOrder(b.parameters, c.parameters, a.parameters);
    TextOrder(a.result, b.result, c.result);
    TextOrder(a.result, a.result, c.result);
  }

  /** Texts are in the order of a dictionary. */
  lemma {:induction false} DictionaryOrder(a: string, b: string)
    ensures TextLeq(a, b) <==> a <= b || exists n :: 0 <= n < |a| && n < |b| && a[..n] == b[..n] && a[n] < b[n]
    decreases |a|
  {
    if a != "" && b != "" && a[0] == b[0] {
      DictionaryOrder(a[1..], b[1..]);
      assert a == [a[0]] + a[1..] && b == [b[0]] + b[1..];
      if a[1..] <= b[1..] { assert a <= b; }
      if n :| 0 <= n < |a[1..]| && n < |b[1..]| && a[1..][..n] == b[1..][..n] && a[1..][n] < b[1..][n] {
        assert a[..n + 1] == [a[0]] + a[1..][..n] && b[..n + 1] == [b[0]] + b[1..][..n];
        assert a[n + 1] < b[n + 1];
      }
      if n :| 0 <= n < |a| && n < |b| && a[..n] == b[..n] && a[n] < b[n] {
        assert n > 0;
        assert a[1..][..n - 1] == a[..n][1..] && b[1..][..n - 1] == b[..n][1..];
        assert a[1..][n - 1] < b[1..][n - 1];
      }
    } else if a != "" && b != "" {
      assert a[..0] == b[..0];
      if n :| 0 <= n < |a| && n < |b| && a[..n] == b[..n] && a[n] < b[n] {
        if n > 0 { assert a[..n][0] == b[..n][0]; }
      }
    }
  }

  /** Lists are in the order of their first different elements. */
  lemma {:induction false} ListsInOrder(a: seq<string>, b: seq<string>, n: nat)
    requires n <= |a| && n <= |b| && a[..n] == b[..n]
    ensures n == |a| ==> ListLeq(a, b)
    ensures n == |b| < |a| ==> !ListLeq(a, b)
    ensures n < |a| && n < |b| && a[n] != b[n] ==> (ListLeq(a, b) <==> TextLeq(a[n], b[n]))
    decreases n
  {
    if n > 0 {
      assert a[0] == a[..n][0] == b[..n][0] == b[0];
      assert a[1..][..n - 1] == a[..n][1..] == b[..n][1..] == b[1..][..n - 1];
      ListsInOrder(a[1..], b[1..], n - 1);
    }
  }

  /** Overloads are ordered by extension, then by parameters, then by result. */
  lemma OverloadsInOrder(a: Overload, b: Overload)
    ensures a.extension != b.extension ==> (OverloadLeq(a, b) <==> TextLeq(a.extension, b.extension))
    ensures a.extension == b.extension && a.parameters != b.parameters ==>
              (OverloadLeq(a, b) <==> ListLeq(a.parameters, b.parameters))
    ensures a.extension == b.extension && a.parameters == b.parameters ==>
              (OverloadLeq(a, b) <==> TextLeq(a.result, b.result))
  {
  }

  predicate InOrder(os: seq<Overload>) {
    forall j, k :: 0 <= j < k < |os| ==> OverloadLeq(os[j], os[k])
  }

  function Inserted(o: Overload, os: seq<Overload>): (r: seq<Overload>)
    ensures multiset(r) == multiset(os) + multiset{o}
  {
    if os == [] then [o]
    else if OverloadLeq(o, os[0]) then
      assert [o] + os == [o] + os;
      [o] + os
    else
      assert os == [os[0]] + os[1..];
      [os[0]] + Inserted(o, os[1..])
  }

  /** `sorted`. */
  function Sorted(os: seq<Overload>): (r: seq<Overload>)
    ensures multiset(r) == multiset(os)
  {
    if os == [] then []
    else
      assert os == [os[0]] + os[1..];
      Inserted(os[0], Sorted(os[1..]))
  }

  lemma {:induction false} InsertedOrder(o: Overload, os: seq<Overload>)
    requires InOrder(os)
    ensures InOrder(Inserted(o, os))
    decreases |os|
  {
    hide OverloadLeq;
    if os != [] {
      OverloadOrder(o, os[0], os[0]);
      if OverloadLeq(o, os[0]) {
        forall k | 1 <= k < |os| ensures OverloadLeq(o, os[k]) { OverloadOrder(o, os[0], os[k]); }
      } else {
        InsertedOrder(o, os[1..]);
        var rest := Inserted(o, os[1..]);
        forall k | 0 <= k < |rest| ensures OverloadLeq(os[0], rest[k]) {
          assert rest[k] in multiset(rest);
          if rest[k] != o { assert rest[k] in multiset(os[1..]) && rest[k] in os[1..]; }
        }
      }
    }
  }

  lemma {:induction false} SortedInOrder(os: seq<Overload>)
    ensures InOrder(Sorted(os))
    decreases |os|
  {
    if os != [] {
      SortedInOrder(os[1..]);
      InsertedOrder(os[0], Sorted(os[1..]));
    }
  }

  lemma SameElements(a: seq<Overload>, b: seq<Overload>)
    requires multiset(a) == multiset(b)
    ensures |a| == |b| && forall o :: o in a <==> o in b
  {
    assert |multiset(a)| == |a| && |multiset(b)| == |b|;
    assert forall o :: o in a <==> o in multiset(a);
    assert forall o :: o in b <==> o in multiset(b);
  }

  lemma TailElements(os: seq<Overload>)
    requires os != []
    ensures multiset(os[1..]) == multiset(os) - multiset{os[0]}
    ensures InOrder(os) ==> InOrder(os[1..])
  {
    assert os == [os[0]] + os[1..];
  }

  /** There is one sorted arrangement: a list is its own sorted list exactly when it is in order. */
  lemma {:induction false} OneArrangement(a: seq<Overload>, b: seq<Overload>)
    requires InOrder(a) && InOrder(b) && multiset(a) == multiset(b)
    ensures a == b
    decreases |a|
  {
    hide OverloadLeq, InOrder;
    SameElements(a, b);
    if a != [] {
      assert b[0] in a && a[0] in b;
      FirstLeast(a, b[0]);
      FirstLeast(b, a[0]);
      OverloadOrder(a[0], b[0], b[0]);
      TailElements(a);
      TailElements(b);
      OneArrangement(a[1..], b[1..]);
      assert a == [a[0]] + a[1..] && b == [b[0]] + b[1..];
    }
  }

  lemma FirstLeast(os: seq<Overload>, o: Overload)
    requires InOrder(os) && o in os
    ensures OverloadLeq(os[0], o)
  {
    OverloadOrder(o, o, o);
    var k :| 0 <= k < |os| && os[k] == o;
  }

  lemma SortedExactly(os: seq<Overload>)
    ensures Sorted(os) == os <==> InOrder(os)
  {
    SortedInOrder(os);
    if InOrder(os) { OneArrangement(Sorted(os), os); }
  }

  // ----- the overload table -----

  function OverloadRow(f: Function, o: Overload): seq<Field> {
    [Quoted(f.name), Quoted(o.extension), Type(f.t), Quoted(Signature(o.parameters, o.result))]
  }

  function OverloadRows(f: Function, os: seq<Overload>): (rows: seq<seq<Field>>)
    ensures |rows| == |os| && IsTable(rows)
    ensures forall k :: 0 <= k < |os| ==> rows[k] == OverloadRow(f, os[k])
  {
    seq(|os|, k requires 0 <= k < |os| => OverloadRow(f, os[k]))
  }

  function OverloadTable(m: map<Function, seq<Overload>>, order: seq<Function>): (table: seq<seq<Field>>)
    requires forall f :: f in order ==> f in m
    ensures IsTable(table)
  {
    if order == [] then []
    else OverloadTable(m, order[..|order| - 1]) + OverloadRows(order[|order| - 1], Sorted(m[order[|order| - 1]]))
  }

  /** `export_function_overloads`: the functions in the given order, the overloads of each sorted. */
  method ExportOverloads(function_overloads: map<Function, seq<Overload>>, sorted_function: seq<Function>)
    returns (result: string)
    requires forall f :: f in sorted_function ==> f in function_overloads
    ensures result == "\nstatic constexpr ExtensionFunctionOverloadEntry "
                      + TableText("EXTENSION_FUNCTION_OVERLOADS", OverloadTable(function_overloads, sorted_function))
                      + ("END_OF_" + "EXTENSION_FUNCTION_OVERLOADS" + "\n")
  {
    hide RowsText, Sorted;
    result := OVERLOAD_HEAD + OVERLOADS + OPEN;
    ghost var opening := result;
    NoRowsText();
    assert result + "" == result;
    for k := 0 to |sorted_function|
      invariant result == opening + RowsText(OverloadTable(function_overloads, sorted_function[..k]))
    {
      var f := sorted_function[k];
      var overloads := Sorted(function_overloads[f]);
      ghost var before, rows := result, OverloadRows(f, overloads);
      result := ExportOverloadsOf(f, overloads, result);
      assert sorted_function[..k + 1][..k] == sorted_function[..k];
      ghost var table := OverloadTable(function_overloads, sorted_function[..k]);
      RowsTextConcat(table, rows);
      Associates3(opening, RowsText(table), RowsText(rows));
    }
    assert sorted_function[..|sorted_function|] == sorted_function;
    result := result + (CLOSE + END + OVERLOADS + "\n");
    ExportShape(OVERLOAD_HEAD, OVERLOADS, OPEN, RowsText(OverloadTable(function_overloads, sorted_function)), CLOSE,
                END + OVERLOADS + "\n");
    Associates3(CLOSE, END + OVERLOADS, "\n");
    Associates3(CLOSE, END, OVERLOADS);
  }

  method ExportOverloadsOf(f: Function, overloads: seq<Overload>, before: string) returns (result: string)
    ensures result == before + RowsText(OverloadRows(f, overloads))
  {
    hide RowsText, RowText, Signature, TypeText;
    ghost var rows := OverloadRows(f, overloads);
    result := before;
    NoRowsText();
    assert rows[..0] == [] && before + "" == before;
    for k := 0 to |overloads|
      invariant result == before + RowsText(rows[..k])
    {
      var overload := overloads[k];
      ghost var start := result;
      result := result + "\t{";
      result := result + ("\"" + f.name + "\", \"" + overload.extension + "\", " + TypeText(f.t) + ", \"");
      result := result + Signature(overload.parameters, overload.result);
      result := result + "\"},\n";
      OverloadRowText(start, f, overload);
      assert rows[..k + 1] == rows[..k] + [rows[k]];
      RowsTextConcat(rows[..k], [rows[k]]);
      OneRowText(rows[k]);
      Associates3(before, RowsText(rows[..k]), RowText(rows[k]));
    }
    assert rows[..|rows|] == rows;
  }

  lemma OverloadRowText(before: string, f: Function, o: Overload)
    ensures before + "\t{" + ("\"" + f.name + "\", \"" + o.extension + "\", " + TypeText(f.t) + ", \"")
              + Signature(o.parameters, o.result) + "\"},\n"
         == before + RowText(OverloadRow(f, o))
  {
    hide TypeText, Signature;
    var row, s := OverloadRow(f, o), Signature(o.parameters, o.result);
    assert row[1..] == [row[1], row[2], row[3]] && row[1..][1..] == [row[2], row[3]] && row[2..][1..] == [row[3]]
           && row[3..][1..] == [];
    assert MoreFields([row[3]]) == ", " + FieldText(row[3]) + MoreFields([]);
    assert MoreFields([row[2], row[3]]) == ", " + FieldText(row[2]) + MoreFields([row[3]])
           by { assert [row[2], row[3]][1..] == [row[3]]; }
    assert MoreFields(row[1..]) == ", " + FieldText(row[1]) + MoreFields([row[2], row[3]]);
    OverloadRowShape(before, f.name, o.extension, TypeText(f.t), s);
  }

  lemma OverloadRowShape(before: string, name: string, extension: string, t: string, s: string)
    ensures before + "\t{" + ("\"" + name + "\", \"" + extension + "\", " + t + ", \"") + s + "\"},\n"
         == before + ("\t{" + ("\"" + name + "\"") + (", " + ("\"" + extension + "\"")
                                                      + (", " + t + (", " + ("\"" + s + "\"") + ""))) + "},\n")
  {
  }

  /** `ExtensionFunctionOverload.create_map` on the records read. */
  function OverloadMap(records: seq<seq<string>>): Option<map<Function, seq<Overload>>> {
    if records == [] then Some(map[])
    else
      match OverloadMap(records[..|records| - 1])
      case None => None
      case Some(m) => AddOverload(m, records[|records| - 1])
  }

  function AddOverload(m: map<Function, seq<Overload>>, x: seq<string>): Option<map<Function, seq<Overload>>> {
    if |x| < 4 then None
    else
      match (TypeFromText(x[2]), ReadSignature(x[3]))
      case (Some(t), Some((ps, r))) =>
        var f := Function(x[0], t);
        Some(m[f := (if f in m then m[f] else []) + [Overload(x[1], ps, r)]])
      case _ => None
  }

  method CreateOverloadMap(records: seq<seq<string>>) returns (r: Option<map<Function, seq<Overload>>>)
    ensures r == OverloadMap(records)
  {
    hide AddOverload;
    var output: map<Function, seq<Overload>> := map[];
    for k := 0 to |records|
      invariant OverloadMap(records[..k]) == Some(output)
    {
      assert records[..k + 1][..k] == records[..k];
      var added := AddOverload(output, records[k]);
      if added.None? {
        OverloadFailureStays(records, k + 1);
        return None;
      }
      output := added.value;
    }
    assert records[..|records|] == records;
    r := Some(output);
  }

  lemma {:induction false} OverloadFailureStays(records: seq<seq<string>>, k: nat)
    requires k <= |records| && OverloadMap(records[..k]).None?
    ensures OverloadMap(records).None?
    decreases |records|
  {
    hide AddOverload;
    if k == |records| {
      assert records[..k] == records;
    } else {
      var front := records[..|records| - 1];
      assert front[..k] == records[..k];
      OverloadFailureStays(front, k);
    }
  }

  // ----- what a row brings back -----

  /** White space at the end of a text behind something else goes, and the rest stays. */
  lemma {:induction false} StripRightBehind(a: string, r: string)
    requires a != "" && !IsSpace(a[|a| - 1])
    ensures StripRight(a + r) == a + StripRight(r)
    decreases |r|
  {
    if r == "" {
      assert a + r == a && a + "" == a;
    } else {
      assert (a + r)[..|a + r| - 1] == a + r[..|r| - 1];
      if IsSpace(r[|r| - 1]) { StripRightBehind(a, r[..|r| - 1]); }
    }
  }

  lemma StripSignature(ps: seq<string>, result: string)
    ensures Strip(Signature(ps, result)) == Signature(ps, StripRight(result))
  {
    var head := "[" + Join(ps, ',') + "]>";
    assert Signature(ps, result) == head + result && head[0] == '[' && head[|head| - 1] == '>';
    assert StripLeft(head + result) == head + result;
    StripRightBehind(head, result);
  }

  lemma {:induction false} StripRightTwice(s: string)
    ensures StripRight(StripRight(s)) == StripRight(s)
    ensures forall c :: Lacks(s, c) ==> Lacks(StripRight(s), c)
    decreases |s|
  {
    if s != "" && IsSpace(s[|s| - 1]) { StripRightTwice(s[..|s| - 1]); }
  }

  /** An overload as it comes back from its row. */
  function Reread(o: Overload): Overload {
    SignatureSplits(o.parameters, StripRight(o.result));
    var (ps, r) := ReadSignature(Signature(o.parameters, StripRight(o.result))).value;
    Overload(o.extension, ps, r)
  }

  function RereadAll(os: seq<Overload>): (rs: seq<Overload>)
    ensures |rs| == |os| && forall k :: 0 <= k < |os| ==> rs[k] == Reread(os[k])
  {
    seq(|os|, k requires 0 <= k < |os| => Reread(os[k]))
  }

  predicate NoTrailingSpace(o: Overload) {
    StripRight(o.result) == o.result
  }

  /** Whatever is read can be carried; what can be carried only loses white space at its end. */
  lemma RereadCarried(o: Overload)
    ensures Carried(Reread(o))
    ensures Carried(o) ==> Reread(o) == o.(result := StripRight(o.result)) && NoTrailingSpace(Reread(o))
    ensures Reread(o) == o <==> Carried(o) && NoTrailingSpace(o)
  {
    hide Signature, ReadSignature, Carried;
    var stripped := o.(result := StripRight(o.result));
    SignatureSplits(o.parameters, stripped.result);
    PiecesCarried(Signature(o.parameters, stripped.result));
    StripRightTwice(o.result);
    CarriedStripped(o);
    SignatureRoundTrip(stripped);
  }

  lemma CarriedStripped(o: Overload)
    requires forall c :: Lacks(o.result, c) ==> Lacks(StripRight(o.result), c)
    ensures Carried(o) ==> Carried(o.(result := StripRight(o.result)))
  {
  }

  lemma PiecesCarried(s: string)
    requires ReadSignature(s).Some?
    ensures var (ps, r) := ReadSignature(s).value; forall extension :: Carried(Overload(extension, ps, r))
  {
    SplitLacks(s, '>');
    SplitLacks(Inner(Split(s, '>')[0]), ',');
    SplitKeepsLacking(Inner(Split(s, '>')[0]), ',', '>');
  }

  lemma RowAdds(m: map<Function, seq<Overload>>, f: Function, o: Overload)
    requires Good(f.name) && Good(o.extension)
    ensures AddOverload(m, Tokens(OverloadRow(f, o))) == Some(m[f := (if f in m then m[f] else []) + [Reread(o)]])
  {
    hide TypeText, TypeFromText, ReadSignature, Signature, Strip, Good, StripRight;
    SignatureSplits(o.parameters, StripRight(o.result));
    StripSignature(o.parameters, o.result);
    StripGood(f.name);
    StripGood(o.extension);
    TypeRead(f.t);
    TypeIsGood(f.t);
    StripGood(TypeText(f.t));
    var x := Tokens(OverloadRow(f, o));
    assert x[0] == f.name && x[1] == o.extension && x[2] == TypeText(f.t);
    assert x[3] == Signature(o.parameters, StripRight(o.result));
  }

  predicate GoodExtensions(os: seq<Overload>) {
    forall k :: 0 <= k < |os| ==> Good(os[k].extension)
  }

  lemma {:induction false} RowsAdd(before: seq<seq<string>>, f: Function, os: seq<Overload>)
    requires OverloadMap(before).Some? && f !in OverloadMap(before).value && Good(f.name) && GoodExtensions(os)
    ensures OverloadMap(before + AllTokens(OverloadRows(f, os))) ==
              Some(if os == [] then OverloadMap(before).value else OverloadMap(before).value[f := RereadAll(os)])
    decreases |os|
  {
    hide AddOverload, OverloadMap, Reread, Tokens, OverloadRow, Good;
    var rows := AllTokens(OverloadRows(f, os));
    if os == [] {
      assert before + rows == before;
    } else {
      var n := |os| - 1;
      var front := os[..n];
      RowsAdd(before, f, front);
      var all := before + rows;
      assert rows == AllTokens(OverloadRows(f, front)) + [Tokens(OverloadRow(f, os[n]))];
      assert all[..|all| - 1] == before + AllTokens(OverloadRows(f, front));
      assert all[|all| - 1] == Tokens(OverloadRow(f, os[n]));
      var m := OverloadMap(all[..|all| - 1]).value;
      RowAdds(m, f, os[n]);
      OverloadMapStep(all);
      assert RereadAll(os) == RereadAll(front) + [Reread(os[n])];
      assert (if f in m then m[f] else []) == RereadAll(front);
      assert m[f := RereadAll(os)] == OverloadMap(before).value[f := RereadAll(os)];
    }
  }

  lemma OverloadMapStep(records: seq<seq<string>>)
    requires records != [] && OverloadMap(records[..|records| - 1]).Some?
    ensures OverloadMap(records) == AddOverload(OverloadMap(records[..|records| - 1]).value, records[|records| - 1])
  {
    hide AddOverload;
  }

  lemma TokensConcat(a: seq<seq<Field>>, b: seq<seq<Field>>)
    ensures AllTokens(a + b) == AllTokens(a) + AllTokens(b)
  {
    hide Tokens;
  }

  /** Names that come back as they are: those of the functions and of the extensions. */
  predicate GoodNames(m: map<Function, seq<Overload>>) {
    forall f :: f in m ==> (m[f] != [] ==> Good(f.name)) && GoodExtensions(m[f])
  }

  ghost function ReadBack(m: map<Function, seq<Overload>>, order: seq<Function>): map<Function, seq<Overload>>
    requires forall f :: f in order ==> f in m
  {
    map f | f in order && m[f] != [] :: RereadAll(Sorted(m[f]))
  }

  lemma SortedSize(os: seq<Overload>)
    ensures |Sorted(os)| == |os| && (GoodExtensions(os) ==> GoodExtensions(Sorted(os)))
    ensures forall o :: o in Sorted(os) <==> o in os
  {
    hide Sorted, Good;
    var sorted := Sorted(os);
    SameElements(sorted, os);
    if GoodExtensions(os) {
      forall k | 0 <= k < |sorted| ensures Good(sorted[k].extension) {
        assert sorted[k] in os;
      }
    }
  }

  /** The overload table reads as the map of the functions that have overloads. */
  lemma {:induction false} OverloadsRead(m: map<Function, seq<Overload>>, order: seq<Function>)
    requires (forall f :: f in order ==> f in m) && GoodNames(m)
    requires forall j, k :: 0 <= j < k < |order| ==> order[j] != order[k]
    ensures OverloadMap(AllTokens(OverloadTable(m, order))) == Some(ReadBack(m, order))
    decreases |order|
  {
    hide AllTokens, OverloadRows, RereadAll, OverloadMap, Good, Sorted;
    if order == [] {
      NoOverloads();
    } else {
      var n := |order| - 1;
      var front, f := order[..n], order[n];
      OverloadsRead(m, front);
      SortedSize(m[f]);
      TokensConcat(OverloadTable(m, front), OverloadRows(f, Sorted(m[f])));
      ReadMore(m, order);
      if m[f] == [] {
        assert Sorted(m[f]) == [];
        NoRows(f);
        assert AllTokens(OverloadTable(m, front)) + [] == AllTokens(OverloadTable(m, front));
      } else {
        RowsAdd(AllTokens(OverloadTable(m, front)), f, Sorted(m[f]));
      }
    }
  }

  lemma NoRows(f: Function)
    ensures AllTokens(OverloadRows(f, [])) == []
  {
  }

  lemma ReadMore(m: map<Function, seq<Overload>>, order: seq<Function>)
    requires order != [] && forall f :: f in order ==> f in m
    requires forall j :: 0 <= j < |order| - 1 ==> order[j] != order[|order| - 1]
    ensures var n := |order| - 1;
            var before := ReadBack(m, order[..n]);
            && order[n] !in before
            && ReadBack(m, order) ==
                 if m[order[n]] == [] then before else before[order[n] := RereadAll(Sorted(m[order[n]]))]
  {
    hide RereadAll, Sorted;
    var n := |order| - 1;
    assert order == order[..n] + [order[n]];
  }

  lemma NoOverloads()
    ensures OverloadMap(AllTokens([])) == Some(map[])
  {
  }

  predicate HasRows(m: map<Function, seq<Overload>>, order: seq<Function>) {
    exists f :: f in order && f in m && m[f] != []
  }

  lemma {:induction false} RowsExist(m: map<Function, seq<Overload>>, order: seq<Function>)
    requires forall f :: f in order ==> f in m
    ensures OverloadTable(m, order) != [] <==> HasRows(m, order)
    decreases |order|
  {
    hide Sorted, OverloadRow;
    if order != [] {
      var n := |order| - 1;
      var f := order[n];
      RowsExist(m, order[..n]);
      assert order == order[..n] + [f];
      SortedSize(m[f]);
      assert |OverloadRows(f, Sorted(m[f]))| == |m[f]|;
    }
  }

  // ----- whatever is read back has good names and no quotes -----

  /** Texts that can stand in a quoted signature. */
  predicate Quotable(o: Overload) {
    QuoteFree(o.result) && forall k :: 0 <= k < |o.parameters| ==> QuoteFree(o.parameters[k])
  }

  predicate Clean(f: Function, os: seq<Overload>) {
    Good(f.name) && os != [] && forall k :: 0 <= k < |os| ==> Good(os[k].extension) && Quotable(os[k])
  }

  lemma PiecesQuotable(s: string, extension: string)
    requires QuoteFree(s) && ReadSignature(s).Some?
    ensures var (ps, r) := ReadSignature(s).value; Quotable(Overload(extension, ps, r))
  {
    SplitKeepsLacking(s, '>', '"');
    SplitKeepsLacking(Inner(Split(s, '>')[0]), ',', '"');
  }

  lemma AddedClean(m: map<Function, seq<Overload>>, x: seq<string>)
    requires (forall f :: f in m ==> Clean(f, m[f])) && GoodTokens(x)
    ensures AddOverload(m, x).Some? ==> forall f ::
              f in AddOverload(m, x).value ==> Clean(f, AddOverload(m, x).value[f])
  {
    hide Good, Quotable, ReadSignature, TypeFromText;
    if AddOverload(m, x).Some? {
      GoodQuoteFree(x[3]);
      PiecesQuotable(x[3], x[1]);
    }
  }

  lemma GoodQuoteFree(s: string)
    requires Good(s)
    ensures QuoteFree(s)
  {
  }

  lemma {:induction false} ReadClean(records: seq<seq<string>>)
    requires forall r :: 0 <= r < |records| ==> GoodTokens(records[r])
    ensures OverloadMap(records).Some? ==> forall f ::
              f in OverloadMap(records).value ==> Clean(f, OverloadMap(records).value[f])
    decreases |records|
  {
    hide AddOverload, Clean, GoodTokens;
    if records != [] {
      ReadClean(records[..|records| - 1]);
      var before := OverloadMap(records[..|records| - 1]);
      if before.Some? { AddedClean(before.value, records[|records| - 1]); }
    }
  }

  lemma {:induction false} JoinQuoteFree(ps: seq<string>)
    requires forall k :: 0 <= k < |ps| ==> QuoteFree(ps[k])
    ensures QuoteFree(Join(ps, ','))
    decreases |ps|
  {
    if |ps| > 1 { JoinQuoteFree(ps[1..]); }
  }

  lemma RowPlain(f: Function, o: Overload)
    requires Good(f.name) && Good(o.extension) && Quotable(o)
    ensures PlainRow(OverloadRow(f, o))
  {
    hide Strip, TypeText;
    JoinQuoteFree(o.parameters);
    StripGood(f.name);
    StripGood(o.extension);
    StripSignature(o.parameters, o.result);
    assert QuoteFree(Signature(o.parameters, o.result));
  }

  lemma {:induction false} TablePlain(m: map<Function, seq<Overload>>, order: seq<Function>)
    requires forall f :: f in order ==> f in m && Clean(f, m[f])
    ensures PlainTable(OverloadTable(m, order))
    decreases |order|
  {
    hide PlainRow, OverloadRow, Good, Quotable, Sorted;
    if order != [] {
      var n := |order| - 1;
      TablePlain(m, order[..n]);
      var f := order[n];
      SortedSize(m[f]);
      forall k | 0 <= k < |Sorted(m[f])| ensures PlainRow(OverloadRow(f, Sorted(m[f])[k])) {
        var o := Sorted(m[f])[k];
        assert o in m[f];
        RowPlain(f, o);
      }
    }
  }

  // ----- the round trip -----

  /** A sorted list comes back as the list itself exactly when that is in order and every overload survives. */
  lemma ListReread(os: seq<Overload>)
    ensures RereadAll(Sorted(os)) == os <==> InOrder(os) && forall k ::
              0 <= k < |os| ==> Carried(os[k]) && NoTrailingSpace(os[k])
  {
    hide Reread, Carried, OverloadLeq, NoTrailingSpace, Sorted;
    SortedExactly(os);
    SortedSize(os);
    var sorted := Sorted(os);
    forall k | 0 <= k < |os| ensures Carried(RereadAll(sorted)[k]) { RereadCarried(sorted[k]); }
    if RereadAll(sorted) == os {
      assert forall o :: o in os ==> Carried(o);
      forall k | 0 <= k < |os| ensures NoTrailingSpace(os[k]) && Carried(sorted[k]) {
        assert sorted[k] in os;
        RereadCarried(sorted[k]);
      }
      forall k | 0 <= k < |os| ensures Reread(sorted[k]) == sorted[k] {
        assert sorted[k] in os;
        RereadCarried(sorted[k]);
      }
      assert sorted == os;
    }
    if InOrder(os) && forall k :: 0 <= k < |os| ==> Carried(os[k]) && NoTrailingSpace(os[k]) {
      forall k | 0 <= k < |os| ensures Reread(os[k]) == os[k] { RereadCarried(os[k]); }
    }
  }

  /** What can be exported and read back: good names, texts without quotes, signatures that carry their parts, no white
      space at the end of a result type. */
  predicate Exportable(f: Function, os: seq<Overload>) {
    && Clean(f, os)
    && forall k :: 0 <= k < |os| ==> Carried(os[k]) && NoTrailingSpace(os[k])
  }

  lemma ReadSame(m: map<Function, seq<Overload>>, order: seq<Function>)
    requires Enumerates(order, m) && forall f :: f in m ==> Clean(f, m[f])
    ensures ReadBack(m, order) == m <==> forall f :: f in m ==> Exportable(f, m[f]) && InOrder(m[f])
  {
    hide RereadAll, Clean, Carried, NoTrailingSpace, InOrder, Sorted;
    forall f | f in m ensures m[f] != [] && (RereadAll(Sorted(m[f])) == m[f] <==> Exportable(f, m[f]) && InOrder(m[f]))
    {
      CleanSome(f, m[f]);
      ListReread(m[f]);
    }
    var read := ReadBack(m, order);
    if read == m {
      forall f | f in m ensures RereadAll(Sorted(m[f])) == m[f] { assert f in read; }
    }
    if forall f :: f in m ==> Exportable(f, m[f]) && InOrder(m[f]) {
      assert forall f :: f in m ==> f in read && read[f] == m[f];
    }
  }

  lemma CleanSome(f: Function, os: seq<Overload>)
    requires Clean(f, os)
    ensures os != [] && Good(f.name) && GoodExtensions(os)
  {
  }

  lemma EmptyOverloadFails()
    ensures OverloadMap([[]]) == None
  {
    var none: seq<string> := [];
    assert [none][..0] == [];
  }

  /** Exporting overloads and reading them back gives them exactly when there are any, every function has some, they are
      in order and can be exported. */
  lemma OverloadsRoundTrip(m: map<Function, seq<Overload>>, order: seq<Function>)
    requires Enumerates(order, m)
    ensures OverloadMap(Records(TableText(OVERLOADS, OverloadTable(m, order)))) == Some(m)
       <==> m != map[] && forall f :: f in m ==> Exportable(f, m[f]) && InOrder(m[f])
  {
    hide TableText, Records, OverloadMap, OverloadTable, Clean, InOrder, Carried, NoTrailingSpace, Good;
    var text := TableText(OVERLOADS, OverloadTable(m, order));
    FunctionsIsName();
    RecordsGood(text);
    ReadClean(Records(text));
    if m != map[] && forall f :: f in m ==> Clean(f, m[f]) {
      CleanReads(m, order);
      ReadSame(m, order);
    } else if m == map[] {
      EmptyOrder(m, order);
      assert OverloadTable(m, order) == [] by { RowsExist(m, order); }
      EmptyTableFed(OVERLOADS);
      EmptyOverloadFails();
    }
  }

  lemma CleanReads(m: map<Function, seq<Overload>>, order: seq<Function>)
    requires Enumerates(order, m) && m != map[] && forall f :: f in m ==> Clean(f, m[f])
    ensures OverloadMap(Records(TableText(OVERLOADS, OverloadTable(m, order)))) == Some(ReadBack(m, order))
  {
    hide TableText, Records, OverloadMap, OverloadTable, Clean, Good, ReadBack;
    FunctionsIsName();
    forall f | f in m ensures (m[f] != [] ==> Good(f.name)) && GoodExtensions(m[f]) { CleanSome(f, m[f]); }
    TablePlain(m, order);
    EmptyOrder(m, order);
    RowsExist(m, order);
    var f := order[0];
    CleanSome(f, m[f]);
    TableFed(OVERLOADS, OverloadTable(m, order));
    OverloadsRead(m, order);
  }

  // ----- overloads that are stored in another order come back sorted -----

  /** Two extensions that offer the same overload, the later name first: what is read back is the other way round. */
  lemma UnsortedOverloads()
    ensures var f, json, core := Function("f", Scalar), Overload("json", ["A"], "B"), Overload("core", ["A"], "B");
            var m := map[f := [json, core]];
            && OverloadMap(Records(TableText(OVERLOADS, OverloadTable(m, [f])))) == Some(map[f := [core, json]])
            && !InOrder(m[f])
  {
    hide TableText, Records, OverloadMap, OverloadTable, ReadBack;
    var f, json, core := Function("f", Scalar), Overload("json", ["A"], "B"), Overload("core", ["A"], "B");
    var m := map[f := [json, core]];
    assert Enumerates([f], m) && Clean(f, m[f]);
    assert !TextLeq("json", "core") && TextLeq("core", "json");
    assert !OverloadLeq(m[f][0], m[f][1]);
    assert Sorted([core]) == [core] && Sorted([json, core]) == [core, json] by {
      assert [core][1..] == [] && [json, core][1..] == [core];
    }
    CleanReads(m, [f]);
    RereadPlain(json);
    RereadPlain(core);
    TwoRead(m, f, json, core);
  }

  lemma RereadPlain(o: Overload)
    requires o.parameters == ["A"] && o.result == "B"
    ensures Reread(o) == o
  {
    RereadCarried(o);
  }

  lemma TwoRead(m: map<Function, seq<Overload>>, f: Function, json: Overload, core: Overload)
    requires m == map[f := [json, core]] && Sorted([json, core]) == [core, json]
    requires Reread(json) == json && Reread(core) == core
    ensures ReadBack(m, [f]) == map[f := [core, json]]
  {
    hide Reread, Sorted;
    assert RereadAll([core, json]) == [core, json];
  }
}
