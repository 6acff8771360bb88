/** `list_filter` and `list_transform`, rebuilt across batches. */
module ListLambda {

  datatype Value = Null | Boolean(b: bool) | Data(n: int)

  datatype ListEntry = ListEntry(offset: nat, length: nat)

  /** The list column (its selection, entries and validity) over one child vector. */
  datatype Args = Args(sel: seq<nat>, entries: seq<ListEntry>, validity: seq<bool>, child: seq<Value>) {
    predicate Ok() {
      && |validity| == |entries|
      && (forall r :: 0 <= r < |sel| ==>
            sel[r] < |entries| && (validity[sel[r]] ==> entries[sel[r]].offset + entries[sel[r]].length <= |child|))
    }

    predicate IsNull(r: nat)
      requires Ok() && r < |sel|
    {
      !validity[sel[r]]
    }

    function Entry(r: nat): ListEntry
      requires Ok() && r < |sel|
    {
      entries[sel[r]]
    }

    function RowLength(r: nat): nat
      requires Ok() && r < |sel|
    {
      if IsNull(r) then 0 else Entry(r).length
    }
  }

  /** The lambda gets the element, its 1-based index in its list, and the outer row. */
  type Lambda = (Value, nat, nat) -> Value

  // ----- the per-row specification -----

  /** The first k elements of row r that the predicate keeps: those whose result is valid and true. */
  function FilterRow(a: Args, f: Lambda, r: nat, k: nat): seq<Value>
    requires a.Ok() && r < |a.sel| && k <= a.RowLength(r)
  {
    if k == 0 then []
    else
      var x := a.child[a.Entry(r).offset + k - 1];
      FilterRow(a, f, r, k - 1) + if f(x, k, r) == Boolean(true) then [x] else []
  }

  function TransformRow(a: Args, f: Lambda, r: nat, k: nat): (s: seq<Value>)
    requires a.Ok() && r < |a.sel| && k <= a.RowLength(r)
    ensures |s| == k
  {
    if k == 0 then [] else TransformRow(a, f, r, k - 1) + [f(a.child[a.Entry(r).offset + k - 1], k, r)]
  }

  /** Mapping gives at place c the lambda's value at the element c, whose index counts from 1. */
  lemma {:induction false} MappedAt(a: Args, f: Lambda, r: nat, k: nat, c: nat)
    requires a.Ok() && r < |a.sel| && c < k <= a.RowLength(r)
    ensures TransformRow(a, f, r, k)[c] == f(a.child[a.Entry(r).offset + c], c + 1, r)
  {
    if c < k - 1 { MappedAt(a, f, r, k - 1, c); }
  }

  /** Filtering keeps element c, behind those kept before it, exactly when the lambda's value at it is neither NULL nor
      false. */
  lemma {:induction false} KeptAt(a: Args, f: Lambda, r: nat, k: nat, c: nat)
    requires a.Ok() && r < |a.sel| && c < k <= a.RowLength(r)
    requires forall i, x :: f(x, i, r).Boolean? || f(x, i, r).Null?
    ensures var kept, x, value := FilterRow(a, f, r, c), a.child[a.Entry(r).offset + c],
                                  f(a.child[a.Entry(r).offset + c], c + 1, r);
            if value != Null && value != Boolean(false) then kept + [x] <= FilterRow(a, f, r, k)
            else FilterRow(a, f, r, c + 1) == kept
    ensures FilterRow(a, f, r, c) <= FilterRow(a, f, r, k)
  {
    if c < k - 1 { KeptAt(a, f, r, k - 1, c); }
  }

  // ----- the flattened elements -----

  /** One element of the flattened input: its place in the child vector, its index and its row. */
  datatype Occurrence = Occurrence(pos: nat, index: nat, row: nat)

  function RowOccurrences(a: Args, r: nat, k: nat): (s: seq<Occurrence>)
    requires a.Ok() && r < |a.sel| && k <= a.RowLength(r)
    ensures |s| == k
    ensures forall c :: 0 <= c < k ==> s[c] == Occurrence(a.Entry(r).offset + c, c + 1, r)
  {
    seq(k, c requires 0 <= c < k => Occurrence(a.Entry(r).offset + c, c + 1, r))
  }

  function Lengths(a: Args, n: nat): (s: seq<nat>)
    requires a.Ok() && n <= |a.sel|
    ensures |s| == n && forall r :: 0 <= r < n ==> s[r] == a.RowLength(r)
  {
    seq(n, r requires 0 <= r < n => a.RowLength(r))
  }

  /** Where row k starts in the flattened input. */
  function Start(lengths: seq<nat>, k: nat): nat
    requires k <= |lengths|
  {
    if k == 0 then 0 else Start(lengths, k - 1) + lengths[k - 1]
  }

  /** Where row r starts, straight from the arguments. */
  function RowStart(a: Args, r: nat): nat
    requires a.Ok() && r <= |a.sel|
  {
    if r == 0 then 0 else RowStart(a, r - 1) + a.RowLength(r - 1)
  }

  function Occurrences(a: Args, n: nat): (s: seq<Occurrence>)
    requires a.Ok() && n <= |a.sel|
    ensures |s| == RowStart(a, n)
  {
    if n == 0 then [] else Occurrences(a, n - 1) + RowOccurrences(a, n - 1, a.RowLength(n - 1))
  }

  lemma {:induction false} StartIsRowStart(a: Args, n: nat, k: nat)
    requires a.Ok() && k <= n <= |a.sel|
    ensures Start(Lengths(a, n), k) == RowStart(a, k)
  {
    if k > 0 { StartIsRowStart(a, n, k - 1); }
  }

  lemma {:induction false} StartPrefix(ls: seq<nat>, ms: seq<nat>, k: nat)
    requires k <= |ls| && k <= |ms| && forall j :: 0 <= j < k ==> ls[j] == ms[j]
    ensures Start(ls, k) == Start(ms, k)
  {
    if k > 0 { StartPrefix(ls, ms, k - 1); }
  }

  lemma {:induction false} StartMonotone(ls: seq<nat>, j: nat, k: nat)
    requires j <= k <= |ls|
    ensures Start(ls, j) <= Start(ls, k)
    decreases k - j
  {
    if j < k { StartMonotone(ls, j, k - 1); }
  }

  // ----- what a filter keeps of the flattened elements -----

  function Count(flags: seq<bool>): (n: nat)
    ensures n <= |flags|
  {
    if flags == [] then 0 else Count(flags[..|flags| - 1]) + if flags[|flags| - 1] then 1 else 0
  }

  function Selected(xs: seq<Value>, flags: seq<bool>): (s: seq<Value>)
    requires |xs| == |flags|
    ensures |s| == Count(flags)
  {
    if flags == [] then []
    else Selected(xs[..|xs| - 1], flags[..|flags| - 1]) + if flags[|flags| - 1] then [xs[|xs| - 1]] else []
  }

  lemma {:induction false} CountConcat(a: seq<bool>, b: seq<bool>)
    ensures Count(a + b) == Count(a) + Count(b)
  {
    if b == [] {
      assert a + b == a;
    } else {
      assert (a + b)[..|a + b| - 1] == a + b[..|b| - 1];
      CountConcat(a, b[..|b| - 1]);
    }
  }

  lemma {:induction false} SelectedConcat(xs: seq<Value>, a: seq<bool>, ys: seq<Value>, b: seq<bool>)
    requires |xs| == |a| && |ys| == |b|
    ensures Selected(xs + ys, a + b) == Selected(xs, a) + Selected(ys, b)
  {
    if b == [] {
      assert a + b == a && xs + ys == xs;
    } else {
      assert (a + b)[..|a + b| - 1] == a + b[..|b| - 1];
      assert (xs + ys)[..|xs + ys| - 1] == xs + ys[..|ys| - 1];
      SelectedConcat(xs, a, ys[..|ys| - 1], b[..|b| - 1]);
    }
  }

  /** Row r's result list when the flattened predicate results are `seen`. */
  function FilterEntry(lengths: seq<nat>, seen: seq<bool>, r: nat): ListEntry
    requires r < |lengths| && Start(lengths, r + 1) <= |seen|
  {
    var s := Start(lengths, r);
    ListEntry(Count(seen[..s]), Count(seen[s..s + lengths[r]]))
  }

  // ----- the resumable cursor of list_filter -----

  /** `ListFilterInfo`, with the predicate results consumed so far. */
  class FilterInfo {
    var entry_lengths: seq<nat>
    var length: nat
    var offset: nat
    var row_idx: nat
    var src_length: nat
    ghost var seen: seq<bool>

    constructor ()
      ensures entry_lengths == [] && length == 0 && offset == 0 && row_idx == 0 && src_length == 0 && seen == []
    {
      entry_lengths, length, offset, row_idx, src_length := [], 0, 0, 0, 0;
      seen := [];
    }

    /** The cursor stands on the row of the next element; all rows before it have their entry. */
    ghost predicate Valid(result_entries: array<ListEntry>)
      reads this, result_entries
    {
      && row_idx <= |entry_lengths| <= result_entries.Length
      && |seen| == Start(entry_lengths, row_idx) + src_length
      && (if row_idx < |entry_lengths| then src_length <= entry_lengths[row_idx]
          && (src_length == entry_lengths[row_idx] ==> src_length == 0)
          else src_length == 0)
      && offset == Count(seen[..Start(entry_lengths, row_idx)])
      && length == Count(seen[Start(entry_lengths, row_idx)..])
      && (forall r :: 0 <= r < row_idx ==> RowDone(result_entries, r))
    }

    ghost predicate RowDone(result_entries: array<ListEntry>, r: nat)
      reads this, result_entries
      requires r < |entry_lengths| <= result_entries.Length
    {
      Start(entry_lengths, r + 1) <= |seen| && result_entries[r] == FilterEntry(entry_lengths, seen, r)
    }

    /** `PushEmptyList` and `SetResultEntry` of the filter: only the source length is recorded. */
    method PushLength(n: nat, result_entries: array<ListEntry>)
      requires Valid(result_entries) && |entry_lengths| < result_entries.Length
      modifies this`entry_lengths
      ensures Valid(result_entries) && entry_lengths == old(entry_lengths) + [n]
    {
      ghost var was := entry_lengths;
      entry_lengths := entry_lengths + [n];
      StartPrefix(was, entry_lengths, row_idx);
      forall r | 0 <= r < row_idx ensures RowDone(result_entries, r) {
        StartPrefix(was, entry_lengths, r);
        StartPrefix(was, entry_lengths, r + 1);
        assert old(RowDone(result_entries, r));
      }
    }

    /** Rows whose source list is empty or NULL get an empty result list at the current offset. */
    method SkipEmpty(result_entries: array<ListEntry>)
      requires Valid(result_entries)
      modifies this`row_idx, result_entries
      ensures Valid(result_entries)
      ensures old(row_idx) <= row_idx && (row_idx < |entry_lengths| ==> entry_lengths[row_idx] != 0)
    {
      while row_idx < |entry_lengths| && entry_lengths[row_idx] == 0
        invariant Valid(result_entries) && old(row_idx) <= row_idx
        decreases |entry_lengths| - row_idx
      {
        ghost var s := Start(entry_lengths, row_idx);
        assert seen[s..s] == [] && seen[s..] == [] && seen[..s] == seen;
        label L:
        result_entries[row_idx] := ListEntry(offset, 0);
        row_idx := row_idx + 1;
        forall r | 0 <= r < row_idx ensures RowDone(result_entries, r) {
          assert r < row_idx - 1 ==> old@L(RowDone(result_entries, r));
        }
      }
    }

    /** While elements are outstanding, the unguarded access to the current row is in range. */
    lemma NotAtEnd(result_entries: array<ListEntry>)
      requires Valid(result_entries) && |seen| < Start(entry_lengths, |entry_lengths|)
      ensures row_idx < |entry_lengths|
    {
    }

    /** With nothing outstanding and no empty list ahead, the cursor has passed every row. */
    lemma AtEnd(result_entries: array<ListEntry>)
      requires Valid(result_entries) && |seen| == Start(entry_lengths, |entry_lengths|)
      requires row_idx < |entry_lengths| ==> entry_lengths[row_idx] != 0
      ensures row_idx == |entry_lengths|
    {
      if row_idx < |entry_lengths| { StartMonotone(entry_lengths, row_idx + 1, |entry_lengths|); }
    }

    /** The next element of the current row: its predicate result is counted, and a finished row gets its entry. */
    method Consume(keep: bool, result_entries: array<ListEntry>)
      requires Valid(result_entries) && row_idx < |entry_lengths| && entry_lengths[row_idx] != 0
      modifies this`length, this`offset, this`row_idx, this`src_length, this`seen, result_entries
      ensures Valid(result_entries) && seen == old(seen) + [keep]
    {
      hide Count, Start, FilterEntry;
      ghost var r0, was := row_idx, seen;
      StartFits(entry_lengths, row_idx);
      CursorMoved(entry_lengths, was, row_idx, src_length, keep);
      ghost var entries := result_entries[..];
      forall r | 0 <= r < r0 ensures Start(entry_lengths, r + 1) <= |was|
          && entries[r] == FilterEntry(entry_lengths, was + [keep], r)
      {
        assert RowDone(result_entries, r);
        EntryKept(entry_lengths, was, keep, r);
      }
      seen := seen + [keep];
      if keep {
        length := length + 1;
      }
      src_length := src_length + 1;
      if entry_lengths[row_idx] == src_length {
        result_entries[row_idx] := ListEntry(offset, length);
        offset := offset + length;
        row_idx := row_idx + 1;
        length := 0;
        src_length := 0;
      }
      forall r | 0 <= r < row_idx ensures RowDone(result_entries, r) {
        assert r < r0 ==> result_entries[r] == entries[r];
      }
    }
  }

  lemma StartFits(lengths: seq<nat>, k: nat)
    requires k < |lengths|
    ensures Start(lengths, k + 1) == Start(lengths, k) + lengths[k]
  {
  }

  lemma EntryKept(lengths: seq<nat>, seen: seq<bool>, keep: bool, r: nat)
    requires r < |lengths| && Start(lengths, r + 1) <= |seen|
    ensures FilterEntry(lengths, seen + [keep], r) == FilterEntry(lengths, seen, r)
  {
    var s := Start(lengths, r);
    assert (seen + [keep])[..s] == seen[..s];
    assert (seen + [keep])[s..s + lengths[r]] == seen[s..s + lengths[r]];
  }

  /** One more predicate result: the counts of the current row, and its entry once it is complete. */
  lemma CursorMoved(lengths: seq<nat>, was: seq<bool>, r: nat, src: nat, keep: bool)
    requires r < |lengths| && |was| == Start(lengths, r) + src && src < lengths[r]
    ensures var s, now := Start(lengths, r), was + [keep];
            && now[..s] == was[..s]
            && Count(now[s..]) == Count(was[s..]) + (if keep then 1 else 0)
            && (src + 1 == lengths[r] ==>
                  && Start(lengths, r + 1) == |now|
                  && FilterEntry(lengths, now, r) == ListEntry(Count(was[..s]), Count(now[s..]))
                  && Count(now[..|now|]) == Count(was[..s]) + Count(now[s..])
                  && now[|now|..] == [])
  {
    var s, now := Start(lengths, r), was + [keep];
    assert now[s..] == was[s..] + [keep];
    CountConcat(was[s..], [keep]);
    assert now[..|now|] == now[..s] + now[s..];
    CountConcat(now[..s], now[s..]);
    assert src + 1 == lengths[r] ==> now[s..s + lengths[r]] == now[s..];
  }

  // ----- a batch -----

  /** `ExecuteExpression`: the lambda on every element of a batch. */
  function Results(a: Args, f: Lambda, os: seq<Occurrence>): (s: seq<Value>)
    requires forall k :: 0 <= k < |os| ==> os[k].pos < |a.child|
    ensures |s| == |os| && forall k :: 0 <= k < |os| ==> s[k] == f(a.child[os[k].pos], os[k].index, os[k].row)
  {
    seq(|os|, k requires 0 <= k < |os| => f(a.child[os[k].pos], os[k].index, os[k].row))
  }

  function Elements(a: Args, os: seq<Occurrence>): (s: seq<Value>)
    requires forall k :: 0 <= k < |os| ==> os[k].pos < |a.child|
    ensures |s| == |os| && forall k :: 0 <= k < |os| ==> s[k] == a.child[os[k].pos]
  {
    seq(|os|, k requires 0 <= k < |os| => a.child[os[k].pos])
  }

  function Flags(vs: seq<Value>): (s: seq<bool>)
    ensures |s| == |vs| && forall k :: 0 <= k < |vs| ==> s[k] == (vs[k] == Boolean(true))
  {
    seq(|vs|, k requires 0 <= k < |vs| => vs[k] == Boolean(true))
  }

  class ResultVector {
    const entries: array<ListEntry>
    var child: seq<Value>
    var nulls: set<nat>

    constructor (rows: nat)
      ensures entries.Length == rows && child == [] && nulls == {} && fresh(entries)
    {
      entries := new ListEntry[rows](_ => ListEntry(0, 0));
      child, nulls := [], {};
    }
  }

  /** `ListFilterFunctor::AppendResult`: consumes one batch of predicate results and appends the kept elements. */
  method AppendFiltered(result: ResultVector, slice: seq<Value>, lambda_vector: seq<Value>, info: FilterInfo)
    requires info.Valid(result.entries) && |slice| == |lambda_vector|
    requires |info.seen| + |lambda_vector| <= Start(info.entry_lengths, |info.entry_lengths|)
    modifies info`length, info`offset, info`row_idx, info`src_length, info`seen, result`child, result.entries
    ensures info.Valid(result.entries) && info.seen == old(info.seen) + Flags(lambda_vector)
    ensures result.child == old(result.child) + Selected(slice, Flags(lambda_vector))
    ensures info.row_idx < |info.entry_lengths| ==> info.entry_lengths[info.row_idx] != 0
  {
    hide Count, Selected, FilterInfo.RowDone, FilterInfo.Valid, Gathered;
    var sel: seq<nat> := [];
    ghost var flags, was := Flags(lambda_vector), info.seen;
    NoneGathered(slice, flags);
    assert was + flags[..0] == was;
    for i := 0 to |lambda_vector|
      invariant info.Valid(result.entries) && info.seen == was + flags[..i]
      invariant forall j :: 0 <= j < |sel| ==> sel[j] < i
      invariant Gathered(slice, sel, i) == Selected(slice[..i], flags[..i])
      invariant result.child == old(result.child)
    {
      info.SkipEmpty(result.entries);
      info.NotAtEnd(result.entries);
      var keep := lambda_vector[i] == Boolean(true);
      info.Consume(keep, result.entries);
      assert flags[..i + 1] == flags[..i] + [keep];
      GatheredSnoc(slice, sel, flags, i);
      if keep {
        sel := sel + [i];
      }
    }
    info.SkipEmpty(result.entries);
    assert slice[..|slice|] == slice && flags[..|flags|] == flags;
    result.child := result.child + Gathered(slice, sel, |slice|);
  }

  /** The slice of a vector through a selection. */
  function Gathered(slice: seq<Value>, sel: seq<nat>, bound: nat): (s: seq<Value>)
    requires bound <= |slice| && forall j :: 0 <= j < |sel| ==> sel[j] < bound
  {
    seq(|sel|, j requires 0 <= j < |sel| => slice[sel[j]])
  }

  lemma NoneGathered(slice: seq<Value>, flags: seq<bool>)
    requires |slice| == |flags|
    ensures Gathered(slice, [], 0) == Selected(slice[..0], flags[..0])
  {
  }

  lemma GatheredSnoc(slice: seq<Value>, sel: seq<nat>, flags: seq<bool>, i: nat)
    requires i < |slice| == |flags| && (forall j :: 0 <= j < |sel| ==> sel[j] < i)
    requires Gathered(slice, sel, i) == Selected(slice[..i], flags[..i])
    ensures Gathered(slice, if flags[i] then sel + [i] else sel, i + 1) == Selected(slice[..i + 1], flags[..i + 1])
  {
    assert slice[..i + 1][..i] == slice[..i] && flags[..i + 1][..i] == flags[..i];
    assert Gathered(slice, sel, i + 1) == Gathered(slice, sel, i);
    assert Gathered(slice, sel + [i], i + 1) == Gathered(slice, sel, i) + [slice[i]];
  }

  // ----- the whole loop -----

  datatype Functor = Filter | Transform

  lemma {:induction false} OccurrencesIn(a: Args, n: nat)
    requires a.Ok() && n <= |a.sel|
    ensures forall k :: 0 <= k < |Occurrences(a, n)| ==> Occurrences(a, n)[k].pos < |a.child|
  {
    if n > 0 { OccurrencesIn(a, n - 1); }
  }

  /** Row r takes its place in the flattened input. */
  lemma {:induction false} OccurrenceAt(a: Args, n: nat, r: nat)
    requires a.Ok() && r < n <= |a.sel|
    ensures RowStart(a, r) + a.RowLength(r) == RowStart(a, r + 1) <= |Occurrences(a, n)|
    ensures Occurrences(a, n)[RowStart(a, r)..RowStart(a, r + 1)] == RowOccurrences(a, r, a.RowLength(r))
  {
    hide RowOccurrences;
    var s, e := RowStart(a, r), RowStart(a, r + 1);
    var front := Occurrences(a, n - 1);
    if r < n - 1 {
      OccurrenceAt(a, n - 1, r);
      assert Occurrences(a, n)[s..e] == front[s..e];
    }
  }

  // ----- reading the result back -----

  /** The list a result entry denotes. */
  function ReadBack(child: seq<Value>, e: ListEntry): seq<Value>
    requires e.offset + e.length <= |child|
  {
    child[e.offset..e.offset + e.length]
  }

  lemma {:induction false} RowSelected(a: Args, f: Lambda, r: nat, k: nat)
    requires a.Ok() && r < |a.sel| && !a.IsNull(r) && k <= a.RowLength(r)
    ensures var os := RowOccurrences(a, r, k);
              Selected(Elements(a, os), Flags(Results(a, f, os))) == FilterRow(a, f, r, k)
  {
    hide Selected, RowOccurrences, Elements, Results, Flags;
    var os := RowOccurrences(a, r, k);
    if k == 0 {
      assert Elements(a, os) == [] && Flags(Results(a, f, os)) == [];
      SelectedNone();
    } else {
      RowSelected(a, f, r, k - 1);
      var ps, x := RowOccurrences(a, r, k - 1), a.child[a.Entry(r).offset + k - 1];
      assert Elements(a, os) == Elements(a, ps) + [x];
      assert Flags(Results(a, f, os)) == Flags(Results(a, f, ps)) + [f(x, k, r) == Boolean(true)];
      SelectedSnoc(Elements(a, ps), Flags(Results(a, f, ps)), x, f(x, k, r) == Boolean(true));
    }
  }

  lemma SelectedNone()
    ensures Selected([], []) == []
  {
  }

  lemma SelectedSnoc(xs: seq<Value>, flags: seq<bool>, x: Value, keep: bool)
    requires |xs| == |flags|
    ensures Selected(xs + [x], flags + [keep]) == Selected(xs, flags) + if keep then [x] else []
  {
    assert (xs + [x])[..|xs|] == xs && (flags + [keep])[..|xs|] == flags;
  }

  lemma {:induction false} RowResults(a: Args, f: Lambda, r: nat, k: nat)
    requires a.Ok() && r < |a.sel| && !a.IsNull(r) && k <= a.RowLength(r)
    ensures Results(a, f, RowOccurrences(a, r, k)) == TransformRow(a, f, r, k)
  {
    if k > 0 {
      RowResults(a, f, r, k - 1);
      assert Results(a, f, RowOccurrences(a, r, k))
             == Results(a, f, RowOccurrences(a, r, k - 1)) + [f(a.child[a.Entry(r).offset + k - 1], k, r)];
    }
  }

  lemma SelectedSplit(xs: seq<Value>, flags: seq<bool>, i: nat, j: nat)
    requires |xs| == |flags| && i <= j <= |xs|
    ensures Count(flags[..i]) + Count(flags[i..j]) == Count(flags[..j]) <= Count(flags)
    ensures Selected(xs, flags)[Count(flags[..i])..Count(flags[..j])] == Selected(xs[i..j], flags[i..j])
  {
    assert flags[..i] + flags[i..j] == flags[..j] && flags[..j] + flags[j..] == flags;
    assert xs[..i] + xs[i..j] == xs[..j] && xs[..j] + xs[j..] == xs;
    CountConcat(flags[..i], flags[i..j]);
    CountConcat(flags[..j], flags[j..]);
    SelectedConcat(xs[..i], flags[..i], xs[i..j], flags[i..j]);
    SelectedConcat(xs[..j], flags[..j], xs[j..], flags[j..]);
  }

  /** The flattened predicate results, and the kept elements. */
  function AllFlags(a: Args, f: Lambda): (flags: seq<bool>)
    requires a.Ok()
    ensures |flags| == RowStart(a, |a.sel|)
  {
    OccurrencesIn(a, |a.sel|);
    Flags(Results(a, f, Occurrences(a, |a.sel|)))
  }

  function AllKept(a: Args, f: Lambda): (xs: seq<Value>)
    requires a.Ok()
    ensures |xs| == Count(AllFlags(a, f))
  {
    OccurrencesIn(a, |a.sel|);
    Selected(Elements(a, Occurrences(a, |a.sel|)), AllFlags(a, f))
  }

  /** `list_filter` refines the per-row filter: the entry of a row reads back exactly the kept elements, in order. */
  lemma FilterReadsBack(a: Args, f: Lambda, r: nat)
    requires a.Ok() && r < |a.sel|
    ensures RowStart(a, r) <= RowStart(a, r + 1) <= |AllFlags(a, f)|
    ensures Count(AllFlags(a, f)[..RowStart(a, r)]) + Count(AllFlags(a, f)[RowStart(a, r)..RowStart(a, r + 1)])
         == Count(AllFlags(a, f)[..RowStart(a, r + 1)]) <= |AllKept(a, f)|
    ensures AllKept(a, f)[Count(AllFlags(a, f)[..RowStart(a, r)])..Count(AllFlags(a, f)[..RowStart(a, r + 1)])]
         == FilterRow(a, f, r, a.RowLength(r))
  {
    hide Count, Selected, FilterRow, RowStart, Results, Elements, Flags, RowOccurrences;
    RowCut(a, f, r);
    SelectedSplit(Elements(a, Occurrences(a, |a.sel|)), AllFlags(a, f), RowStart(a, r), RowStart(a, r + 1));
    RowFiltered(a, f, r);
  }

  /** Row r's part of the flattened elements and of their predicate results. */
  lemma RowCut(a: Args, f: Lambda, r: nat)
    requires a.Ok() && r < |a.sel|
    ensures InChild(a, Occurrences(a, |a.sel|)) && InChild(a, RowOccurrences(a, r, a.RowLength(r)))
    ensures RowStart(a, r) <= RowStart(a, r + 1) <= |AllFlags(a, f)|
    ensures Elements(a, Occurrences(a, |a.sel|))[RowStart(a, r)..RowStart(a, r + 1)]
            == Elements(a, RowOccurrences(a, r, a.RowLength(r)))
    ensures AllFlags(a, f)[RowStart(a, r)..RowStart(a, r + 1)]
            == Flags(Results(a, f, RowOccurrences(a, r, a.RowLength(r))))
  {
    hide RowStart, RowOccurrences, Occurrences;
    OccurrencesIn(a, |a.sel|);
    OccurrenceAt(a, |a.sel|, r);
    var os, i, j := Occurrences(a, |a.sel|), RowStart(a, r), RowStart(a, r + 1);
    var ps := RowOccurrences(a, r, a.RowLength(r));
    forall k | 0 <= k < |ps| ensures ps[k].pos < |a.child| { assert ps[k] == os[i + k]; }
    assert Elements(a, os)[i..j] == Elements(a, os[i..j]);
    assert Flags(Results(a, f, os))[i..j] == Flags(Results(a, f, os[i..j]));
  }

  lemma RowFiltered(a: Args, f: Lambda, r: nat)
    requires a.Ok() && r < |a.sel|
    requires forall k :: 0 <= k < a.RowLength(r) ==> RowOccurrences(a, r, a.RowLength(r))[k].pos < |a.child|
    ensures var os := RowOccurrences(a, r, a.RowLength(r));
            Selected(Elements(a, os), Flags(Results(a, f, os))) == FilterRow(a, f, r, a.RowLength(r))
  {
    if !a.IsNull(r) { RowSelected(a, f, r, a.RowLength(r)); }
  }

  /** The result of a filter: every row reads back its own filtered list; the lists follow each other in row order,
      from the start of the child vector to its end; NULL rows are NULL. */
  ghost predicate FilterResult(a: Args, f: Lambda, entries: seq<ListEntry>, child: seq<Value>, nulls: set<nat>)
    requires a.Ok()
  {
    && |entries| == |a.sel|
    && (forall r :: 0 <= r < |a.sel| ==> (r in nulls <==> a.IsNull(r)))
    && (forall r :: 0 <= r < |a.sel| ==> RowReads(a, entries, child, r, FilterRow(a, f, r, a.RowLength(r))))
    && Contiguous(entries, |child|)
  }

  ghost predicate RowReads(a: Args, entries: seq<ListEntry>, child: seq<Value>, r: nat, expected: seq<Value>)
    requires r < |entries|
  {
    entries[r].offset + entries[r].length <= |child| && ReadBack(child, entries[r]) == expected
  }

  ghost predicate Contiguous(entries: seq<ListEntry>, size: nat) {
    && (entries == [] ==> size == 0)
    && (entries != [] ==> entries[0].offset == 0)
    && (forall r :: 0 <= r < |entries| ==>
          entries[r].offset + entries[r].length == if r + 1 < |entries| then entries[r + 1].offset else size)
  }

  /** The result of a transform: every row that is not NULL reads back its mapped list. */
  ghost predicate TransformResult(a: Args, f: Lambda, entries: seq<ListEntry>, child: seq<Value>, nulls: set<nat>)
    requires a.Ok()
  {
    && |entries| == |a.sel|
    && |child| == RowStart(a, |a.sel|)
    && (forall r :: 0 <= r < |a.sel| ==> (r in nulls <==> a.IsNull(r)))
    && (forall r ::
         0 <= r < |a.sel| && !a.IsNull(r) ==> RowReads(a, entries, child, r, TransformRow(a, f, r, a.RowLength(r))))
  }

  // ----- ExecuteLambda -----

  ghost predicate InChild(a: Args, os: seq<Occurrence>) {
    forall k :: 0 <= k < |os| ==> os[k].pos < |a.child|
  }

  /** The elements already run through the lambda have reached the result. */
  ghost predicate Handled(functor: Functor, a: Args, f: Lambda, os: seq<Occurrence>, result: ResultVector,
                          info: FilterInfo)
    reads result, result.entries, info
  {
    && InChild(a, os)
    && match functor
       case Filter =>
         info.Valid(result.entries) && info.seen == Flags(Results(a, f, os))
             && result.child == Selected(Elements(a, os), info.seen)
       case Transform => result.child == Results(a, f, os)
  }

  /** The first n rows have been announced: their lengths recorded, or their result entries laid out. */
  ghost predicate RowsSet(functor: Functor, a: Args, n: nat, offset: nat, result: ResultVector, info: FilterInfo)
    requires a.Ok() && n <= |a.sel|
    reads result, result.entries, info
  {
    && result.entries.Length == |a.sel|
    && (forall r: nat :: r in result.nulls <==> r < n && a.IsNull(r))
    && match functor
       case Filter => info.entry_lengths == Lengths(a, n)
       case Transform => offset == RowStart(a, n) && LaidOut(a, result.entries[..], n)
  }

  ghost predicate LaidOut(a: Args, entries: seq<ListEntry>, n: nat)
    requires a.Ok() && n <= |a.sel| == |entries|
  {
    forall r :: 0 <= r < n && !a.IsNull(r) ==> entries[r] == ListEntry(RowStart(a, r), a.RowLength(r))
  }

  lemma HandledMore(a: Args, f: Lambda, handled: seq<Occurrence>, os: seq<Occurrence>)
    requires InChild(a, handled) && InChild(a, os)
    ensures InChild(a, handled + os)
    ensures Results(a, f, handled + os) == Results(a, f, handled) + Results(a, f, os)
    ensures Elements(a, handled + os) == Elements(a, handled) + Elements(a, os)
    ensures Flags(Results(a, f, handled + os)) == Flags(Results(a, f, handled)) + Flags(Results(a, f, os))
  {
    assert Results(a, f, handled + os) == Results(a, f, handled) + Results(a, f, os);
  }

  /** Runs one batch through the lambda and appends its results. */
  method Flush(functor: Functor, a: Args, f: Lambda, os: seq<Occurrence>, ghost handled: seq<Occurrence>,
               ghost n: nat, ghost offset: nat, result: ResultVector, info: FilterInfo)
    requires a.Ok() && n <= |a.sel| && InChild(a, os)
    requires Handled(functor, a, f, handled, result, info) && RowsSet(functor, a, n, offset, result, info)
    requires |handled| + |os| <= RowStart(a, n)
    modifies info`length, info`offset, info`row_idx, info`src_length, info`seen, result`child, result.entries
    ensures Handled(functor, a, f, handled + os, result, info) && RowsSet(functor, a, n, offset, result, info)
    ensures functor.Filter? && info.row_idx < |info.entry_lengths| ==> info.entry_lengths[info.row_idx] != 0
  {
    hide Selected, Count, FilterInfo.Valid, Start, RowStart, LaidOut;
    HandledMore(a, f, handled, os);
    var lambda_vector := Results(a, f, os);
    match functor {
      case Filter =>
        StartIsRowStart(a, n, n);
        SelectedConcat(Elements(a, handled), info.seen, Elements(a, os), Flags(lambda_vector));
        AppendFiltered(result, Elements(a, os), lambda_vector, info);
      case Transform =>
        result.child := result.child + lambda_vector;
    }
  }

  lemma RowsAnnounced(a: Args, n: nat, entries: seq<ListEntry>)
    requires a.Ok() && n < |a.sel| == |entries| && LaidOut(a, entries, n)
    ensures Lengths(a, n + 1) == Lengths(a, n) + [a.RowLength(n)]
    ensures RowStart(a, n + 1) == RowStart(a, n) + a.RowLength(n)
    ensures a.IsNull(n) ==> LaidOut(a, entries, n + 1)
    ensures LaidOut(a, entries[n := ListEntry(RowStart(a, n), a.RowLength(n))], n + 1)
  {
  }

  /** Records row n: NULL, or its source length, or its result entry. */
  method StartRow(functor: Functor, a: Args, f: Lambda, n: nat, offset: nat, ghost handled: seq<Occurrence>,
                  result: ResultVector, info: FilterInfo) returns (offset': nat)
    requires a.Ok() && n < |a.sel|
    requires Handled(functor, a, f, handled, result, info) && RowsSet(functor, a, n, offset, result, info)
    modifies info`entry_lengths, result`nulls, result.entries
    ensures Handled(functor, a, f, handled, result, info) && RowsSet(functor, a, n + 1, offset', result, info)
  {
    hide Selected, Count, FilterInfo.Valid, Start, RowStart, LaidOut;
    offset' := offset;
    if functor.Transform? { RowsAnnounced(a, n, result.entries[..]); }
    assert Lengths(a, n + 1) == Lengths(a, n) + [a.RowLength(n)];
    if a.IsNull(n) {
      result.nulls := result.nulls + {n};
      if functor.Filter? {
        info.PushLength(0, result.entries);
      }
    } else {
      var entry := a.Entry(n);
      if functor.Filter? {
        info.PushLength(entry.length, result.entries);
      } else {
        ghost var was := result.entries[..];
        result.entries[n] := ListEntry(offset, entry.length);
        assert result.entries[..] == was[n := ListEntry(offset, entry.length)];
        offset' := offset + entry.length;
      }
    }
  }

  lemma RowFilled(a: Args, row: nat, k: nat)
    requires a.Ok() && row < |a.sel| && k <= a.RowLength(row)
    ensures RowStart(a, row) + a.RowLength(row) == RowStart(a, row + 1)
    ensures RowOccurrences(a, row, 0) == []
    ensures k < a.RowLength(row) ==>
              RowOccurrences(a, row, k + 1) == RowOccurrences(a, row, k)
                  + [Occurrence(a.Entry(row).offset + k, k + 1, row)]
    ensures k < a.RowLength(row) ==> a.Entry(row).offset + k < |a.child|
    ensures Occurrences(a, row + 1) == Occurrences(a, row) + RowOccurrences(a, row, a.RowLength(row))
  {
  }

  /** The elements handled and the batch being filled are the flattened elements up to here. */
  ghost predicate Filling(a: Args, handled: seq<Occurrence>, pending: seq<Occurrence>, target: seq<Occurrence>) {
    InChild(a, pending) && handled + pending == target
  }

  lemma FillingMore(a: Args, handled: seq<Occurrence>, pending: seq<Occurrence>, row: nat, k: nat)
    requires a.Ok() && row < |a.sel| && k < a.RowLength(row)
    requires Filling(a, handled, pending, Occurrences(a, row) + RowOccurrences(a, row, k))
    ensures Filling(a, handled, pending + [Occurrence(a.Entry(row).offset + k, k + 1, row)],
                    Occurrences(a, row) + RowOccurrences(a, row, k + 1))
  {
    RowFilled(a, row, k);
    var next := Occurrence(a.Entry(row).offset + k, k + 1, row);
    assert handled + (pending + [next]) == (handled + pending) + [next];
  }

  lemma FillingFits(a: Args, handled: seq<Occurrence>, pending: seq<Occurrence>, row: nat, k: nat)
    requires a.Ok() && row < |a.sel| && k <= a.RowLength(row)
    requires Filling(a, handled, pending, Occurrences(a, row) + RowOccurrences(a, row, k))
    ensures |handled| + |pending| <= RowStart(a, row + 1)
    ensures Filling(a, handled + pending, [], Occurrences(a, row) + RowOccurrences(a, row, k)) && InChild(a, pending)
  {
  }

  lemma RowFilling(a: Args, handled: seq<Occurrence>, pending: seq<Occurrence>, row: nat)
    requires a.Ok() && row < |a.sel|
    ensures Filling(a, handled, pending, Occurrences(a, row))
         == Filling(a, handled, pending, Occurrences(a, row) + RowOccurrences(a, row, 0))
    ensures Filling(a, handled, pending, Occurrences(a, row + 1))
         == Filling(a, handled, pending, Occurrences(a, row) + RowOccurrences(a, row, a.RowLength(row)))
  {
    RowFilled(a, row, 0);
  }

  lemma AllFilled(a: Args, handled: seq<Occurrence>, pending: seq<Occurrence>)
    requires a.Ok() && Filling(a, handled, pending, Occurrences(a, |a.sel|))
    ensures |handled| + |pending| <= RowStart(a, |a.sel|) && handled + pending == Occurrences(a, |a.sel|)
    ensures InChild(a, pending)
  {
  }

  /** Sets the selection vectors and the index vector at one position of the batch. */
  method SetIndex(batch: array<Occurrence>, at: nat, next: Occurrence)
    requires at < batch.Length
    modifies batch
    ensures batch[..at + 1] == old(batch[..at]) + [next]
  {
    batch[at] := next;
  }

  /** `ExecuteLambda`: flattens the lists into batches of vectorSize elements and rebuilds them in the result. */
  method ExecuteLambda(functor: Functor, a: Args, f: Lambda, vectorSize: nat, result: ResultVector)
      returns (info: FilterInfo)
    requires a.Ok() && 1 <= vectorSize && result.entries.Length == |a.sel| && result.child == [] && result.nulls == {}
    modifies result`child, result`nulls, result.entries
    ensures functor.Filter? ==> FilterResult(a, f, result.entries[..], result.child, result.nulls)
    ensures functor.Filter? ==> info.row_idx == |a.sel|
    ensures functor.Transform? ==> TransformResult(a, f, result.entries[..], result.child, result.nulls)
  {
    hide Selected, Count, FilterInfo.Valid, Start, RowStart, LaidOut, Occurrences, RowOccurrences, Handled, RowsSet,
         Filling, FilterResult, TransformResult, Args.Ok, InChild;
    info := new FilterInfo();
    var batch := new Occurrence[vectorSize](_ => Occurrence(0, 0, 0));
    ghost var handled: seq<Occurrence> := [];
    var elem_cnt, offset := 0, 0;
    NothingYet(functor, a, f, result, info);
    assert batch[..elem_cnt] == [];
    for row := 0 to |a.sel|
      invariant elem_cnt <= vectorSize && batch.Length == vectorSize && fresh(batch) && fresh(info)
      invariant Handled(functor, a, f, handled, result, info) && RowsSet(functor, a, row, offset, result, info)
      invariant Filling(a, handled, batch[..elem_cnt], Occurrences(a, row))
    {
      offset := StartRow(functor, a, f, row, offset, handled, result, info);
      RowFilling(a, handled, batch[..elem_cnt], row);
      if a.IsNull(row) || a.Entry(row).length == 0 {
        continue;
      }
      var list_entry := a.Entry(row);
      for child_idx := 0 to list_entry.length
        invariant elem_cnt <= vectorSize && batch.Length == vectorSize
        invariant Handled(functor, a, f, handled, result, info) && RowsSet(functor, a, row + 1, offset, result, info)
        invariant Filling(a, handled, batch[..elem_cnt], Occurrences(a, row) + RowOccurrences(a, row, child_idx))
      {
        if elem_cnt == vectorSize {
          FillingFits(a, handled, batch[..elem_cnt], row, child_idx);
          Flush(functor, a, f, batch[..elem_cnt], handled, row + 1, offset, result, info);
          handled := handled + batch[..elem_cnt];
          elem_cnt := 0;
          assert batch[..elem_cnt] == [];
        }
        FillingMore(a, handled, batch[..elem_cnt], row, child_idx);
        SetIndex(batch, elem_cnt, Occurrence(list_entry.offset + child_idx, child_idx + 1, row));
        elem_cnt := elem_cnt + 1;
      }
      RowFilling(a, handled, batch[..elem_cnt], row);
    }
    AllFilled(a, handled, batch[..elem_cnt]);
    Flush(functor, a, f, batch[..elem_cnt], handled, |a.sel|, offset, result, info);
    Finished(functor, a, f, offset, result, info);
  }

  lemma NothingYet(functor: Functor, a: Args, f: Lambda, result: ResultVector, info: FilterInfo)
    requires a.Ok() && result.entries.Length == |a.sel| && result.child == [] && result.nulls == {}
    requires info.entry_lengths == [] && info.length == 0 && info.offset == 0 && info.row_idx == 0
             && info.src_length == 0
    requires info.seen == []
    ensures Handled(functor, a, f, [], result, info) && RowsSet(functor, a, 0, 0, result, info)
    ensures Filling(a, [], [], Occurrences(a, 0))
  {
  }

  /** Every element handled, every row announced: the result is complete. */
  lemma Finished(functor: Functor, a: Args, f: Lambda, offset: nat, result: ResultVector, info: FilterInfo)
    requires a.Ok() && Handled(functor, a, f, Occurrences(a, |a.sel|), result, info)
    requires RowsSet(functor, a, |a.sel|, offset, result, info)
    requires functor.Filter? && info.row_idx < |info.entry_lengths| ==> info.entry_lengths[info.row_idx] != 0
    ensures functor.Filter? ==>
              FilterResult(a, f, result.entries[..], result.child, result.nulls) && info.row_idx == |a.sel|
    ensures functor.Transform? ==> TransformResult(a, f, result.entries[..], result.child, result.nulls)
  {
    match functor {
      case Filter => FilterFinished(a, f, offset, result, info);
      case Transform =>
        forall r | 0 <= r < |a.sel| && !a.IsNull(r)
          ensures RowReads(a, result.entries[..], result.child, r, TransformRow(a, f, r, a.RowLength(r)))
        {
          TransformReadsBack(a, f, r);
        }
    }
  }

  lemma TransformReadsBack(a: Args, f: Lambda, r: nat)
    requires a.Ok() && r < |a.sel| && !a.IsNull(r) && InChild(a, Occurrences(a, |a.sel|))
    ensures RowStart(a, r) + a.RowLength(r) <= RowStart(a, |a.sel|)
    ensures Results(a, f, Occurrences(a, |a.sel|))[RowStart(a, r)..RowStart(a, r) + a.RowLength(r)]
         == TransformRow(a, f, r, a.RowLength(r))
  {
    OccurrenceAt(a, |a.sel|, r);
    RowResults(a, f, r, a.RowLength(r));
    var os, i, j := Occurrences(a, |a.sel|), RowStart(a, r), RowStart(a, r + 1);
    assert os[i..j] == RowOccurrences(a, r, a.RowLength(r));
    assert Results(a, f, os)[i..j] == Results(a, f, os[i..j]);
  }

  lemma FilterFinished(a: Args, f: Lambda, offset: nat, result: ResultVector, info: FilterInfo)
    requires a.Ok() && Handled(Filter, a, f, Occurrences(a, |a.sel|), result, info)
    requires RowsSet(Filter, a, |a.sel|, offset, result, info)
    requires info.row_idx < |info.entry_lengths| ==> info.entry_lengths[info.row_idx] != 0
    ensures FilterResult(a, f, result.entries[..], result.child, result.nulls) && info.row_idx == |a.sel|
  {
    hide Count, Selected, FilterRow, Start, RowStart;
    var n, seen := |a.sel|, AllFlags(a, f);
    StartIsRowStart(a, n, n);
    info.AtEnd(result.entries);
    forall r | 0 <= r < n
      ensures Placed(a, seen, result.entries[..], r)
      ensures RowReads(a, result.entries[..], result.child, r, FilterRow(a, f, r, a.RowLength(r)))
    {
      assert info.RowDone(result.entries, r);
      StartIsRowStart(a, n, r);
      StartIsRowStart(a, n, r + 1);
      StartFits(info.entry_lengths, r);
      FilterReadsBack(a, f, r);
    }
    PlacedContiguous(a, seen, result.entries[..]);
  }

  /** Row r's entry starts after the elements kept from the rows before it, and holds those kept from row r. */
  ghost predicate Placed(a: Args, seen: seq<bool>, entries: seq<ListEntry>, r: nat)
    requires a.Ok() && r < |a.sel| == |entries|
  {
    && RowStart(a, r) <= RowStart(a, r + 1) <= |seen|
    && entries[r].offset == Count(seen[..RowStart(a, r)])
    && entries[r].offset + entries[r].length == Count(seen[..RowStart(a, r + 1)])
  }

  lemma FirstPlace(a: Args, seen: seq<bool>)
    requires a.Ok() && |seen| == RowStart(a, |a.sel|)
    ensures RowStart(a, 0) == 0 && Count(seen[..0]) == 0 && seen[..|seen|] == seen
  {
  }

  lemma PlacedContiguous(a: Args, seen: seq<bool>, entries: seq<ListEntry>)
    requires a.Ok() && |seen| == RowStart(a, |a.sel|) && |entries| == |a.sel|
    requires forall r :: 0 <= r < |a.sel| ==> Placed(a, seen, entries, r)
    ensures Contiguous(entries, Count(seen))
  {
    hide Count, RowStart;
    FirstPlace(a, seen);
    assert |entries| > 0 ==> Placed(a, seen, entries, 0);
    forall r | 0 <= r < |entries|
      ensures entries[r].offset + entries[r].length == if r + 1 < |entries| then entries[r + 1].offset else Count(seen)
    {
      assert Placed(a, seen, entries, r);
      assert r + 1 < |entries| ==> Placed(a, seen, entries, r + 1);
    }
  }
}
