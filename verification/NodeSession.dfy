/** Several requests, one worker, and their colours. */
module NodeSession {
  import opened Options
  import opened BinaryStream
  import opened Chunks

  // ----- from the server's rows to the worker's arrays -----

  /** The category of a row: how many different colours come before its own, as far as a float counts. */
  function Category(nodes: seq<Node>, i: nat): nat
    requires i < |nodes|
  {
    if Rank(nodes, i) <= LIMIT then Rank(nodes, i) else LIMIT
  }

  /** The arrays show these rows: place, size, id, and the colour of the row's category. */
  ghost predicate Shows(p: Painted, nodes: seq<Node>) {
    && p.Sized(|nodes|)
    && forall i :: 0 <= i < |nodes| ==>
         && p.positions[2 * i] == nodes[i].x && p.positions[2 * i + 1] == nodes[i].y
         && p.sizes[i] == nodes[i].size && p.ids[i] == nodes[i].id
         && p.Colors(i, CategoryRGBA(Category(nodes, i)))
  }

  /** Any number of requests, each answered by a stream of its own and painted by the same worker: every message shows
      exactly the rows of its request, in the colours of that request's categories. */
  method Session(floats: Floats, results: seq<seq<seq<Node>>>) returns (shown: seq<Painted>)
    requires floats.Exact()
    ensures |shown| == |results| && forall m :: 0 <= m < |results| ==> Shows(shown[m], Delivered(results[m]))
  {
    hide Worker.Valid, Worker.Hexes, Shows, Floats.Exact;
    var worker := new Worker();
    NoHexes(worker);
    shown := [];
    for m := 0 to |results|
      invariant worker.Valid() && worker.Hexes() && fresh(worker)
      invariant |shown| == m && forall k :: 0 <= k < m ==> Shows(shown[k], Delivered(results[k]))
    {
      var p := Request(worker, floats, results[m]);
      shown := shown + [p];
    }
  }

  /** One request and its message. */
  method Request(worker: Worker, floats: Floats, result: seq<seq<Node>>) returns (p: Painted)
    requires floats.Exact() && worker.Valid() && worker.Hexes()
    modifies worker
    ensures worker.Valid() && worker.Hexes() && Shows(p, Delivered(result))
  {
    hide Worker.Valid, Worker.Hexes, Shows, Gradual, Categories, Floats.Exact, CategoryRGBA, WordAt;
    ghost var nodes := Delivered(result);
    var buf := Stream(floats, result);
    ServerAndWorkerAgree(floats, nodes);
    var painted := worker.OnMessage(floats, buf);
    ShownFrom(floats, nodes, painted.value);
    p := painted.value;
  }

  lemma NoHexes(worker: Worker)
    requires worker.colorMap == map[]
    ensures worker.Hexes()
  {
  }

  /** What the worker decodes and paints is what the server packed. */
  lemma ShownFrom(floats: Floats, nodes: seq<Node>, p: Painted)
    requires floats.Exact()
    requires var buf := Payload(floats, nodes);
             && p.Sized(|buf| / 20)
             && (forall i :: 0 <= i < |buf| / 20 ==> p.Places(buf, i))
             && (forall i :: 0 <= i < |buf| / 20 ==> p.Colors(i, CategoryRGBA(Categories(floats, buf)[i])))
    ensures Shows(p, nodes)
  {
    hide Payload, WordAt, CategoryRGBA, Rank, Floats.Exact;
    ServerAndWorkerAgree(floats, nodes);
    var buf := Payload(floats, nodes);
    forall i | 0 <= i < |nodes|
      ensures p.positions[2 * i] == nodes[i].x && p.positions[2 * i + 1] == nodes[i].y
      ensures p.sizes[i] == nodes[i].size && p.ids[i] == nodes[i].id
      ensures p.Colors(i, CategoryRGBA(Category(nodes, i)))
    {
      assert p.Places(buf, i) && p.Colors(i, CategoryRGBA(Categories(floats, buf)[i]));
    }
  }

  // ----- does a category keep its colour? -----

  /** Two codes with the same colour: grey is code 0 alone, and the palette comes round after 19. */
  predicate SameColour(c: nat, d: nat) {
    if c == 0 || d == 0 then c == d else (c - 1) % |PALETTE| == (d - 1) % |PALETTE|
  }

  /** A number that tells the twenty colours apart. */
  function Hue(rgba: RGBA): nat {
    rgba.r * 65536 + rgba.g * 256 + rgba.b
  }

  const HUES: seq<nat> := [
    0xe6194B, 0x3cb44b, 0xffe119, 0x4363d8, 0xf58231, 0x911eb4, 0x42d4f4, 0xf032e6, 0xbfef45, 0xfabed4,
    0x469990, 0xdcbeff, 0x9A6324, 0xfffac8, 0x800000, 0xaaffc3, 0x808000, 0xffd8b1, 0x000075
  ]

  lemma PaletteHue(k: nat)
    requires k < |PALETTE|
    ensures |PALETTE| == |HUES| == 19 && |PALETTE[k]| == 7 && Hue(HexToRGBA(PALETTE[k])) == HUES[k]
  {
  }

  lemma HuesDiffer(j: nat, k: nat)
    requires j < k < |HUES|
    ensures HUES[j] != HUES[k] && HUES[j] != 0x666666 && HUES[k] != 0x666666
  {
  }

  lemma CodeHue(c: nat)
    ensures Hue(CategoryRGBA(c)) == if c == 0 then 0x666666 else HUES[(c - 1) % 19]
  {
    if c != 0 { PaletteHue((c - 1) % 19); }
  }

  /** Two codes are painted alike exactly when they are the same place of the palette.  Each request numbers its
      categories anew, so a category keeps its colour from one request to the next exactly when its two ranks are. */
  lemma ColoursTellApart(c: nat, d: nat)
    ensures CategoryRGBA(c) == CategoryRGBA(d) <==> SameColour(c, d)
  {
    hide CategoryRGBA, Hue;
    CodeHue(c);
    CodeHue(d);
    if c != 0 && d != 0 {
      var j, k := (c - 1) % 19, (d - 1) % 19;
      if j < k { HuesDiffer(j, k); } else if k < j { HuesDiffer(k, j); } else { AtSamePlace(c, d); }
    } else if c != d {
      NotGrey((c + d - 1) % 19);
    }
  }

  /** In a message with at most twenty different colours, two rows are painted alike exactly when they have the same
      colour, and the rows of the first one are grey. */
  lemma ShownColours(p: Painted, nodes: seq<Node>, i: nat, j: nat)
    requires Shows(p, nodes) && i < |nodes| && j < |nodes| && |Colours(nodes)| <= 20
    ensures p.colors[4 * i..4 * i + 4] == p.colors[4 * j..4 * j + 4] <==> ColouredAlike(nodes[i], nodes[j])
    ensures ColouredAlike(nodes[i], nodes[0]) <==> p.colors[4 * i..4 * i + 4] == [0x66, 0x66, 0x66, 255]
  {
    hide CategoryRGBA, Rank, Colours, ColouredAlike, Category, Parts, Shows, SameColour;
    var c, d := Category(nodes, i), Category(nodes, j);
    SmallCategory(nodes, i);
    SmallCategory(nodes, j);
    CategoriesAlike(nodes, i, j);
    CategoriesAlike(nodes, i, 0);
    SmallColours(c, d);
    SmallColours(c, 0);
    ShownParts(p, nodes, i);
    ShownParts(p, nodes, j);
    GreyParts();
  }

  lemma SmallColours(c: nat, d: nat)
    requires c < 20 && d < 20
    ensures Parts(CategoryRGBA(c)) == Parts(CategoryRGBA(d)) <==> c == d
  {
    hide CategoryRGBA;
    ColoursTellApart(c, d);
    PartsApart(CategoryRGBA(c), CategoryRGBA(d));
  }

  lemma ShownParts(p: Painted, nodes: seq<Node>, i: nat)
    requires Shows(p, nodes) && i < |nodes|
    ensures 4 * i + 4 <= |p.colors| && p.colors[4 * i..4 * i + 4] == Parts(CategoryRGBA(Category(nodes, i)))
  {
    hide CategoryRGBA, Category;
    FourParts(p, i, CategoryRGBA(Category(nodes, i)));
  }

  function Parts(rgba: RGBA): seq<nat> {
    [rgba.r, rgba.g, rgba.b, 255]
  }

  lemma FourParts(p: Painted, i: nat, rgba: RGBA)
    requires 4 * i + 4 <= |p.colors| && p.Colors(i, rgba)
    ensures p.colors[4 * i..4 * i + 4] == Parts(rgba)
  {
  }

  lemma PartsApart(a: RGBA, b: RGBA)
    ensures Parts(a) == Parts(b) <==> a == b
  {
    if Parts(a) == Parts(b) { assert Parts(a)[0] == a.r && Parts(a)[1] == a.g && Parts(a)[2] == a.b; }
  }

  lemma GreyParts()
    ensures Parts(CategoryRGBA(0)) == [0x66, 0x66, 0x66, 255]
  {
  }

  lemma CategoriesAlike(nodes: seq<Node>, i: nat, j: nat)
    requires i < |nodes| && j < |nodes| && |Colours(nodes)| <= 20
    ensures Category(nodes, 0) == 0
    ensures Category(nodes, i) == Category(nodes, j) <==> ColouredAlike(nodes[i], nodes[j])
  {
    hide Rank, Colours, ColouredAlike, Code, Keys;
    CodesAreColours(nodes, i, j);
    CodeIsRank(nodes, i);
    CodeIsRank(nodes, j);
    CodeIsRank(nodes, 0);
  }

  lemma SmallCategory(nodes: seq<Node>, i: nat)
    requires i < |nodes| && |Colours(nodes)| <= 20
    ensures Category(nodes, i) < 20
  {
    hide Colours;
    DistinctIn(Keys(nodes));
    CodeIsRank(nodes, i);
    ColoursAreKeys(nodes);
  }

  lemma NotGrey(k: nat)
    requires k < |HUES|
    ensures HUES[k] != 0x666666
  {
    if k > 0 { HuesDiffer(0, k); } else { HuesDiffer(0, 1); }
  }

  lemma AtSamePlace(c: nat, d: nat)
    requires c != 0 && d != 0 && (c - 1) % 19 == (d - 1) % 19
    ensures CategoryRGBA(c) == CategoryRGBA(d)
  {
  }

  /** All colours are kept when the categories of one request begin with those of the other: when the rows are the same,
      when rows are added behind them, or when no category comes first in another order. */
  lemma ColoursKept(keys: seq<Key>, keys': seq<Key>, i: nat, i': nat)
    requires i < |keys| && i' < |keys'| && keys[i] == keys'[i'] && Distinct(keys) <= Distinct(keys')
    ensures Code(keys, i) == Code(keys', i') && CategoryRGBA(Code(keys, i)) == CategoryRGBA(Code(keys', i'))
  {
    DistinctIn(keys);
    DistinctIn(keys');
    var d, d' := Distinct(keys), Distinct(keys');
    var k := IndexOf(d, keys[i]);
    assert d'[k] == d[k];
  }

  /** Appended rows keep every colour. */
  lemma MoreRowsKeepColours(keys: seq<Key>, more: seq<Key>, i: nat)
    requires i < |keys|
    ensures CategoryRGBA(Code(keys + more, i)) == CategoryRGBA(Code(keys, i))
  {
    CodeStays(keys, more, i);
  }

  /** A request that leaves out the first category: the second one was painted red, and is grey from then on. */
  lemma BoundedRequestChangesColours()
    ensures var all, bounded := [[97], [98]], [[98]];
            && Code(all, 1) == 1 && Code(bounded, 0) == 0
            && CategoryRGBA(Code(all, 1)) != CategoryRGBA(Code(bounded, 0))
  {
    var a: Key, b: Key := [97], [98];
    assert a[0] != b[0];
    assert [a, b][..1] == [a] && [a][..0] == [] && [b][..0] == [];
    assert Distinct([a]) == [a] && Distinct([b]) == [b] && Distinct([a, b]) == [a, b];
    assert [a, b][1..][0] == b;
    ColoursTellApart(1, 0);
  }
}
