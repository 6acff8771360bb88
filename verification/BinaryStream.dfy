/** The binary node stream, and the worker that paints it. */
module BinaryStream {
  import opened Options
  import opened Characters
  import opened Chunks

  type Byte = b: int | 0 <= b < 256

  /** Four bytes: a float, kept as it is, or an unsigned integer. */
  type Word = w: int | 0 <= w < 0x1_0000_0000

  type Key = seq<Byte>

  /** A float counts exactly up to here; one more is rounded back. */
  const LIMIT: nat := 0x100_0000

  /** The float format: the word of a whole number, and the whole number a word holds. */
  datatype Floats = Floats(word: nat -> Word, whole: Word -> nat) {
    ghost predicate Exact() {
      forall n: nat :: n <= LIMIT ==> whole(word(n)) == n
    }
  }

  datatype Node = Node(x: Word, y: Word, size: Word, color: Option<Key>, id: Word) {
    /** NULL shares the category of the empty text. */
    function Key(): Key {
      match color case None => [] case Some(k) => k
    }
  }

  // ----- colour codes -----

  /** The keys in order of their first occurrence. */
  function Distinct(keys: seq<Key>): seq<Key> {
    if keys == [] then []
    else
      var d, key := Distinct(keys[..|keys| - 1]), keys[|keys| - 1];
      if key in d then d else d + [key]
  }

  function IndexOf(d: seq<Key>, key: Key): (k: nat)
    requires key in d
    ensures k < |d| && d[k] == key && forall j :: 0 <= j < k ==> d[j] != key
  {
    if d[0] == key then 0 else 1 + IndexOf(d[1..], key)
  }

  lemma {:induction false} DistinctIn(keys: seq<Key>)
    ensures forall i :: 0 <= i < |keys| ==> keys[i] in Distinct(keys)
    ensures forall j, k :: 0 <= j < k < |Distinct(keys)| ==> Distinct(keys)[j] != Distinct(keys)[k]
  {
    if keys != [] { DistinctIn(keys[..|keys| - 1]); }
  }

  /** The rank of key i among the categories by first occurrence; a float cannot count past LIMIT. */
  function Code(keys: seq<Key>, i: nat): nat
    requires i < |keys|
  {
    DistinctIn(keys);
    var rank := IndexOf(Distinct(keys), keys[i]);
    if rank <= LIMIT then rank else LIMIT
  }

  lemma {:induction false} DistinctGrows(keys: seq<Key>, more: seq<Key>)
    ensures |Distinct(keys)| <= |Distinct(keys + more)| && Distinct(keys + more)[..|Distinct(keys)|] == Distinct(keys)
  {
    if more == [] {
      assert keys + more == keys;
    } else {
      assert (keys + more)[..|keys + more| - 1] == keys + more[..|more| - 1];
      DistinctGrows(keys, more[..|more| - 1]);
    }
  }

  /** Later keys do not change a code. */
  lemma CodeStays(keys: seq<Key>, more: seq<Key>, i: nat)
    requires i < |keys|
    ensures Code(keys + more, i) == Code(keys, i)
  {
    DistinctIn(keys);
    DistinctIn(keys + more);
    DistinctGrows(keys, more);
    var d, e := Distinct(keys), Distinct(keys + more);
    assert (keys + more)[i] == keys[i];
    var k := IndexOf(d, keys[i]);
    assert e[k] == e[..|d|][k];
  }

  /** Every code but 0 comes after the code one below it. */
  predicate Gradual(codes: seq<nat>) {
    forall i :: 0 <= i < |codes| && codes[i] != 0 ==> codes[i] - 1 in codes[..i]
  }

  function Codes(keys: seq<Key>): (codes: seq<nat>)
    ensures |codes| == |keys| && forall i :: 0 <= i < |keys| ==> codes[i] == Code(keys, i)
  {
    seq(|keys|, i requires 0 <= i < |keys| => Code(keys, i))
  }

  /** Each category's first key stands before the first key of the next category. */
  lemma {:induction false} FirstKeys(keys: seq<Key>, r: nat, i: nat)
    requires i < |keys| && r < |Distinct(keys)| && keys[i] in Distinct(keys) && r < IndexOf(Distinct(keys), keys[i])
    ensures exists j :: 0 <= j < i && keys[j] == Distinct(keys)[r]
  {
    var front := keys[..|keys| - 1];
    var d := Distinct(front);
    DistinctIn(front);
    DistinctIn(keys);
    if i < |front| {
      assert front[i] == keys[i] && front[i] in d;
      var k := IndexOf(d, front[i]);
      assert Distinct(keys)[k] == keys[i];
      FirstKeys(front, r, i);
      var j :| 0 <= j < i && front[j] == d[r];
      assert keys[j] == d[r] == Distinct(keys)[r];
    } else if r < |d| {
      KeyOfDistinct(front, r);
      var j :| 0 <= j < |front| && front[j] == d[r];
      assert keys[j] == front[j];
    }
  }

  lemma {:induction false} KeyOfDistinct(keys: seq<Key>, r: nat)
    requires r < |Distinct(keys)|
    ensures exists j :: 0 <= j < |keys| && keys[j] == Distinct(keys)[r]
  {
    var front := keys[..|keys| - 1];
    if r < |Distinct(front)| {
      KeyOfDistinct(front, r);
      var j :| 0 <= j < |front| && front[j] == Distinct(front)[r];
      assert keys[j] == front[j];
    } else {
      assert keys[|keys| - 1] == Distinct(keys)[r];
    }
  }

  lemma CodesGradual(keys: seq<Key>)
    ensures Gradual(Codes(keys))
  {
    var codes, d := Codes(keys), Distinct(keys);
    DistinctIn(keys);
    forall i | 0 <= i < |codes| && codes[i] != 0 ensures codes[i] - 1 in codes[..i] {
      var r := codes[i] - 1;
      FirstKeys(keys, r, i);
      var j :| 0 <= j < i && keys[j] == d[r];
      assert codes[j] == r;
      assert codes[..i][j] == r;
    }
  }

  /** `FastColorMap`: the arena owns the keys, the map finds their codes. */
  class FastColorMap {
    var arena: seq<Key>
    var codes: map<Key, nat>
    var next_val: nat
    ghost var seen: seq<Key>

    ghost predicate Valid()
      reads this
    {
      && arena == Distinct(seen)
      && (forall key :: key in codes <==> key in arena)
      && (forall k :: 0 <= k < |arena| ==> codes[arena[k]] == if k <= LIMIT then k else LIMIT)
      && next_val == if |arena| <= LIMIT then |arena| else LIMIT
    }

    constructor ()
      ensures Valid() && seen == []
    {
      arena, codes, next_val, seen := [], map[], 0, [];
    }

    method GetOrInsert(key: Key) returns (val: nat)
      requires Valid()
      modifies this
      ensures Valid() && seen == old(seen) + [key] && val == Code(seen, |old(seen)|)
    {
      DistinctIn(seen + [key]);
      assert (seen + [key])[..|seen|] == seen;
      seen := seen + [key];
      if key in codes {
        return codes[key];
      }
      arena := arena + [key];
      val := next_val;
      next_val := if next_val < LIMIT then next_val + 1 else next_val;
      codes := codes[key := val];
    }
  }

  // ----- codes and colours -----

  /** The colours of the rows as texts; NULL counts as the empty text. */
  function Colours(nodes: seq<Node>): set<seq<Byte>> {
    set i | 0 <= i < |nodes| :: if nodes[i].color.Some? then nodes[i].color.value else []
  }

  predicate ColouredAlike(a: Node, b: Node) {
    (if a.color.Some? then a.color.value else []) == (if b.color.Some? then b.color.value else [])
  }

  /** The first row from j on with the colour of row i. */
  function FirstRow(nodes: seq<Node>, i: nat, j: nat): (first: nat)
    requires j <= i < |nodes|
    ensures j <= first <= i && ColouredAlike(nodes[first], nodes[i])
    ensures forall k :: j <= k < first ==> !ColouredAlike(nodes[k], nodes[i])
    decreases i - j
  {
    if ColouredAlike(nodes[j], nodes[i]) then j else FirstRow(nodes, i, j + 1)
  }

  /** The number of different colours before the first row with the colour of row i. */
  function Rank(nodes: seq<Node>, i: nat): nat
    requires i < |nodes|
  {
    |Colours(nodes[..FirstRow(nodes, i, 0)])|
  }

  lemma {:induction false} DistinctSet(keys: seq<Key>)
    ensures |set k | k in keys| == |Distinct(keys)| && forall k :: k in keys <==> k in Distinct(keys)
  {
    if keys != [] {
      var front, last := keys[..|keys| - 1], keys[|keys| - 1];
      DistinctSet(front);
      assert keys == front + [last];
      var s := set k | k in front;
      assert (set k | k in keys) == s + {last};
      if last in front { assert s + {last} == s; }
    }
  }

  lemma ColoursAreKeys(nodes: seq<Node>)
    ensures Colours(nodes) == set k | k in Keys(nodes)
    ensures |Colours(nodes)| == |Distinct(Keys(nodes))|
  {
    var keys := Keys(nodes);
    forall k ensures k in Colours(nodes) <==> k in keys {
      if k in keys {
        var i :| 0 <= i < |keys| && keys[i] == k;
        assert nodes[i].Key() == k;
      }
      if k in Colours(nodes) {
        var i :| 0 <= i < |nodes| && k == if nodes[i].color.Some? then nodes[i].color.value else [];
        assert keys[i] == k;
      }
    }
    DistinctSet(keys);
  }

  /** The place of a key is the number of different keys before its first occurrence. */
  lemma FirstPlace(keys: seq<Key>, first: nat)
    requires first < |keys| && forall j :: 0 <= j < first ==> keys[j] != keys[first]
    ensures keys[first] in Distinct(keys) && IndexOf(Distinct(keys), keys[first]) == |Distinct(keys[..first])|
  {
    DistinctIn(keys);
    var upTo := keys[..first + 1];
    assert upTo[..first] == keys[..first] && keys == upTo + keys[first + 1..];
    DistinctGrows(upTo, keys[first + 1..]);
    DistinctSet(keys[..first]);
    var n := |Distinct(keys[..first])|;
    assert Distinct(upTo) == Distinct(keys[..first]) + [keys[first]];
    assert Distinct(keys)[n] == Distinct(keys)[..|Distinct(upTo)|][n];
  }

  /** The code of a row is its colour's rank, as far as a float counts. */
  lemma CodeIsRank(nodes: seq<Node>, i: nat)
    requires i < |nodes|
    ensures Code(Keys(nodes), i) == if Rank(nodes, i) <= LIMIT then Rank(nodes, i) else LIMIT
  {
    hide Colours;
    var keys, first := Keys(nodes), FirstRow(nodes, i, 0);
    DistinctIn(keys);
    forall j | 0 <= j < first ensures keys[j] != keys[first] { assert !ColouredAlike(nodes[j], nodes[i]); }
    FirstPlace(keys, first);
    ColoursAreKeys(nodes[..first]);
    assert Keys(nodes[..first]) == keys[..first];
  }

  /** The first row has code 0, and up to the limit two rows have one code exactly when they have one colour. */
  lemma CodesAreColours(nodes: seq<Node>, i: nat, j: nat)
    requires i < |nodes| && j < |nodes|
    ensures Code(Keys(nodes), 0) == 0
    ensures |Colours(nodes)| <= LIMIT + 1 ==>
              (Code(Keys(nodes), i) == Code(Keys(nodes), j) <==> ColouredAlike(nodes[i], nodes[j]))
    ensures ColouredAlike(nodes[i], nodes[j]) ==> Code(Keys(nodes), i) == Code(Keys(nodes), j)
  {
    ColoursAreKeys(nodes);
    if |Colours(nodes)| <= LIMIT + 1 { CodesTellApart(Keys(nodes), i, j); }
    assert |Colours(nodes[..0])| == 0;
    CodeIsRank(nodes, 0);
  }

  // ----- records -----

  /** A word in memory, lowest byte first. */
  function Bytes4(w: Word): (s: seq<Byte>)
    ensures |s| == 4
  {
    [w % 256, w / 256 % 256, w / 65536 % 256, w / 16777216]
  }

  function Word4(s: seq<Byte>): Word
    requires |s| == 4
  {
    var a: int, b: int, c: int, d: int := s[0], s[1], s[2], s[3];
    a + 256 * b + 65536 * c + 16777216 * d
  }

  lemma WordRead(w: Word)
    ensures Word4(Bytes4(w)) == w
  {
  }

  function Record(floats: Floats, node: Node, code: nat): (s: seq<Byte>)
    ensures |s| == 20
  {
    Bytes4(node.x) + Bytes4(node.y) + Bytes4(node.size) + Bytes4(floats.word(code)) + Bytes4(node.id)
  }

  function Keys(nodes: seq<Node>): (keys: seq<Key>)
    ensures |keys| == |nodes| && forall i :: 0 <= i < |keys| ==> keys[i] == nodes[i].Key()
  {
    seq(|nodes|, i requires 0 <= i < |nodes| => nodes[i].Key())
  }

  /** The bytes of the whole stream: the records of the nodes, without regard to chunks. */
  function Payload(floats: Floats, nodes: seq<Node>): (s: seq<Byte>)
    ensures |s| == 20 * |nodes|
  {
    if nodes == [] then []
    else
      var n := |nodes| - 1;
      Payload(floats, nodes[..n]) + Record(floats, nodes[n], Code(Keys(nodes), n))
  }

  method MemCpy(buffer: array<Byte>, at: nat, source: seq<Byte>)
    requires at + |source| <= buffer.Length
    modifies buffer
    ensures buffer[..at + |source|] == old(buffer[..at]) + source
  {
    for k := 0 to |source|
      invariant buffer[..at + k] == old(buffer[..at]) + source[..k]
    {
      buffer[at + k] := source[k];
      assert buffer[..at + k + 1] == buffer[..at + k] + [source[k]];
    }
    assert source[..|source|] == source;
  }

  /** Interleaved packing of one row. */
  method PackRow(floats: Floats, buffer: array<Byte>, at: nat, node: Node, color_val: nat)
    requires at + 20 <= buffer.Length
    modifies buffer
    ensures buffer[..at + 20] == old(buffer[..at]) + Record(floats, node, color_val)
  {
    hide Bytes4;
    MemCpy(buffer, at, Bytes4(node.x));
    MemCpy(buffer, at + 4, Bytes4(node.y));
    MemCpy(buffer, at + 8, Bytes4(node.size));
    MemCpy(buffer, at + 12, Bytes4(floats.word(color_val)));
    MemCpy(buffer, at + 16, Bytes4(node.id));
    FiveParts(old(buffer[..at]), Bytes4(node.x), Bytes4(node.y), Bytes4(node.size), Bytes4(floats.word(color_val)),
              Bytes4(node.id));
  }

  lemma FiveParts(s: seq<Byte>, a: seq<Byte>, b: seq<Byte>, c: seq<Byte>, d: seq<Byte>, e: seq<Byte>)
    ensures s + a + b + c + d + e == s + (a + b + c + d + e)
  {
  }

  /** One more node: its record follows, and the records before it keep their codes. */
  lemma PayloadSnoc(floats: Floats, nodes: seq<Node>, node: Node)
    ensures Payload(floats, nodes + [node]) == Payload(floats, nodes)
            + Record(floats, node, Code(Keys(nodes) + [node.Key()], |nodes|))
  {
    var all := nodes + [node];
    assert all[..|nodes|] == nodes && Keys(all) == Keys(nodes) + [node.Key()];
  }

  /** The content provider of the node endpoint. */
  class NodeProvider {
    const floats: Floats
    const color_map: FastColorMap
    var chunks: seq<seq<Node>>
    var open: bool
    var sent: seq<Byte>
    ghost var nodes: seq<Node>

    ghost predicate Valid()
      reads this, color_map
    {
      && color_map.Valid() && color_map.seen == Keys(nodes)
      && sent == Payload(floats, nodes)
      && (!open ==> chunks == [])
    }

    constructor (floats': Floats, result: seq<seq<Node>>)
      ensures Valid() && open && chunks == result && nodes == [] && floats == floats' && fresh(color_map)
    {
      floats, chunks, open, sent, nodes := floats', result, true, [], [];
      color_map := new FastColorMap();
    }

    /** Packs a chunk into a buffer of 20 bytes a row. */
    method PackChunk(chunk: seq<Node>) returns (data: seq<Byte>)
      requires Valid()
      modifies color_map
      ensures color_map.Valid() && color_map.seen == Keys(nodes + chunk)
      ensures Payload(floats, nodes) + data == Payload(floats, nodes + chunk)
    {
      hide Payload, Record, FastColorMap.Valid, Code;
      var buffer := new Byte[|chunk| * 20](_ => 0);
      assert nodes + chunk[..0] == nodes && buffer[..0] == [];
      for i := 0 to |chunk|
        invariant color_map.Valid() && color_map.seen == Keys(nodes + chunk[..i]) && nodes == old(nodes)
        invariant Payload(floats, nodes) + buffer[..20 * i] == Payload(floats, nodes + chunk[..i])
      {
        var color_val := color_map.GetOrInsert(chunk[i].Key());
        ghost var before := buffer[..20 * i];
        PackRow(floats, buffer, 20 * i, chunk[i], color_val);
        PayloadSnoc(floats, nodes + chunk[..i], chunk[i]);
        assert (nodes + chunk[..i]) + [chunk[i]] == nodes + chunk[..i + 1];
        assert Payload(floats, nodes) + (before + Record(floats, chunk[i], color_val))
            == (Payload(floats, nodes) + before) + Record(floats, chunk[i], color_val);
      }
      assert chunk[..|chunk|] == chunk;
      data := buffer[..20 * |chunk|];
    }

    /** One call of the provider: the next chunk, or the end. */
    method Provide()
      requires Valid()
      modifies this, color_map
      ensures Valid() && nodes + Delivered(chunks) == old(nodes) + old(Delivered(chunks))
      ensures open <==> old(open) && old(chunks) != [] && old(chunks)[0] != []
      ensures open ==> chunks == old(chunks)[1..] && nodes == old(nodes) + old(chunks)[0]
      ensures !open ==> chunks == [] && sent == old(sent)
    {
      hide Payload, FastColorMap.Valid;
      if !open {
        return;
      }
      if chunks == [] || chunks[0] == [] {
        open, chunks := false, [];
        return;
      }
      var chunk := chunks[0];
      var data := PackChunk(chunk);
      sent := sent + data;
      assert nodes + (chunk + Delivered(chunks[1..])) == (nodes + chunk) + Delivered(chunks[1..]);
      nodes := nodes + chunk;
      chunks := chunks[1..];
    }
  }

  /** The whole stream: the bytes sent depend on the rows alone. */
  method Stream(floats: Floats, result: seq<seq<Node>>) returns (sent: seq<Byte>)
    ensures sent == Payload(floats, Delivered(result))
  {
    var provider := new NodeProvider(floats, result);
    assert provider.nodes + Delivered(provider.chunks) == Delivered(result);
    while provider.open
      invariant fresh(provider) && fresh(provider.color_map)
      invariant provider.Valid() && provider.floats == floats
                && provider.nodes + Delivered(provider.chunks) == Delivered(result)
      decreases provider.open, |provider.chunks|
    {
      provider.Provide();
    }
    assert provider.nodes + [] == provider.nodes;
    sent := provider.sent;
  }

  // ----- the worker -----

  const PALETTE: seq<string> := [
    "#e6194B", "#3cb44b", "#ffe119", "#4363d8", "#f58231", "#911eb4", "#42d4f4", "#f032e6", "#bfef45", "#fabed4",
    "#469990", "#dcbeff", "#9A6324", "#fffac8", "#800000", "#aaffc3", "#808000", "#ffd8b1", "#000075"
  ]

  const GREY := "#666666"

  /** The colour a category is always painted in. */
  function CategoryColor(c: nat): string {
    if c == 0 then GREY else PALETTE[(c - 1) % |PALETTE|]
  }

  function HexDigit(c: char): nat {
    match HexValue(c) case Some(n) => n case None => 0
  }

  /** Red, green and blue as parts of 255; the alpha is always 1. */
  datatype RGBA = RGBA(r: nat, g: nat, b: nat)

  function HexToRGBA(hex: string): RGBA
    requires |hex| == 7
  {
    RGBA(16 * HexDigit(hex[1]) + HexDigit(hex[2]), 16 * HexDigit(hex[3]) + HexDigit(hex[4]),
         16 * HexDigit(hex[5]) + HexDigit(hex[6]))
  }

  lemma ColorsAreHex(c: nat)
    ensures |CategoryColor(c)| == 7
  {
  }

  function CategoryRGBA(c: nat): RGBA {
    ColorsAreHex(c);
    HexToRGBA(CategoryColor(c))
  }

  /** Word k of the buffer. */
  function WordAt(buf: seq<Byte>, k: nat): Word
    requires 4 * k + 4 <= |buf|
  {
    Word4(buf[4 * k..4 * k + 4])
  }

  /** What the worker posts: raw position and size words, colour parts of 255, ids. */
  datatype Painted = Painted(positions: seq<Word>, sizes: seq<Word>, colors: seq<nat>, ids: seq<Word>) {
    predicate Sized(count: nat) {
      |positions| == 2 * count && |sizes| == count && |colors| == 4 * count && |ids| == count
    }

    predicate Places(buf: seq<Byte>, i: nat)
      requires Sized(|buf| / 20) && i < |buf| / 20
    {
      && positions[2 * i] == WordAt(buf, 5 * i) && positions[2 * i + 1] == WordAt(buf, 5 * i + 1)
      && sizes[i] == WordAt(buf, 5 * i + 2) && ids[i] == WordAt(buf, 5 * i + 4)
    }

    predicate Colors(i: nat, rgba: RGBA)
      requires 4 * i + 3 < |colors|
    {
      colors[4 * i] == rgba.r && colors[4 * i + 1] == rgba.g && colors[4 * i + 2] == rgba.b && colors[4 * i + 3] == 255
    }
  }

  function Categories(floats: Floats, buf: seq<Byte>): (cats: seq<nat>)
    ensures |cats| == |buf| / 20
    ensures forall i :: 0 <= i < |cats| ==> cats[i] == floats.whole(WordAt(buf, i * 5 + 3))
  {
    seq(|buf| / 20, i requires 0 <= i < |buf| / 20 => floats.whole(WordAt(buf, i * 5 + 3)))
  }

  /** The painted categories are 1..k, each in its own colour. */
  ghost predicate Painting(colors: map<nat, string>) {
    forall c: nat :: (c in colors <==> 1 <= c <= |colors|) && (c in colors ==> colors[c] == CategoryColor(c))
  }

  /** Every colour of the map is a hex colour. */
  ghost predicate HexColors(colors: map<nat, string>) {
    forall c: nat :: c in colors ==> |colors[c]| == 7
  }

  /** A new category takes the next palette colour, by the size of the map. */
  lemma NextColor(colors: map<nat, string>, cat: nat)
    requires HexColors(colors) && cat != 0 && cat !in colors
    ensures HexColors(colors[cat := PALETTE[|colors| % |PALETTE|]])
    ensures Painting(colors) && cat <= |colors| + 1 ==> Painting(colors[cat := PALETTE[|colors| % |PALETTE|]])
  {
  }

  class Worker {
    var colorMap: map<nat, string>

    ghost predicate Valid()
      reads this
    {
      Painting(colorMap)
    }

    constructor ()
      ensures Valid() && colorMap == map[]
    {
      colorMap := map[];
    }

    ghost predicate Hexes()
      reads this
    {
      HexColors(colorMap)
    }

    method GetCategoryColor(cat: nat) returns (hex: string)
      requires Hexes()
      modifies this
      ensures Hexes() && |hex| == 7 && |colorMap| >= |old(colorMap)|
      ensures colorMap == if cat == 0 || cat in old(colorMap) then old(colorMap)
                          else old(colorMap)[cat := PALETTE[|old(colorMap)| % |PALETTE|]]
      ensures hex == if cat == 0 then "#666666" else colorMap[cat]
      ensures old(Valid()) && cat <= |old(colorMap)| + 1 ==> Valid() && hex == CategoryColor(cat) && cat <= |colorMap|
    {
      if cat == 0 {
        return GREY;
      }
      if cat !in colorMap {
        NextColor(colorMap, cat);
        colorMap := colorMap[cat := PALETTE[|colorMap| % |PALETTE|]];
      }
      hex := colorMap[cat];
    }

    /** The colour of one point, through the cache of this message. */
    method Paint(cat: nat, rgbaCache: map<nat, RGBA>) returns (rgba: RGBA, cache: map<nat, RGBA>)
      requires Hexes()
      modifies this
      ensures Hexes() && |colorMap| >= |old(colorMap)|
      ensures cat in rgbaCache ==> rgba == rgbaCache[cat] && cache == rgbaCache && colorMap == old(colorMap)
      ensures cat !in rgbaCache ==>
                && cache == rgbaCache[cat := rgba] && (cat != 0 ==> cat in colorMap && |colorMap[cat]| == 7)
                && rgba == HexToRGBA(if cat == 0 then "#666666" else colorMap[cat])
                && colorMap == if cat == 0 || cat in old(colorMap) then old(colorMap)
                               else old(colorMap)[cat := PALETTE[|old(colorMap)| % |PALETTE|]]
      ensures old(Valid()) && CacheOk(rgbaCache, |old(colorMap)|) && cat <= |old(colorMap)| + 1 ==>
                Valid() && CacheOk(cache, |colorMap|) && rgba == CategoryRGBA(cat) && cat <= |colorMap|
    {
      hide Valid, CategoryColor, HexToRGBA, Hexes;
      ColorsAreHex(cat);
      cache := rgbaCache;
      if cat in cache {
        rgba := cache[cat];
      } else {
        var hex := GetCategoryColor(cat);
        rgba := HexToRGBA(hex);
        cache := cache[cat := rgba];
      }
    }

    /** One message: decodes the records of a response and paints them. None: the length is no multiple of a word. */
    method OnMessage(floats: Floats, buf: seq<Byte>) returns (r: Option<Painted>)
      requires Hexes()
      modifies this
      ensures Hexes()
      ensures r.None? <==> |buf| / 20 > 0 && |buf| % 4 != 0
      ensures r.Some? ==> r.value.Sized(|buf| / 20) && forall i :: 0 <= i < |buf| / 20 ==> r.value.Places(buf, i)
      ensures old(Valid()) && Gradual(Categories(floats, buf)) ==> Valid()
      ensures old(Valid()) && Gradual(Categories(floats, buf)) && r.Some? ==>
                forall i :: 0 <= i < |buf| / 20 ==> r.value.Colors(i, CategoryRGBA(Categories(floats, buf)[i]))
    {
      hide Valid, WordAt, CategoryRGBA, Hexes, Gradual, Filled, CacheOk, PaintedAs;
      var count := |buf| / 20;
      if count == 0 {
        return Some(Painted([], [], [], []));
      }
      if |buf| % 4 != 0 {
        return None;
      }
      var positions, sizes := new Word[count * 2](_ => 0), new Word[count](_ => 0);
      var colors, ids := new nat[count * 4](_ => 0), new Word[count](_ => 0);
      var rgbaCache: map<nat, RGBA> := map[];
      ghost var cats := Categories(floats, buf);
      ghost var good := Valid() && Gradual(cats);
      ghost var painted: seq<RGBA> := [];
      NothingPainted(buf, cats, positions[..], sizes[..], colors[..], ids[..], |colorMap|);
      for i := 0 to count
        invariant Hexes() && |painted| == i
        invariant fresh(positions) && fresh(sizes) && fresh(colors) && fresh(ids)
        invariant Filled(buf, painted, positions[..], sizes[..], colors[..], ids[..])
        invariant good ==> Valid() && CacheOk(rgbaCache, |colorMap|) && PaintedAs(cats, painted, |colorMap|)
      {
        var cat := floats.whole(WordAt(buf, i * 5 + 3));
        var rgba;
        ghost var reach := |colorMap|;
        if good { InReach(cats, painted, reach); }
        rgba, rgbaCache := Paint(cat, rgbaCache);
        StorePoint(buf, i, rgba, positions, sizes, colors, ids, painted);
        if good { PaintedNext(cats, painted, rgba, reach, |colorMap|); }
        painted := painted + [rgba];
      }
      r := Some(Painted(positions[..], sizes[..], colors[..], ids[..]));
      AllPainted(buf, cats, painted, r.value, good, |colorMap|);
    }
  }

  /** The arrays hold the first |painted| points. */
  ghost predicate Filled(buf: seq<Byte>, painted: seq<RGBA>, positions: seq<Word>, sizes: seq<Word>, colors: seq<nat>,
                         ids: seq<Word>)
  {
    var p := Painted(positions, sizes, colors, ids);
    p.Sized(|buf| / 20) && |painted| <= |buf| / 20 && forall j ::
      0 <= j < |painted| ==> p.Places(buf, j) && p.Colors(j, painted[j])
  }

  method StorePoint(buf: seq<Byte>, i: nat, rgba: RGBA, positions: array<Word>, sizes: array<Word>, colors: array<nat>,
                    ids: array<Word>, ghost painted: seq<RGBA>)
    requires i == |painted| < |buf| / 20 && Filled(buf, painted, positions[..], sizes[..], colors[..], ids[..])
    requires positions != sizes && positions != ids && sizes != ids
    modifies positions, sizes, colors, ids
    ensures Filled(buf, painted + [rgba], positions[..], sizes[..], colors[..], ids[..])
  {
    hide WordAt;
    ghost var before := Painted(positions[..], sizes[..], colors[..], ids[..]);
    positions[i * 2] := WordAt(buf, i * 5);
    positions[i * 2 + 1] := WordAt(buf, i * 5 + 1);
    sizes[i] := WordAt(buf, i * 5 + 2);
    colors[i * 4] := rgba.r;
    colors[i * 4 + 1] := rgba.g;
    colors[i * 4 + 2] := rgba.b;
    colors[i * 4 + 3] := 255;
    ids[i] := WordAt(buf, i * 5 + 4);
    ghost var now := Painted(positions[..], sizes[..], colors[..], ids[..]);
    forall j | 0 <= j < i ensures now.Places(buf, j) && now.Colors(j, painted[j]) {
      assert before.Places(buf, j) && before.Colors(j, painted[j]);
    }
  }

  lemma NothingPainted(buf: seq<Byte>, cats: seq<nat>, positions: seq<Word>, sizes: seq<Word>, colors: seq<nat>,
                       ids: seq<Word>, reach: nat)
    requires Painted(positions, sizes, colors, ids).Sized(|buf| / 20)
    ensures Filled(buf, [], positions, sizes, colors, ids) && CacheOk(map[], reach) && PaintedAs(cats, [], reach)
  {
  }

  lemma PaintedNext(cats: seq<nat>, painted: seq<RGBA>, rgba: RGBA, reach: nat, reach2: nat)
    requires PaintedAs(cats, painted, reach) && reach <= reach2 && |painted| < |cats|
    requires rgba == CategoryRGBA(cats[|painted|]) && cats[|painted|] <= reach2
    ensures PaintedAs(cats, painted + [rgba], reach2)
  {
    hide CategoryRGBA;
  }

  lemma AllPainted(buf: seq<Byte>, cats: seq<nat>, painted: seq<RGBA>, p: Painted, good: bool, reach: nat)
    requires Filled(buf, painted, p.positions, p.sizes, p.colors, p.ids) && |painted| == |buf| / 20 == |cats|
    requires good ==> PaintedAs(cats, painted, reach)
    ensures p.Sized(|buf| / 20) && forall i :: 0 <= i < |buf| / 20 ==> p.Places(buf, i)
    ensures good ==> forall i :: 0 <= i < |buf| / 20 ==> p.Colors(i, CategoryRGBA(cats[i]))
  {
    hide WordAt, CategoryRGBA;
  }

  /** The first |painted| points have the colours of their categories, all within reach. */
  ghost predicate PaintedAs(cats: seq<nat>, painted: seq<RGBA>, reach: nat) {
    |painted| <= |cats| && forall j :: 0 <= j < |painted| ==> painted[j] == CategoryRGBA(cats[j]) && cats[j] <= reach
  }

  predicate CacheOk(cache: map<nat, RGBA>, reach: nat) {
    forall c: nat :: c in cache ==> c <= reach && cache[c] == CategoryRGBA(c)
  }

  /** The next category is at most one past those painted so far. */
  lemma InReach(cats: seq<nat>, painted: seq<RGBA>, reach: nat)
    requires Gradual(cats) && PaintedAs(cats, painted, reach) && |painted| < |cats|
    ensures cats[|painted|] <= reach + 1
  {
    hide CategoryRGBA;
    var i := |painted|;
    if cats[i] != 0 {
      var j :| 0 <= j < i && cats[..i][j] == cats[i] - 1;
      assert painted[j] == CategoryRGBA(cats[j]);
    }
  }

  // ----- server and worker agree -----

  lemma {:induction false} RecordAt(floats: Floats, nodes: seq<Node>, i: nat)
    requires i < |nodes|
    ensures Payload(floats, nodes)[20 * i..20 * i + 20] == Record(floats, nodes[i], Code(Keys(nodes), i))
  {
    hide Record, Code;
    var n := |nodes| - 1;
    var front := nodes[..n];
    if i < n {
      RecordAt(floats, front, i);
      assert Keys(nodes) == Keys(front) + [nodes[n].Key()];
      CodeStays(Keys(front), [nodes[n].Key()], i);
      assert Payload(floats, nodes)[20 * i..20 * i + 20] == Payload(floats, front)[20 * i..20 * i + 20];
    } else {
      assert Payload(floats, nodes)[20 * n..20 * n + 20] == Record(floats, nodes[n], Code(Keys(nodes), n));
    }
  }

  lemma FieldsAt(s: seq<Byte>, floats: Floats, node: Node, code: nat, i: nat)
    requires 20 * i + 20 <= |s| && s[20 * i..20 * i + 20] == Record(floats, node, code)
    ensures WordAt(s, 5 * i) == node.x && WordAt(s, 5 * i + 1) == node.y && WordAt(s, 5 * i + 2) == node.size
    ensures WordAt(s, 5 * i + 3) == floats.word(code) && WordAt(s, 5 * i + 4) == node.id
  {
    hide Bytes4, Word4;
    FieldAt(s, i, 0, Bytes4(node.x), floats, node, code);
    FieldAt(s, i, 1, Bytes4(node.y), floats, node, code);
    FieldAt(s, i, 2, Bytes4(node.size), floats, node, code);
    FieldAt(s, i, 3, Bytes4(floats.word(code)), floats, node, code);
    FieldAt(s, i, 4, Bytes4(node.id), floats, node, code);
    WordRead(node.x);
    WordRead(node.y);
    WordRead(node.size);
    WordRead(floats.word(code));
    WordRead(node.id);
  }

  lemma FieldAt(s: seq<Byte>, i: nat, f: nat, field: seq<Byte>, floats: Floats, node: Node, code: nat)
    requires 20 * i + 20 <= |s| && s[20 * i..20 * i + 20] == Record(floats, node, code) && f < 5
    requires Record(floats, node, code)[4 * f..4 * f + 4] == field
    ensures s[4 * (5 * i + f)..4 * (5 * i + f) + 4] == field
  {
    assert s[20 * i..20 * i + 20][4 * f..4 * f + 4] == s[20 * i + 4 * f..20 * i + 4 * f + 4];
  }

  /** What the worker decodes from the stream are the rows the server sent, and the categories are the first-occurrence
      codes, which come in the order the worker's colour map relies on. */
  lemma ServerAndWorkerAgree(floats: Floats, nodes: seq<Node>)
    requires floats.Exact()
    ensures var buf := Payload(floats, nodes);
            && |buf| / 20 == |nodes| && |buf| % 4 == 0
            && Categories(floats, buf) == Codes(Keys(nodes)) && Gradual(Categories(floats, buf))
            && forall i :: 0 <= i < |nodes| ==>
                 && WordAt(buf, 5 * i) == nodes[i].x && WordAt(buf, 5 * i + 1) == nodes[i].y
                 && WordAt(buf, 5 * i + 2) == nodes[i].size && WordAt(buf, 5 * i + 4) == nodes[i].id
    ensures var cats := Categories(floats, Payload(floats, nodes));
            && |cats| == |nodes| && (nodes != [] ==> cats[0] == 0)
            && (forall i, j :: 0 <= i < |nodes| && 0 <= j < |nodes| && |Colours(nodes)| <= LIMIT + 1 ==>
                  (cats[i] == cats[j] <==> ColouredAlike(nodes[i], nodes[j])))
            && forall i :: 0 <= i < |nodes| ==>
                 cats[i] == if Rank(nodes, i) <= LIMIT then Rank(nodes, i) else LIMIT
  {
    hide Payload, Record, Code, WordAt, ColouredAlike, Rank, Colours, Distinct;
    var buf := Payload(floats, nodes);
    forall i | 0 <= i < |nodes|
      ensures WordAt(buf, 5 * i) == nodes[i].x && WordAt(buf, 5 * i + 1) == nodes[i].y
      ensures WordAt(buf, 5 * i + 2) == nodes[i].size && WordAt(buf, 5 * i + 4) == nodes[i].id
      ensures floats.whole(WordAt(buf, i * 5 + 3)) == Code(Keys(nodes), i)
    {
      RecordAt(floats, nodes, i);
      FieldsAt(buf, floats, nodes[i], Code(Keys(nodes), i), i);
      CodeBound(Keys(nodes), i);
    }
    CodesGradual(Keys(nodes));
    assert Categories(floats, buf) == Codes(Keys(nodes));
    AllCodes(nodes);
  }

  lemma AllCodes(nodes: seq<Node>)
    ensures nodes != [] ==> Code(Keys(nodes), 0) == 0
    ensures forall i, j :: 0 <= i < |nodes| && 0 <= j < |nodes| && |Colours(nodes)| <= LIMIT + 1 ==>
              (Code(Keys(nodes), i) == Code(Keys(nodes), j) <==> ColouredAlike(nodes[i], nodes[j]))
    ensures forall i :: 0 <= i < |nodes| ==>
              Code(Keys(nodes), i) == if Rank(nodes, i) <= LIMIT then Rank(nodes, i) else LIMIT
  {
    hide Code, ColouredAlike, Rank, Colours, Distinct, Keys;
    forall i, j | 0 <= i < |nodes| && 0 <= j < |nodes|
      ensures Code(Keys(nodes), 0) == 0
      ensures |Colours(nodes)| <= LIMIT + 1 ==>
                (Code(Keys(nodes), i) == Code(Keys(nodes), j) <==> ColouredAlike(nodes[i], nodes[j]))
      ensures Code(Keys(nodes), i) == if Rank(nodes, i) <= LIMIT then Rank(nodes, i) else LIMIT
    {
      CodesAreColours(nodes, i, j);
      CodeIsRank(nodes, i);
    }
    if nodes != [] { CodesAreColours(nodes, 0, 0); }
  }

  lemma CodeBound(keys: seq<Key>, i: nat)
    requires i < |keys|
    ensures Code(keys, i) <= LIMIT
  {
  }

  /** Up to the limit a code is the rank of its category, so different categories have different codes. */
  lemma CodesTellApart(keys: seq<Key>, i: nat, j: nat)
    requires i < |keys| && j < |keys| && |Distinct(keys)| <= LIMIT + 1
    ensures Code(keys, i) == Code(keys, j) <==> keys[i] == keys[j]
  {
    DistinctIn(keys);
  }
}
