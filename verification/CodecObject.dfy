/**
 The two traversals as the source runs them: recursion that threads a mutable
 budget, with its loops. Each is proved against the budget-free specification
 and the depth and node counts of the value.
 */
module CodecObject {
  import opened Wrappers
  import opened Unicode
  import opened Json
  import opened JsonPrinter
  import P = JsonParser
  import opened Sorting
  import opened Forms
  import V = Values
  import opened Encoding
  import opened Canonical
  import opened Decoding
  import S = DecodingShapes
  import O = JsonParserObject
  import Codec

  type Value = V.Value

  /** src/judging/codec/limits.ts */
  class Budget {
    const maxDepth: nat
    const maxNodes: nat
    var depth: nat
    var nodes: nat

    ghost predicate Valid()
      reads this
    {
      depth <= maxDepth && nodes <= maxNodes
    }

    constructor (maxDepth: nat := V.MAX_DEPTH, maxNodes: nat := V.MAX_NODES)
      ensures this.maxDepth == maxDepth && this.maxNodes == maxNodes && depth == 0 && nodes == 0 && Valid()
    {
      this.maxDepth, this.maxNodes := maxDepth, maxNodes;
      depth, nodes := 0, 0;
    }

    method CountNode() returns (ok: bool)
      modifies this`nodes
      ensures nodes == old(nodes) + 1 && (ok <==> nodes <= maxNodes)
    {
      nodes := nodes + 1;
      ok := nodes <= maxNodes;
    }

    method Enter() returns (ok: bool)
      modifies this`depth
      ensures depth == old(depth) + 1 && (ok <==> depth <= maxDepth)
    {
      depth := depth + 1;
      ok := depth <= maxDepth;
    }

    method Leave()
      requires depth > 0
      modifies this`depth
      ensures depth == old(depth) - 1
    {
      depth := depth - 1;
    }
  }

  // ---- loops ------------------------------------------------------------------------------

  method StripTrailing(present: seq<bool>) returns (slots: seq<bool>)
    ensures slots == V.Strip(present)
  {
    slots := present;
    while |slots| > 0 && !slots[|slots| - 1]
      invariant V.Strip(slots) == V.Strip(present)
    {
      slots := slots[..|slots| - 1];
    }
  }

  method CheckReachable(slots: seq<bool>) returns (ok: bool)
    ensures ok <==> V.Reachable(slots)
  {
    var i := 0;
    while i < |slots|
      invariant 0 <= i <= |slots|
      invariant forall k | 0 <= k < i && !slots[k] ::
                  (2 * k + 1 < |slots| ==> !slots[2 * k + 1]) && (2 * k + 2 < |slots| ==> !slots[2 * k + 2])
    {
      if !slots[i] {
        var left, right := 2 * i + 1, 2 * i + 2;
        if (left < |slots| && slots[left]) || (right < |slots| && slots[right]) { return false; }
      }
      i := i + 1;
    }
    return true;
  }

  method CheckDistinct(names: seq<Text>) returns (ok: bool)
    ensures ok <==> DistinctTexts(names)
  {
    var seen: set<Text> := {};
    var i := 0;
    while i < |names|
      invariant 0 <= i <= |names|
      invariant forall t :: t in seen <==> t in names[..i]
      invariant forall a, b | 0 <= a < b < i :: names[a] != names[b]
    {
      if names[i] in seen {
        var a :| 0 <= a < i && names[..i][a] == names[i];
        assert names[a] == names[i];
        return false;
      }
      seen := seen + {names[i]};
      assert names[..i + 1] == names[..i] + [names[i]];
      i := i + 1;
    }
    return true;
  }

  /** `assertSortedUnique`, on texts compared by their UTF-8 bytes. */
  method CheckSortedUnique(encoded: seq<Text>) returns (ok: bool)
    ensures ok <==> forall i | 0 < i < |encoded| :: Less(Bytes(encoded[i - 1]), Bytes(encoded[i]))
  {
    hide EncodeUtf8;
    var i := 1;
    while i < |encoded|
      invariant 1 <= i && (i <= |encoded| || |encoded| == 0)
      invariant forall k | 0 < k < i && k < |encoded| :: Less(Bytes(encoded[k - 1]), Bytes(encoded[k]))
    {
      var order := CompareUtf8(encoded[i - 1], encoded[i]);
      if order >= 0 {
        assert !Less(Bytes(encoded[i - 1]), Bytes(encoded[i]));
        return false;
      }
      i := i + 1;
    }
    return true;
  }

  // ---- the encoder --------------------------------------------------------------------------

  /** What a traversal promises: the specification's result, within the budget, which it charges exactly. */
  ghost predicate Charged(budget: Budget, depth: nat, nodes: nat, cost: nat)
    reads budget
  {
    budget.Valid() && budget.depth == depth && budget.nodes == nodes + cost
  }

  predicate Affordable(budget: Budget, depth: nat, nodes: nat, height: nat, cost: nat) {
    depth + height <= budget.maxDepth && nodes + cost <= budget.maxNodes
  }

  method Legally(s: V.Shape, n: nat) returns (ok: bool)
    ensures ok <==> Legal(s, n)
  {
    match s
    case SRecord(_, name, fields) =>
      var lone := HasLoneSurrogate(name);
      ok := CheckDistinct(fields);
      ok := ok && !lone && AllWellFormed(fields);
    case STreeNode(present) =>
      var slots := StripTrailing(present);
      ok := CheckReachable(slots);
    case _ => ok := Legal(s, n);
  }

  /** After sorting, two neighbours that compare equal are a duplicate. */
  method CheckNeighbours(sorted: seq<Keyed<seq<Text>>>) returns (ok: bool)
    requires Ascending(sorted)
    requires forall i | 0 <= i < |sorted| :: sorted[i].item != [] && sorted[i].key == Bytes(sorted[i].item[0])
    ensures ok <==> NeighboursAscend(sorted)
  {
    hide EncodeUtf8;
    var i := 1;
    while i < |sorted|
      invariant 1 <= i && (i <= |sorted| || |sorted| == 0)
      invariant forall k | 0 < k < i && k < |sorted| :: Less(sorted[k - 1].key, sorted[k].key)
    {
      var order := CompareUtf8(sorted[i - 1].item[0], sorted[i].item[0]);
      LessTrichotomy(sorted[i - 1].key, sorted[i].key);
      if order == 0 { return false; }
      i := i + 1;
    }
    return true;
  }

  /** Sort the groups by key, then reject duplicates. */
  method ArrangeTexts(s: V.Shape, texts: seq<Text>) returns (r: Option<seq<Text>>)
    ensures r == Arrange(s, texts)
  {
    hide EncodeUtf8, Chunks, Sort, Flat, Ascending;
    if Stride(s) == 0 { return Some(texts); }
    var chunks := Chunks(Stride(s), texts, Bytes);
    var sorted := Sort(chunks);
    SortAscends(chunks);
    forall i | 0 <= i < |sorted| ensures sorted[i].item != [] && sorted[i].key == Bytes(sorted[i].item[0]) {
      InSorted(chunks, sorted[i]);
    }
    var ok := CheckNeighbours(sorted);
    if !ok { return None; }
    return Some(Flat(sorted));
  }

  method EncodeNode(v: Value, budget: Budget) returns (r: Option<Text>)
    requires budget.Valid()
    modifies budget
    ensures r.Some? <==>
            Enc(v).Some? && Affordable(budget, old(budget.depth), old(budget.nodes), V.Depth(v, V.Encoder), V.Count(v))
    ensures r.Some? ==> r == Enc(v) && Charged(budget, old(budget.depth), old(budget.nodes), V.Count(v))
    decreases v, 1
  {
    var ok := budget.CountNode();
    if !ok { return None; }
    match v
    case Leaf(l) =>
      if !LegalLeaf(l) { return None; }
      return Some(Fill(FObject(LeafFields(l)), []));
    case Node(s, kids) =>
      hide LegalLeaf, Legal, Arrange, Fill, V.Fits;
      if V.Level(s, V.Encoder) == 1 {
        ok := budget.Enter();
        if !ok { return None; }
      }
      var texts := EncodeKids(kids, budget);
      if texts.None? { return None; }
      if V.Level(s, V.Encoder) == 1 {
        budget.Leave();
      }
      var legal := Legally(s, |kids|);
      if !V.Fits(s, kids) || !legal { return None; }
      var arranged := ArrangeTexts(s, texts.value);
      if arranged.None? { return None; }
      return Some(Fill(FObject(NodeFields(Trim(s), |kids|)), arranged.value));
  }

  method EncodeKids(vs: seq<Value>, budget: Budget) returns (r: Option<seq<Text>>)
    requires budget.Valid()
    modifies budget
    ensures r.Some? <==>
            EncAll(vs).Some? && Affordable(budget, old(budget.depth), old(budget.nodes), V.Depths(vs, V.Encoder), V.Counts(vs))
    ensures r.Some? ==> r == EncAll(vs) && Charged(budget, old(budget.depth), old(budget.nodes), V.Counts(vs))
    decreases vs, 0
  {
    hide Enc;
    if vs == [] { return Some([]); }
    var first := EncodeNode(vs[0], budget);
    if first.None? { return None; }
    var rest := EncodeKids(vs[1..], budget);
    if rest.None? { return None; }
    return Some([first.value] + rest.value);
  }

  /** `encodeValue(value, new Budget())` */
  method EncodeValue(v: Value) returns (r: Option<Text>)
    ensures r == Codec.Encode(v)
  {
    hide Enc;
    var budget := new Budget();
    r := EncodeNode(v, budget);
  }

  // ---- the builder ----------------------------------------------------------------------------

  /** `canonicalStringOf` of the first value of each group. */
  method KeyTexts(chunks: seq<Keyed<seq<Value>>>) returns (r: Option<seq<Text>>)
    requires forall i | 0 <= i < |chunks| :: chunks[i].item != [] && V.Within(chunks[i].item[0], V.Encoder)
    ensures r.Some? <==> forall i | 0 <= i < |chunks| :: Enc(chunks[i].item[0]).Some?
    ensures r.Some? ==> |r.value| == |chunks| && forall i | 0 <= i < |chunks| :: Some(r.value[i]) == Enc(chunks[i].item[0])
  {
    hide Enc, V.Within;
    var texts: seq<Text> := [];
    var i := 0;
    while i < |chunks|
      invariant 0 <= i <= |chunks| && |texts| == i
      invariant forall k | 0 <= k < i :: Some(texts[k]) == Enc(chunks[k].item[0])
    {
      var text := EncodeValue(chunks[i].item[0]);
      if text.None? { return None; }
      texts := texts + [text.value];
      i := i + 1;
    }
    return Some(texts);
  }

  method CheckOrder(stride: nat, kids: seq<Value>) returns (ok: bool)
    requires stride > 0 && forall i | 0 <= i < |kids| :: V.Within(kids[i], V.Encoder)
    ensures ok <==> SortedUnique(stride, kids)
  {
    hide Enc, V.Within, Chunks, EncodeUtf8;
    var chunks := Chunks(stride, kids, StringKey);
    Codec.ChunkMembers(stride, kids, StringKey);
    var texts := KeyTexts(chunks);
    if texts.None? { return false; }
    ok := CheckSortedUnique(texts.value);
  }

  /** Sets and dicts compare their members under a fresh default budget, so the one at hand must not be larger. */
  ghost predicate NoLarger(budget: Budget) {
    budget.maxDepth <= V.MAX_DEPTH && budget.maxNodes <= V.MAX_NODES
  }

  method BuildNode(j: Json, budget: Budget) returns (r: Option<Value>)
    requires budget.Valid() && NoLarger(budget)
    modifies budget
    ensures r.Some? <==>
            Build(j).Some?
            && Affordable(budget, old(budget.depth), old(budget.nodes), V.Depth(Build(j).value, V.Decoder), V.Count(Build(j).value))
    ensures r.Some? ==> r == Build(j) && Charged(budget, old(budget.depth), old(budget.nodes), V.Count(r.value))
    decreases j, 1, 0
  {
    hide TagOf, BuildLeaf, OpenNode, Build, Checked, Collect, HasFields;
    var ok := budget.CountNode();
    var tag := TagOf(j);
    BuildCases(j);
    if tag.None? { return None; }
    if tag.value in LEAF_TAGS {
      var leaf := BuildLeaf(tag.value, j.members);
      if leaf.None? { return None; }
      if !ok { return None; }
      return Some(V.Leaf(leaf.value));
    }
    var o := OpenNode(tag.value, j.members);
    if o.None? { return None; }
    if !ok { return None; }
    var s, parts := o.value.shape, o.value.parts;
    Codec.BuildNode(j, tag.value, s, parts);
    PartsBelow(tag.value, j.members);
    if V.Level(s, V.Decoder) == 1 {
      ok := budget.Enter();
      if !ok { return None; }
    }
    var kids := BuildParts(parts, j, budget);
    if kids.None? { return None; }
    if V.Level(s, V.Decoder) == 1 {
      budget.Leave();
    }
    ok := Check(s, kids.value);
    if !ok { return None; }
    return Some(V.Node(s, kids.value));
  }

  lemma BuildCases(j: Json)
    ensures TagOf(j).None? ==> Build(j).None?
    ensures TagOf(j).Some? ==> j.JObject?
    ensures TagOf(j).Some? && TagOf(j).value in LEAF_TAGS ==>
              Build(j) == match BuildLeaf(TagOf(j).value, j.members) case None => None case Some(l) => Some(V.Leaf(l))
    ensures TagOf(j).Some? && TagOf(j).value !in LEAF_TAGS && OpenNode(TagOf(j).value, j.members).None? ==> Build(j).None?
  {
    hide BuildLeaf, OpenNode, Words.Find, Words.Spell, Collect, Checked;
  }

  method Check(s: V.Shape, kids: seq<Value>) returns (ok: bool)
    requires forall i | 0 <= i < |kids| :: V.Within(kids[i], V.Encoder)
    ensures ok <==> Checked(s, kids)
  {
    hide V.Within, SortedUnique;
    if !V.Fits(s, kids) { return false; }
    if Stride(s) == 0 { return true; }
    ok := CheckOrder(Stride(s), kids);
  }

  /** The sub-values of the built parts fit the encoder's fresh budget. */
  ghost predicate AllWithin(vs: seq<Value>) {
    forall i | 0 <= i < |vs| :: V.Within(vs[i], V.Encoder)
  }

  method BuildParts(parts: seq<Json>, ghost j: Json, budget: Budget) returns (r: Option<seq<Value>>)
    requires budget.Valid() && NoLarger(budget) && AllBelow(parts, j)
    modifies budget
    ensures r.Some? <==>
            Collect(BuildAll(parts)).Some?
            && var vs := Collect(BuildAll(parts)).value;
               Affordable(budget, old(budget.depth), old(budget.nodes), V.Depths(vs, V.Decoder), V.Counts(vs))
    ensures r.Some? ==> r == Collect(BuildAll(parts)) && AllWithin(r.value)
    ensures r.Some? ==> Charged(budget, old(budget.depth), old(budget.nodes), V.Counts(r.value))
    decreases j, 0, |parts|
  {
    hide Build, V.Count, V.Depth;
    if parts == [] { return Some([]); }
    assert BuildAll(parts) == [Build(parts[0])] + BuildAll(parts[1..]);
    var first := BuildNode(parts[0], budget);
    if first.None? { return None; }
    var rest := BuildParts(parts[1..], j, budget);
    if rest.None? { return None; }
    V.DecoderSpendsMore(first.value);
    return Some([first.value] + rest.value);
  }

  /** The text half of `decode`: the strict parser, then the builder under a fresh budget. */
  method DecodeText(t: Text) returns (r: Option<Value>)
    ensures r == Codec.Decode(t)
  {
    hide P.ParseDocument, Build;
    var parsed := O.ParseJson(t);
    if parsed.Err? { return None; }
    var budget := new Budget();
    r := BuildNode(parsed.value, budget);
  }
}
