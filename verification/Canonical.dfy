/**
 Canonical form. `Norm` sorts sets and dicts and strips trees; the encoder writes
 exactly the tree of the normal form, so a value's encoding is a function of it.
 */
module Canonical {
  import opened Wrappers
  import opened Unicode
  import opened Json
  import opened JsonPrinter
  import opened Sorting
  import opened Words
  import opened Forms
  import V = Values
  import opened Encoding

  type Value = V.Value

  /** The JSON tree of a value, its sub-values in the order they stand. */
  function TreeOf(v: Value): Json
    decreases v, 1
  {
    match v
    case Leaf(l) => Graft(FObject(LeafFields(l)), [])
    case Node(s, kids) => Graft(FObject(NodeFields(Trim(s), |kids|)), TreesOf(kids))
  }

  function TreesOf(vs: seq<Value>): (r: seq<Json>)
    ensures |r| == |vs|
    decreases vs, 0
  {
    if vs == [] then [] else [TreeOf(vs[0])] + TreesOf(vs[1..])
  }

  function TextOf(v: Value): Text {
    Print(TreeOf(v))
  }

  function TextsOf(vs: seq<Value>): seq<Text> {
    PrintItems(TreesOf(vs))
  }

  function KeyOf(v: Value): seq<int> {
    Bytes(TextOf(v))
  }

  /** Set members and dict keys in strict order of their encoded bytes. */
  predicate Ordered(s: V.Shape, kids: seq<Value>) {
    Stride(s) == 0 || NeighboursAscend(Chunks(Stride(s), kids, KeyOf))
  }

  predicate Canon(v: Value) {
    match v
    case Leaf(l) => LegalLeaf(l)
    case Node(s, kids) =>
      V.Fits(s, kids) && Legal(s, |kids|) && Trim(s) == s && Ordered(s, kids)
      && forall i | 0 <= i < |kids| :: Canon(kids[i])
  }

  function Reorder(s: V.Shape, kids: seq<Value>): seq<Value> {
    if Stride(s) == 0 then kids else Flat(Sort(Chunks(Stride(s), kids, KeyOf)))
  }

  function Norm(v: Value): Value
    decreases v, 1
  {
    match v
    case Leaf(_) => v
    case Node(s, kids) => V.Node(Trim(s), Reorder(s, NormAll(kids)))
  }

  function NormAll(vs: seq<Value>): (r: seq<Value>)
    ensures |r| == |vs|
    decreases vs, 0
  {
    if vs == [] then [] else [Norm(vs[0])] + NormAll(vs[1..])
  }

  lemma {:induction false} NormAllAt(vs: seq<Value>)
    ensures forall i | 0 <= i < |vs| :: NormAll(vs)[i] == Norm(vs[i])
  {
    if vs != [] {
      NormAllAt(vs[1..]);
    }
  }

  lemma {:induction false} TreesOfAt(vs: seq<Value>)
    ensures forall i | 0 <= i < |vs| :: TreesOf(vs)[i] == TreeOf(vs[i])
  {
    if vs != [] {
      TreesOfAt(vs[1..]);
    }
  }

  lemma TextsOfAt(vs: seq<Value>)
    ensures |TextsOf(vs)| == |vs| && forall i | 0 <= i < |vs| :: TextsOf(vs)[i] == TextOf(vs[i])
  {
    TreesOfAt(vs);
    PrintItemsAt(TreesOf(vs));
  }

  // ---- groups ---------------------------------------------------------------------------

  predicate Whole(stride: nat, n: nat) {
    stride == 1 || (stride == 2 && n % 2 == 0)
  }

  lemma {:induction false} FlatChunks<T>(stride: nat, xs: seq<T>, key: T -> seq<int>)
    requires Whole(stride, |xs|)
    ensures Flat(Chunks(stride, xs, key)) == xs
    decreases |xs|
  {
    if |xs| < stride {
      assert xs == [];
    } else {
      FlatChunks(stride, xs[stride..], key);
      assert xs == xs[..stride] + xs[stride..];
    }
  }

  /** Flattening keyed groups and grouping again gives them back. */
  lemma {:induction false} ChunksFlat<T>(stride: nat, ks: seq<Keyed<seq<T>>>, key: T -> seq<int>)
    requires stride == 1 || stride == 2
    requires forall i | 0 <= i < |ks| :: |ks[i].item| == stride && ks[i].key == key(ks[i].item[0])
    ensures Chunks(stride, Flat(ks), key) == ks
    ensures |Flat(ks)| == stride * |ks|
  {
    if ks != [] {
      ChunksFlat(stride, ks[1..], key);
      var flat := Flat(ks);
      assert flat[..stride] == ks[0].item && flat[stride..] == Flat(ks[1..]);
      assert ks == [ks[0]] + ks[1..];
    }
  }

  lemma SortedChunks<T>(stride: nat, xs: seq<T>, key: T -> seq<int>)
    requires Whole(stride, |xs|)
    ensures var sorted := Sort(Chunks(stride, xs, key));
      Chunks(stride, Flat(sorted), key) == sorted && |Flat(sorted)| == |xs|
  {
    hide Chunks, Flat, Sort;
    var ks := Chunks(stride, xs, key);
    var sorted := Sort(ks);
    forall i | 0 <= i < |sorted| ensures |sorted[i].item| == stride && sorted[i].key == key(sorted[i].item[0]) {
      InSorted(ks, sorted[i]);
    }
    ChunksFlat(stride, sorted, key);
    ChunksFlat(stride, ks, key);
    FlatChunks(stride, xs, key);
    SortKeeps(ks);
  }

  // ---- the text and the value are arranged alike -----------------------------------------

  lemma TextsSplit(vs: seq<Value>, n: nat)
    requires n <= |vs|
    ensures |TextsOf(vs)| == |vs| && TextsOf(vs)[..n] == TextsOf(vs[..n]) && TextsOf(vs)[n..] == TextsOf(vs[n..])
    ensures n > 0 ==> Bytes(TextsOf(vs)[0]) == KeyOf(vs[0])
  {
    TextsOfAt(vs);
    TextsOfAt(vs[..n]);
    TextsOfAt(vs[n..]);
  }

  lemma ChunksStep<T>(stride: nat, xs: seq<T>, key: T -> seq<int>)
    requires 0 < stride <= |xs|
    ensures Chunks(stride, xs, key) == [Keyed(key(xs[0]), xs[..stride])] + Chunks(stride, xs[stride..], key)
  {
  }

  lemma RelabelCons<T, W>(f: T -> W, k: Keyed<T>, ks: seq<Keyed<T>>)
    ensures Relabel(f, [k] + ks) == [Keyed(k.key, f(k.item))] + Relabel(f, ks)
  {
  }

  lemma {:induction false} TextChunks(stride: nat, vs: seq<Value>)
    requires stride > 0
    ensures Chunks(stride, TextsOf(vs), Bytes) == Relabel(TextsOf, Chunks(stride, vs, KeyOf))
    decreases |vs|
  {
    TextsSplit(vs, if |vs| >= stride then stride else 0);
    if |vs| >= stride {
      TextChunks(stride, vs[stride..]);
      ChunksStep(stride, TextsOf(vs), Bytes);
      ChunksStep(stride, vs, KeyOf);
      hide Chunks, Relabel;
      RelabelCons(TextsOf, Keyed(KeyOf(vs[0]), vs[..stride]), Chunks(stride, vs[stride..], KeyOf));
    }
  }

  lemma TextsConcat(a: seq<Value>, b: seq<Value>)
    ensures TextsOf(a + b) == TextsOf(a) + TextsOf(b)
  {
    TextsOfAt(a + b);
    TextsOfAt(a);
    TextsOfAt(b);
  }

  lemma {:induction false} FlatTexts(ks: seq<Keyed<seq<Value>>>)
    ensures Flat(Relabel(TextsOf, ks)) == TextsOf(Flat(ks))
  {
    if ks != [] {
      FlatTexts(ks[1..]);
      assert Relabel(TextsOf, ks)[1..] == Relabel(TextsOf, ks[1..]);
      TextsConcat(ks[0].item, Flat(ks[1..]));
    }
  }

  lemma RelabelAscends<T, W>(f: T -> W, ks: seq<Keyed<T>>)
    ensures NeighboursAscend(Relabel(f, ks)) <==> NeighboursAscend(ks)
  {
  }

  /** Arranging the texts succeeds exactly when the reordered values are strictly ordered, and gives their texts. */
  lemma ArrangeIsReorder(s: V.Shape, vs: seq<Value>)
    requires Stride(s) > 0 ==> Whole(Stride(s), |vs|)
    ensures Arrange(s, TextsOf(vs)) == if Ordered(s, Reorder(s, vs)) then Some(TextsOf(Reorder(s, vs))) else None
    ensures |Reorder(s, vs)| == |vs|
  {
    var stride := Stride(s);
    if stride > 0 {
      hide TextsOf;
      var ks := Chunks(stride, vs, KeyOf);
      TextChunks(stride, vs);
      SortRelabel(TextsOf, ks);
      RelabelAscends(TextsOf, Sort(ks));
      FlatTexts(Sort(ks));
      SortedChunks(stride, vs, KeyOf);
    }
  }

  // ---- what reordering keeps ------------------------------------------------------------

  lemma {:induction false} DepthsSplit(a: seq<Value>, b: seq<Value>, side: V.Side)
    ensures V.Depths(a + b, side) == V.Max(V.Depths(a, side), V.Depths(b, side))
    ensures V.Counts(a + b) == V.Counts(a) + V.Counts(b)
  {
    if a == [] {
      assert a + b == b;
    } else {
      DepthsSplit(a[1..], b, side);
      assert (a + b)[1..] == a[1..] + b;
    }
  }

  lemma FlatCons(x: Keyed<seq<Value>>, ks: seq<Keyed<seq<Value>>>, side: V.Side)
    ensures Flat([x] + ks) == x.item + Flat(ks)
    ensures V.Counts(Flat([x] + ks)) == V.Counts(x.item) + V.Counts(Flat(ks))
    ensures V.Depths(Flat([x] + ks), side) == V.Max(V.Depths(x.item, side), V.Depths(Flat(ks), side))
  {
    assert ([x] + ks)[1..] == ks;
    DepthsSplit(x.item, Flat(ks), side);
  }

  lemma {:induction false} InsertFlat(x: Keyed<seq<Value>>, ks: seq<Keyed<seq<Value>>>, side: V.Side)
    ensures var r := Flat(Insert(x, ks));
      && multiset(r) == multiset(x.item) + multiset(Flat(ks))
      && V.Counts(r) == V.Counts(x.item) + V.Counts(Flat(ks))
      && V.Depths(r, side) == V.Max(V.Depths(x.item, side), V.Depths(Flat(ks), side))
  {
    hide V.Counts, V.Depths, Flat;
    if ks != [] && Less(ks[0].key, x.key) {
      InsertFlat(x, ks[1..], side);
      FlatCons(ks[0], Insert(x, ks[1..]), side);
      FlatCons(ks[0], ks[1..], side);
      assert ks == [ks[0]] + ks[1..];
    } else {
      assert [x] == [x] + [];
      FlatCons(x, ks, side);
    }
  }

  lemma {:induction false} SortFlat(ks: seq<Keyed<seq<Value>>>, side: V.Side)
    ensures var r := Flat(Sort(ks));
      && multiset(r) == multiset(Flat(ks))
      && V.Counts(r) == V.Counts(Flat(ks)) && V.Depths(r, side) == V.Depths(Flat(ks), side)
  {
    if ks != [] {
      SortFlat(ks[1..], side);
      InsertFlat(ks[0], Sort(ks[1..]), side);
      DepthsSplit(ks[0].item, Flat(ks[1..]), side);
    }
  }

  lemma ReorderKeeps(s: V.Shape, vs: seq<Value>, side: V.Side)
    requires Stride(s) > 0 ==> Whole(Stride(s), |vs|)
    ensures var r := Reorder(s, vs);
      && multiset(r) == multiset(vs) && V.Counts(r) == V.Counts(vs) && V.Depths(r, side) == V.Depths(vs, side)
  {
    if Stride(s) > 0 {
      SortFlat(Chunks(Stride(s), vs, KeyOf), side);
      FlatChunks(Stride(s), vs, KeyOf);
    }
  }

  /** Normalising spends no more and no less of any budget. */
  lemma {:induction false} NormKeeps(v: Value, side: V.Side)
    requires Enc(v).Some?
    ensures V.Count(Norm(v)) == V.Count(v) && V.Depth(Norm(v), side) == V.Depth(v, side)
    decreases v, 1
  {
    if v.Node? {
      EncodedFits(v.shape, v.kids);
      NormAllKeeps(v.kids, side);
      NodeKeeps(v.shape, v.kids, side);
    }
  }

  lemma EncodedFits(s: V.Shape, kids: seq<Value>)
    requires Enc(V.Node(s, kids)).Some?
    ensures EncAll(kids).Some? && V.Fits(s, kids)
  {
    hide Fill, Legal, Arrange, EncAll, V.Fits;
  }

  lemma NodeKeeps(s: V.Shape, kids: seq<Value>, side: V.Side)
    requires V.Fits(s, kids)
    requires V.Counts(NormAll(kids)) == V.Counts(kids) && V.Depths(NormAll(kids), side) == V.Depths(kids, side)
    ensures var v := V.Node(s, kids); V.Count(Norm(v)) == V.Count(v) && V.Depth(Norm(v), side) == V.Depth(v, side)
  {
    hide NormAll, Reorder, V.Counts, V.Depths, V.Numeric;
    ReorderKeeps(s, NormAll(kids), side);
  }

  lemma {:induction false} NormAllKeeps(vs: seq<Value>, side: V.Side)
    requires EncAll(vs).Some?
    ensures V.Counts(NormAll(vs)) == V.Counts(vs) && V.Depths(NormAll(vs), side) == V.Depths(vs, side)
    decreases vs, 0
  {
    if vs != [] {
      NormKeeps(vs[0], side);
      NormAllKeeps(vs[1..], side);
    }
  }

  // ---- the encoder writes the normal form -------------------------------------------------

  lemma TrimLegal(s: V.Shape, n: nat)
    ensures Legal(Trim(s), n) == Legal(s, n) && V.Arity(Trim(s), n) == V.Arity(s, n) && Trim(Trim(s)) == Trim(s)
    ensures Stride(Trim(s)) == Stride(s)
  {
    if s.STreeNode? {
      V.StripKeeps(s.present);
    }
  }

  /** Its text, and that the normal form is canonical. */
  lemma {:induction false} EncWritesNorm(v: Value)
    requires Enc(v).Some?
    ensures Canon(Norm(v)) && Enc(v).value == TextOf(Norm(v))
    decreases v, 1
  {
    if v.Leaf? {
      FillIsPrint(FObject(LeafFields(v.leaf)), []);
    } else {
      NodeWritesNorm(v.shape, v.kids);
    }
  }

  lemma {:induction false} NodeWritesNorm(s: V.Shape, kids: seq<Value>)
    requires Enc(V.Node(s, kids)).Some?
    ensures Canon(Norm(V.Node(s, kids))) && Enc(V.Node(s, kids)).value == TextOf(Norm(V.Node(s, kids)))
    decreases kids, 1
  {
    AllWriteNorm(kids);
    hide Print, Legal, LegalLeaf, Fill, Graft;
    var normed := NormAll(kids);
    var texts := TextsOf(normed);
    var r := Reorder(s, normed);
    TrimLegal(s, |kids|);
    hide TextsOf;
    ArrangeIsReorder(s, normed);
    ReorderKeeps(s, normed, V.Encoder);
    FillIsPrint(FObject(NodeFields(Trim(s), |kids|)), TreesOf(r));
    assert PrintItems(TreesOf(r)) == TextsOf(r) by { TextsAre(r); }
    assert V.Fits(Trim(s), r) by {
      if s.SComplex? {
        NormAllAt(kids);
      }
    }
    assert Ordered(Trim(s), r);
    StillCanon(normed, r);
  }

  lemma StillCanon(vs: seq<Value>, r: seq<Value>)
    requires multiset(r) == multiset(vs) && forall i | 0 <= i < |vs| :: Canon(vs[i])
    ensures forall i | 0 <= i < |r| :: Canon(r[i])
  {
    hide Canon;
    forall i | 0 <= i < |r| ensures Canon(r[i]) {
      assert r[i] in multiset(vs);
    }
  }

  lemma TextsAre(vs: seq<Value>)
    ensures PrintItems(TreesOf(vs)) == TextsOf(vs)
  {
  }

  lemma {:induction false} AllWriteNorm(vs: seq<Value>)
    requires EncAll(vs).Some?
    ensures EncAll(vs).value == TextsOf(NormAll(vs))
    ensures forall i | 0 <= i < |vs| :: Canon(NormAll(vs)[i])
    decreases vs, 0
  {
    if vs != [] {
      EncWritesNorm(vs[0]);
      AllWriteNorm(vs[1..]);
      TreesOfAt(NormAll(vs));
      assert NormAll(vs)[1..] == NormAll(vs[1..]);
    }
  }

  // ---- canonical values are their own normal form ------------------------------------------

  lemma {:induction false} OrderedStays(s: V.Shape, vs: seq<Value>)
    requires Stride(s) > 0 ==> Whole(Stride(s), |vs|)
    requires Ordered(s, vs)
    ensures Reorder(s, vs) == vs
  {
    if Stride(s) > 0 {
      var ks := Chunks(Stride(s), vs, KeyOf);
      NeighboursSuffice(ks);
      SortSorted(ks);
      FlatChunks(Stride(s), vs, KeyOf);
    }
  }

  lemma {:induction false} CanonIsFixed(v: Value)
    requires Canon(v)
    ensures Norm(v) == v && Enc(v) == Some(TextOf(v))
    decreases v, 1
  {
    if v.Leaf? {
      FillIsPrint(FObject(LeafFields(v.leaf)), []);
    } else {
      AllCanonFixed(v.kids);
      hide Print, Legal, LegalLeaf, Fill, Graft;
      OrderedStays(v.shape, v.kids);
      ArrangeIsReorder(v.shape, v.kids);
      TextsAre(v.kids);
      FillIsPrint(FObject(NodeFields(v.shape, |v.kids|)), TreesOf(v.kids));
    }
  }

  lemma {:induction false} AllCanonFixed(vs: seq<Value>)
    requires forall i | 0 <= i < |vs| :: Canon(vs[i])
    ensures NormAll(vs) == vs && EncAll(vs) == Some(TextsOf(vs))
    decreases vs, 0
  {
    if vs != [] {
      CanonIsFixed(vs[0]);
      AllCanonFixed(vs[1..]);
    }
  }

  lemma NormIsStable(v: Value)
    requires Enc(v).Some?
    ensures Norm(Norm(v)) == Norm(v) && Enc(Norm(v)) == Enc(v)
  {
    EncWritesNorm(v);
    CanonIsFixed(Norm(v));
  }
}
