/** Sets and dicts: their encoding ignores order, and fails exactly on duplicates. */
module CodecOrder {
  import opened Wrappers
  import opened Unicode
  import opened Sorting
  import V = Values
  import opened Encoding
  import opened Canonical
  import T = Trees
  import Codec
  import Forms

  type Value = V.Value

  datatype Entry = Entry(key: Value, value: Value)

  function Concat(blocks: seq<seq<Value>>): seq<Value> {
    if blocks == [] then [] else blocks[0] + Concat(blocks[1..])
  }

  function Single(v: Value): seq<Value> {
    [v]
  }

  function Pair(e: Entry): seq<Value> {
    [e.key, e.value]
  }

  function Map<A, B>(f: A -> B, xs: seq<A>): (r: seq<B>)
    ensures |r| == |xs| && forall i | 0 <= i < |xs| :: r[i] == f(xs[i])
  {
    seq(|xs|, i requires 0 <= i < |xs| => f(xs[i]))
  }

  function SetOf(frozen: bool, members: seq<Value>): Value {
    V.Node(V.SSet(frozen), Concat(Map(Single, members)))
  }

  function DictOf(entries: seq<Entry>): Value {
    V.Node(V.SDict, Concat(Map(Pair, entries)))
  }

  // ---- permutations ---------------------------------------------------------------------------

  lemma Extract<A>(xs: seq<A>, k: nat)
    requires k < |xs|
    ensures xs == xs[..k] + ([xs[k]] + xs[k + 1..])
    ensures multiset(xs[..k] + xs[k + 1..]) == multiset(xs) - multiset{xs[k]}
  {
    assert xs == xs[..k] + ([xs[k]] + xs[k + 1..]);
    assert multiset(xs) == multiset(xs[..k]) + (multiset{xs[k]} + multiset(xs[k + 1..]));
  }

  /** Where the first of `xs` stands in a permutation of it, and what remains. */
  lemma FirstIn<A>(xs: seq<A>, ys: seq<A>) returns (k: nat)
    requires multiset(xs) == multiset(ys) && xs != []
    ensures k < |ys| && ys[k] == xs[0] && multiset(xs[1..]) == multiset(ys[..k] + ys[k + 1..])
  {
    assert xs[0] in multiset(ys);
    k :| 0 <= k < |ys| && ys[k] == xs[0];
    Extract(ys, k);
    assert xs == [xs[0]] + xs[1..];
  }

  lemma {:induction false} MapPermutes<A, B>(f: A -> B, xs: seq<A>, ys: seq<A>)
    requires multiset(xs) == multiset(ys)
    ensures multiset(Map(f, xs)) == multiset(Map(f, ys))
  {
    if xs == [] {
      assert |ys| == |multiset(ys)| == 0;
    } else {
      var k := FirstIn(xs, ys);
      var rest := ys[..k] + ys[k + 1..];
      MapPermutes(f, xs[1..], rest);
      assert Map(f, xs) == [f(xs[0])] + Map(f, xs[1..]);
      Extract(Map(f, ys), k);
      assert Map(f, ys)[..k] + Map(f, ys)[k + 1..] == Map(f, rest);
    }
  }

  lemma {:induction false} ConcatSplit(a: seq<seq<Value>>, b: seq<seq<Value>>)
    ensures Concat(a + b) == Concat(a) + Concat(b)
  {
    if a == [] {
      assert a + b == b;
    } else {
      ConcatSplit(a[1..], b);
      assert (a + b)[1..] == a[1..] + b;
    }
  }

  /** What a traversal of the sub-values finds does not depend on their order. */
  predicate SameMeasures(xs: seq<Value>, ys: seq<Value>) {
    V.Counts(xs) == V.Counts(ys) && V.Depths(xs, V.Encoder) == V.Depths(ys, V.Encoder) && |xs| == |ys|
    && (EncAll(xs).Some? <==> EncAll(ys).Some?)
  }

  lemma {:induction false} EncAllSplit(a: seq<Value>, b: seq<Value>)
    ensures EncAll(a + b).Some? <==> EncAll(a).Some? && EncAll(b).Some?
  {
    hide Enc;
    if a == [] {
      assert a + b == b;
    } else {
      EncAllSplit(a[1..], b);
      assert (a + b)[1..] == a[1..] + b;
    }
  }

  lemma MeasuresMove(x: seq<Value>, before: seq<Value>, after: seq<Value>)
    ensures SameMeasures(x + (before + after), before + (x + after))
  {
    hide V.Counts, V.Depths, EncAll;
    DepthsSplit(x, before + after, V.Encoder);
    DepthsSplit(before, after, V.Encoder);
    DepthsSplit(before, x + after, V.Encoder);
    DepthsSplit(x, after, V.Encoder);
    EncAllSplit(x, before + after);
    EncAllSplit(before, after);
    EncAllSplit(before, x + after);
    EncAllSplit(x, after);
  }

  lemma MeasuresExtend(x: seq<Value>, xs: seq<Value>, ys: seq<Value>)
    requires SameMeasures(xs, ys)
    ensures SameMeasures(x + xs, x + ys)
  {
    hide V.Counts, V.Depths, EncAll;
    DepthsSplit(x, xs, V.Encoder);
    DepthsSplit(x, ys, V.Encoder);
    EncAllSplit(x, xs);
    EncAllSplit(x, ys);
  }

  lemma {:induction false} MeasuresPermute(a: seq<seq<Value>>, b: seq<seq<Value>>)
    requires multiset(a) == multiset(b)
    ensures SameMeasures(Concat(a), Concat(b))
  {
    hide SameMeasures;
    if a == [] {
      assert |b| == |multiset(b)| == 0;
      SameRefl(Concat(a));
    } else {
      var k := FirstIn(a, b);
      var before, after := b[..k], b[k + 1..];
      MeasuresPermute(a[1..], before + after);
      MeasuresExtend(a[0], Concat(a[1..]), Concat(before + after));
      ConcatSplit(before, after);
      MeasuresMove(a[0], Concat(before), Concat(after));
      Extract(b, k);
      ConcatSplit(before, [b[k]] + after);
      assert ([b[k]] + after)[1..] == after;
      SameTransitive(Concat(a), a[0] + (Concat(before) + Concat(after)), Concat(b));
    }
  }

  lemma SameRefl(xs: seq<Value>)
    ensures SameMeasures(xs, xs)
  {
  }

  lemma SameTransitive(xs: seq<Value>, ys: seq<Value>, zs: seq<Value>)
    requires SameMeasures(xs, ys) && SameMeasures(ys, zs)
    ensures SameMeasures(xs, zs)
  {
    hide V.Counts, V.Depths, EncAll;
  }

  // ---- blocks -----------------------------------------------------------------------------------

  /** A block of sub-values as it is sorted. */
  function Sorted(block: seq<Value>): Keyed<seq<Value>> {
    Keyed(if block == [] then [] else KeyOf(Norm(block[0])), NormAll(block))
  }

  lemma {:induction false} NormAllSplit(a: seq<Value>, b: seq<Value>)
    ensures NormAll(a + b) == NormAll(a) + NormAll(b)
  {
    hide Norm;
    if a == [] {
      assert a + b == b;
    } else {
      NormAllSplit(a[1..], b);
      assert (a + b)[1..] == a[1..] + b;
    }
  }

  predicate Blocks(stride: nat, blocks: seq<seq<Value>>) {
    forall i | 0 <= i < |blocks| :: |blocks[i]| == stride
  }

  lemma {:induction false} ChunksOfBlocks(stride: nat, blocks: seq<seq<Value>>)
    requires stride > 0 && Blocks(stride, blocks)
    ensures Chunks(stride, NormAll(Concat(blocks)), KeyOf) == Map(Sorted, blocks)
  {
    if blocks != [] {
      ChunksOfBlocks(stride, blocks[1..]);
      FirstBlock(stride, blocks);
    }
  }

  lemma FirstSorted(block: seq<Value>)
    requires block != []
    ensures Sorted(block) == Keyed(KeyOf(NormAll(block)[0]), NormAll(block))
  {
    NormAllAt(block);
  }

  lemma FirstBlock(stride: nat, blocks: seq<seq<Value>>)
    requires stride > 0 && blocks != [] && |blocks[0]| == stride
    requires Chunks(stride, NormAll(Concat(blocks[1..])), KeyOf) == Map(Sorted, blocks[1..])
    ensures Chunks(stride, NormAll(Concat(blocks)), KeyOf) == Map(Sorted, blocks)
  {
    hide NormAll, Chunks, KeyOf, Sorted;
    var xs, first, rest := NormAll(Concat(blocks)), NormAll(blocks[0]), NormAll(Concat(blocks[1..]));
    NormAllSplit(blocks[0], Concat(blocks[1..]));
    assert xs[..stride] == first && xs[stride..] == rest;
    ChunksStep(stride, xs, KeyOf);
    FirstSorted(blocks[0]);
    assert Map(Sorted, blocks) == [Sorted(blocks[0])] + Map(Sorted, blocks[1..]);
  }

  lemma {:induction false} ConcatWhole(stride: nat, blocks: seq<seq<Value>>)
    requires (stride == 1 || stride == 2) && Blocks(stride, blocks)
    ensures Whole(stride, |Concat(blocks)|)
  {
    if blocks != [] {
      ConcatWhole(stride, blocks[1..]);
    }
  }

  /** Both orders arrange to the same sequence, or both have duplicates. */
  lemma ReorderPermutes(s: V.Shape, a: seq<seq<Value>>, b: seq<seq<Value>>)
    requires Stride(s) > 0 && Blocks(Stride(s), a) && Blocks(Stride(s), b) && multiset(a) == multiset(b)
    ensures var x, y := NormAll(Concat(a)), NormAll(Concat(b));
      && (Ordered(s, Reorder(s, x)) <==> Ordered(s, Reorder(s, y)))
      && (Ordered(s, Reorder(s, x)) ==> Reorder(s, x) == Reorder(s, y))
  {
    hide Chunks, Flat, Sort, NormAll, KeyOf, Sorted;
    var stride := Stride(s);
    ChunksOfBlocks(stride, a);
    ChunksOfBlocks(stride, b);
    MapPermutes(Sorted, a, b);
    SortIgnoresOrder(Map(Sorted, a), Map(Sorted, b));
    SortedStrictIffDistinct(Map(Sorted, a));
    SortedStrictIffDistinct(Map(Sorted, b));
    ConcatWhole(stride, a);
    ConcatWhole(stride, b);
    SortedChunks(stride, NormAll(Concat(a)), KeyOf);
    SortedChunks(stride, NormAll(Concat(b)), KeyOf);
  }

  lemma EncUnfolds(s: V.Shape, kids: seq<Value>)
    requires EncAll(kids).Some?
    ensures Enc(V.Node(s, kids)).Some? <==>
            V.Fits(s, kids) && Legal(s, |kids|) && Arrange(s, EncAll(kids).value).Some?
  {
    hide V.Fits, Legal, Arrange, Forms.Fill;
  }

  lemma EncNode(s: V.Shape, kids: seq<Value>)
    requires Stride(s) > 0 && Whole(Stride(s), |kids|)
    ensures Enc(V.Node(s, kids)).Some? <==> EncAll(kids).Some? && Ordered(s, Reorder(s, NormAll(kids)))
  {
    hide TextsOf, Arrange, Ordered, Reorder, NormAll, Canon;
    if EncAll(kids).Some? {
      EncUnfolds(s, kids);
      AllWriteNorm(kids);
      ArrangeIsReorder(s, NormAll(kids));
    }
  }

  lemma BlockOrderIrrelevant(s: V.Shape, a: seq<seq<Value>>, b: seq<seq<Value>>)
    requires Stride(s) > 0 && Blocks(Stride(s), a) && Blocks(Stride(s), b) && multiset(a) == multiset(b)
    ensures Codec.Encode(V.Node(s, Concat(a))) == Codec.Encode(V.Node(s, Concat(b)))
  {
    hide Chunks, Enc, EncAll, Reorder, Ordered, NormAll, V.Counts, V.Depths, Blocks, Canon, TextOf;
    var v, w := V.Node(s, Concat(a)), V.Node(s, Concat(b));
    ReorderPermutes(s, a, b);
    MeasuresPermute(a, b);
    ConcatWhole(Stride(s), a);
    ConcatWhole(Stride(s), b);
    EncNode(s, Concat(a));
    EncNode(s, Concat(b));
    if Enc(v).Some? {
      EncWritesNorm(v);
      EncWritesNorm(w);
      assert Norm(v) == Norm(w);
    }
  }

  // ---- the theorems -------------------------------------------------------------------------------

  /** A set's encoding is the same in whatever order its members stand. */
  lemma SetOrderIrrelevant(frozen: bool, a: seq<Value>, b: seq<Value>)
    requires multiset(a) == multiset(b)
    ensures Codec.Encode(SetOf(frozen, a)) == Codec.Encode(SetOf(frozen, b))
  {
    MapPermutes(Single, a, b);
    BlockOrderIrrelevant(V.SSet(frozen), Map(Single, a), Map(Single, b));
  }

  /** So is a dict's, in whatever order its entries stand. */
  lemma DictOrderIrrelevant(a: seq<Entry>, b: seq<Entry>)
    requires multiset(a) == multiset(b)
    ensures Codec.Encode(DictOf(a)) == Codec.Encode(DictOf(b))
  {
    MapPermutes(Pair, a, b);
    BlockOrderIrrelevant(V.SDict, Map(Pair, a), Map(Pair, b));
  }

  lemma KeysDistinctIffTexts(ks: seq<Keyed<seq<Value>>>, vs: seq<Value>)
    requires |ks| == |vs| && forall i | 0 <= i < |ks| :: ks[i].key == KeyOf(Norm(vs[i]))
    requires forall i | 0 <= i < |vs| :: Enc(vs[i]).Some?
    ensures Distinct(ks) <==> forall i, j | 0 <= i < j < |vs| :: Enc(vs[i]) != Enc(vs[j])
  {
    hide Enc, KeyOf;
    forall i, j | 0 <= i < j < |vs| ensures ks[i].key == ks[j].key <==> Enc(vs[i]) == Enc(vs[j]) {
      SameKeyIffSameText(vs[i], vs[j]);
    }
  }

  lemma SameKeyIffSameText(v: Value, w: Value)
    requires Enc(v).Some? && Enc(w).Some?
    ensures KeyOf(Norm(v)) == KeyOf(Norm(w)) <==> Enc(v) == Enc(w)
  {
    hide Enc, TextOf, EncodeUtf8;
    EncWritesNorm(v);
    EncWritesNorm(w);
    T.TextWellFormed(Norm(v));
    T.TextWellFormed(Norm(w));
    CompareIsTotalOrder(TextOf(Norm(v)), TextOf(Norm(w)), TextOf(Norm(v)));
  }

  lemma OrderedIffDistinct(s: V.Shape, blocks: seq<seq<Value>>)
    requires Stride(s) > 0 && Blocks(Stride(s), blocks)
    ensures Ordered(s, Reorder(s, NormAll(Concat(blocks)))) <==> Distinct(Map(Sorted, blocks))
  {
    hide Chunks, Flat, Sort, NormAll, KeyOf, Sorted;
    ChunksOfBlocks(Stride(s), blocks);
    SortedStrictIffDistinct(Map(Sorted, blocks));
    ConcatWhole(Stride(s), blocks);
    SortedChunks(Stride(s), NormAll(Concat(blocks)), KeyOf);
  }

  lemma {:induction false} EncAllIff(vs: seq<Value>)
    ensures EncAll(vs).Some? <==> forall i | 0 <= i < |vs| :: Enc(vs[i]).Some?
  {
    if vs != [] {
      EncAllIff(vs[1..]);
    }
  }

  lemma {:induction false} SinglesConcat(vs: seq<Value>)
    ensures Concat(Map(Single, vs)) == vs
  {
    if vs != [] {
      SinglesConcat(vs[1..]);
      assert Map(Single, vs)[1..] == Map(Single, vs[1..]);
    }
  }

  /** A set is encodable exactly when its members are and no two have the same text. */
  lemma SetFailsExactlyOnDuplicates(frozen: bool, members: seq<Value>)
    ensures Enc(SetOf(frozen, members)).Some? <==>
            (forall i | 0 <= i < |members| :: Enc(members[i]).Some?)
            && forall i, j | 0 <= i < j < |members| :: Enc(members[i]) != Enc(members[j])
  {
    hide Enc, EncAll, Reorder, Ordered;
    var s, blocks := V.SSet(frozen), Map(Single, members);
    OrderedIffDistinct(s, blocks);
    ConcatWhole(1, blocks);
    EncNode(s, Concat(blocks));
    SinglesConcat(members);
    EncAllIff(members);
    if forall i | 0 <= i < |members| :: Enc(members[i]).Some? {
      KeysDistinctIffTexts(Map(Sorted, blocks), members);
    }
  }

  predicate AllEncodable(entries: seq<Entry>) {
    forall i | 0 <= i < |entries| :: Enc(entries[i].key).Some? && Enc(entries[i].value).Some?
  }

  lemma {:induction false} PairsEncodable(entries: seq<Entry>)
    ensures EncAll(Concat(Map(Pair, entries))).Some? <==> AllEncodable(entries)
  {
    hide Enc;
    if entries != [] {
      var rest := entries[1..];
      PairsEncodable(rest);
      assert Map(Pair, entries)[1..] == Map(Pair, rest);
      EncAllSplit(Pair(entries[0]), Concat(Map(Pair, rest)));
      EncAllIff(Pair(entries[0]));
      assert EncAll(Pair(entries[0])).Some? <==> Enc(Pair(entries[0])[0]).Some? && Enc(Pair(entries[0])[1]).Some?;
      assert forall i | 0 < i < |entries| :: entries[i] == rest[i - 1];
    }
  }

  function KeyPart(e: Entry): Value {
    e.key
  }

  /** A dict is encodable exactly when keys and values are and no two keys have the same text. */
  lemma DictFailsExactlyOnDuplicateKeys(entries: seq<Entry>)
    ensures Enc(DictOf(entries)).Some? <==>
            AllEncodable(entries)
            && forall i, j | 0 <= i < j < |entries| :: Enc(entries[i].key) != Enc(entries[j].key)
  {
    hide Enc, EncAll, Reorder, Ordered, KeyOf, Norm;
    var blocks := Map(Pair, entries);
    OrderedIffDistinct(V.SDict, blocks);
    ConcatWhole(2, blocks);
    EncNode(V.SDict, Concat(blocks));
    PairsEncodable(entries);
    if AllEncodable(entries) {
      KeysDistinctIffTexts(Map(Sorted, blocks), Map(KeyPart, entries));
    }
  }
}
