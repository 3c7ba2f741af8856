/**
 The round trip of the `tagged-jsonl-v1` codec at the level of text: what the
 decoder makes of encoded values, and what the encoder makes of decoded ones.
 */
module Codec {
  import opened Wrappers
  import opened Unicode
  import opened Json
  import opened JsonPrinter
  import P = JsonParser
  import opened Sorting
  import opened Forms
  import V = Values
  import opened Encoding
  import opened Canonical
  import opened Decoding
  import L = DecodingLeaves
  import K = DecodingNodes
  import S = DecodingShapes
  import One = DecodingUnique
  import T = Trees

  type Value = V.Value

  /** Every identity string the decoder looks at is non-empty. */
  predicate Named(v: Value) {
    match v
    case Leaf(_) => true
    case Node(s, kids) => K.Named(s) && forall i | 0 <= i < |kids| :: Named(kids[i])
  }

  // ---- the builder on canonical trees ------------------------------------------------------

  lemma BuildNode(j: Json, tag: Words.Word, s: V.Shape, parts: seq<Json>)
    requires TagOf(j) == Some(tag) && tag !in LEAF_TAGS && OpenNode(tag, j.members) == Some(Opened(s, parts))
    ensures Build(j) ==
            match Collect(BuildAll(parts))
            case None => None
            case Some(kids) => if Checked(s, kids) then Some(V.Node(s, kids)) else None
  {
    PartsBelow(tag, j.members);
    hide TagOf, OpenNode, Collect, Checked;
    assert seq(|parts|, i requires 0 <= i < |parts| => Build(parts[i])) == BuildAll(parts);
  }

  lemma {:induction false} SameChunks(stride: nat, vs: seq<Value>)
    requires stride > 0 && forall i | 0 <= i < |vs| :: Canon(vs[i])
    ensures Chunks(stride, vs, StringKey) == Chunks(stride, vs, KeyOf)
    decreases |vs|
  {
    if |vs| >= stride {
      SameChunks(stride, vs[stride..]);
      CanonIsFixed(vs[0]);
    }
  }

  lemma {:induction false} ChunkMembers<W>(stride: nat, xs: seq<W>, key: W -> seq<int>)
    requires stride > 0
    ensures forall i | 0 <= i < |Chunks(stride, xs, key)| :: Chunks(stride, xs, key)[i].item[0] in xs
    decreases |xs|
  {
    if |xs| >= stride {
      ChunkMembers(stride, xs[stride..], key);
    }
  }

  /** The decoder's order check, on sub-values already known to be canonical, is the encoder's order. */
  lemma CheckedIffOrdered(s: V.Shape, kids: seq<Value>)
    requires forall i | 0 <= i < |kids| :: Canon(kids[i])
    ensures Checked(s, kids) <==> V.Fits(s, kids) && Ordered(s, kids)
  {
    hide Canon, Enc;
    var stride := Stride(s);
    if stride > 0 {
      SameChunks(stride, kids);
      ChunkMembers(stride, kids, StringKey);
      var ks := Chunks(stride, kids, StringKey);
      forall i | 0 <= i < |ks| ensures Enc(ks[i].item[0]).Some? {
        CanonIsFixed(ks[i].item[0]);
      }
    }
  }

  lemma TreesAreObjects(vs: seq<Value>)
    ensures K.Objects(TreesOf(vs))
  {
    TreesOfAt(vs);
    forall i | 0 <= i < |vs| ensures TreeOf(vs[i]).JObject? {
      T.GraftIsObject(if vs[i].Leaf? then LeafFields(vs[i].leaf) else NodeFields(Trim(vs[i].shape), |vs[i].kids|),
                      if vs[i].Leaf? then [] else TreesOf(vs[i].kids));
    }
  }

  lemma CollectKnown(xs: seq<Option<Value>>, vs: seq<Value>)
    requires |xs| == |vs| && forall i | 0 <= i < |xs| :: xs[i] == Some(vs[i])
    ensures Collect(xs) == Some(vs)
  {
    if Collect(xs).Some? {
      assert Collect(xs).value == vs;
    }
  }

  lemma CollectFails(xs: seq<Option<Value>>, i: nat)
    requires i < |xs| && xs[i] == None
    ensures Collect(xs) == None
  {
  }

  /** A canonical tree is built back into its value unless an identity string is empty. */
  lemma {:induction false} TreeBuilds(v: Value)
    requires Canon(v)
    ensures Build(TreeOf(v)) == if Named(v) then Some(v) else None
    decreases v
  {
    match v
    case Leaf(l) => LeafBuilds(l);
    case Node(s, kids) =>
      forall i | 0 <= i < |kids| ensures Build(TreeOf(kids[i])) == if Named(kids[i]) then Some(kids[i]) else None {
        TreeBuilds(kids[i]);
      }
      NodeBuilds(s, kids);
  }

  lemma LeafBuilds(l: V.Leaf)
    requires LegalLeaf(l)
    ensures Build(TreeOf(V.Leaf(l))) == Some(V.Leaf(l))
  {
    hide LegalLeaf, BuildLeaf, TagOf, LeafFields, Graft;
    L.LeafReads(l);
    assert L.LeafTag(l) in LEAF_TAGS;
  }

  lemma KidsBuild(kids: seq<Value>)
    requires forall i | 0 <= i < |kids| :: Build(TreeOf(kids[i])) == if Named(kids[i]) then Some(kids[i]) else None
    ensures Collect(BuildAll(TreesOf(kids))) ==
            if forall i | 0 <= i < |kids| :: Named(kids[i]) then Some(kids) else None
  {
    hide Build, Named, Collect;
    var xs := BuildAll(TreesOf(kids));
    TreesOfAt(kids);
    if forall i | 0 <= i < |kids| :: Named(kids[i]) {
      CollectKnown(xs, kids);
    } else {
      var i :| 0 <= i < |kids| && !Named(kids[i]);
      CollectFails(xs, i);
    }
  }

  lemma NodeBuilds(s: V.Shape, kids: seq<Value>)
    requires Canon(V.Node(s, kids))
    requires forall i | 0 <= i < |kids| :: Build(TreeOf(kids[i])) == if Named(kids[i]) then Some(kids[i]) else None
    ensures Build(TreeOf(V.Node(s, kids))) == if Named(V.Node(s, kids)) then Some(V.Node(s, kids)) else None
  {
    hide Legal, NodeFields, Graft, HasFields, OpenNode, TagOf, Build, Collect, BuildAll, Checked, Ordered, S.NodeTag,
         S.NodeWordsOf, K.HoldsAll, K.Named;
    var js := TreesOf(kids);
    var j := TreeOf(V.Node(s, kids));
    S.NodeHeld(s, js);
    TreesAreObjects(kids);
    S.NodeOpens(s, j.members, js);
    S.TagIsNode(s);
    if K.Named(s) {
      BuildNode(j, S.NodeTag(s), s, js);
      KidsBuild(kids);
      CheckedIffOrdered(s, kids);
    } else {
      BuildClosed(j, S.NodeTag(s));
    }
  }

  lemma BuildClosed(j: Json, tag: Words.Word)
    requires TagOf(j) == Some(tag) && tag !in LEAF_TAGS && OpenNode(tag, j.members) == None
    ensures Build(j) == None
  {
    hide TagOf, OpenNode;
  }

  // ---- whatever is built is canonical ---------------------------------------------------------

  lemma {:induction false} BuiltIsCanon(j: Json)
    requires Build(j).Some?
    ensures Canon(Build(j).value) && Named(Build(j).value)
    decreases j
  {
    var tag := TagOf(j).value;
    if tag in LEAF_TAGS {
      BuiltLeaf(j, tag);
    } else {
      var o := OpenNode(tag, j.members).value;
      BuildNode(j, tag, o.shape, o.parts);
      PartsBelow(tag, j.members);
      hide Build, TagOf, OpenNode, Canon, Named, Checked, Collect;
      var parts := o.parts;
      var kids := Collect(BuildAll(parts)).value;
      forall i | 0 <= i < |kids| ensures Canon(kids[i]) && Named(kids[i]) {
        assert BuildAll(parts)[i] == Some(kids[i]);
        BuiltIsCanon(parts[i]);
      }
      S.OpenedProper(tag, j.members);
      BuiltNode(o.shape, kids);
    }
  }

  lemma BuiltLeaf(j: Json, tag: Words.Word)
    requires Build(j).Some? && TagOf(j) == Some(tag) && tag in LEAF_TAGS
    ensures Canon(Build(j).value) && Named(Build(j).value)
  {
    hide BuildLeaf, LegalLeaf, Words.Find, Words.Spell;
    L.LeafSoundly(tag, j.members);
  }

  lemma BuiltNode(s: V.Shape, kids: seq<Value>)
    requires S.Proper(s, |kids|) && Checked(s, kids)
    requires forall i | 0 <= i < |kids| :: Canon(kids[i]) && Named(kids[i])
    ensures Canon(V.Node(s, kids)) && Named(V.Node(s, kids))
  {
    CheckedIffOrdered(s, kids);
    hide Checked, Legal, Ordered, K.Named, V.Fits;
  }

  // ---- encode and decode -----------------------------------------------------------------------

  /** `encodeValue` with a fresh budget. */
  function Encode(v: Value): Option<Text> {
    if V.Within(v, V.Encoder) then Enc(v) else None
  }

  /** The text half of `decode`: parse strictly, build under a fresh budget. */
  function Decode(t: Text): Option<Value> {
    match P.ParseDocument(t)
    case Abort(_, _) => None
    case Done(j, _) =>
      match Build(j)
      case None => None
      case Some(v) => if V.Within(v, V.Decoder) then Some(v) else None
  }

  lemma CanonParses(v: Value)
    requires Canon(v) && V.Within(v, V.Decoder)
    ensures P.ParseDocument(TextOf(v)) == P.Done(TreeOf(v), |TextOf(v)|)
  {
    hide Canon, TreeOf, Print, P.ParseDocument, Sound, Nesting;
    T.TreeSound(v);
    T.TreeNesting(v);
    SoundIsPrintable(TreeOf(v), 0);
    PrintParses(TreeOf(v));
  }

  /** However deep a canonical value nests, its text is read as its tree or not at all. */
  lemma CanonNeverMisread(v: Value)
    requires Canon(v) && P.ParseDocument(TextOf(v)).Done?
    ensures P.ParseDocument(TextOf(v)).value == TreeOf(v)
  {
    hide Canon, TreeOf, Print, P.ParseDocument, Sound, Nesting;
    T.TreeSound(v);
    var room := if Nesting(TreeOf(v)) > MAX_STRUCTURAL_DEPTH then MAX_STRUCTURAL_DEPTH - Nesting(TreeOf(v)) else 0;
    SoundIsPrintable(TreeOf(v), room);
    PrintParsesOrFails(TreeOf(v), room);
  }

  /** What decoding makes of a canonical value's text: the value, exactly within the decoder's own limits. */
  lemma DecodeCanon(v: Value)
    requires Canon(v)
    ensures Decode(TextOf(v)) == if V.Within(v, V.Decoder) && Named(v) then Some(v) else None
  {
    hide Canon, TreeOf, TextOf, P.ParseDocument, V.Within, Build, Named;
    TreeBuilds(v);
    if V.Within(v, V.Decoder) {
      CanonParses(v);
    } else if P.ParseDocument(TextOf(v)).Done? {
      CanonNeverMisread(v);
    }
  }

  /**
   The round trip. Whatever the encoder writes, the decoder reads back as the
   value's normal form, exactly when the value fits the decoder's stricter depth
   accounting and no identity string is empty.
   */
  lemma RoundTrip(v: Value)
    requires Encode(v).Some?
    ensures Decode(Encode(v).value) == if V.Depth(v, V.Decoder) <= V.MAX_DEPTH && Named(v) then Some(Norm(v)) else None
  {
    hide Canon, Norm, Enc, TextOf, Decode, Named;
    EncWritesNorm(v);
    DecodeCanon(Norm(v));
    NormKeeps(v, V.Decoder);
    NormKeepsNames(v);
  }

  lemma {:induction false} NormKeepsNames(v: Value)
    requires Enc(v).Some?
    ensures Named(Norm(v)) <==> Named(v)
    decreases v, 1
  {
    if v.Node? {
      hide Legal, Fill, Arrange, Reorder, Named;
      AllNormKeepNames(v.kids);
      var normed := NormAll(v.kids);
      ReorderKeeps(v.shape, normed, V.Encoder);
      SameNames(Reorder(v.shape, normed), normed);
      SameNames(normed, v.kids);
      NamedNode(v);
      NamedNode(Norm(v));
    }
  }

  predicate AllNamed(vs: seq<Value>) {
    forall i | 0 <= i < |vs| :: Named(vs[i])
  }

  lemma NamedNode(v: Value)
    requires v.Node?
    ensures Named(v) <==> K.Named(v.shape) && AllNamed(v.kids)
  {
  }

  lemma SameNames(a: seq<Value>, b: seq<Value>)
    requires multiset(a) == multiset(b) || (|a| == |b| && forall i | 0 <= i < |a| :: Named(a[i]) <==> Named(b[i]))
    ensures AllNamed(a) <==> AllNamed(b)
  {
    hide Named;
    if multiset(a) == multiset(b) {
      forall i | 0 <= i < |a| ensures a[i] in b {
        assert a[i] in multiset(b);
      }
      forall i | 0 <= i < |b| ensures b[i] in a {
        assert b[i] in multiset(a);
      }
    }
  }

  lemma {:induction false} AllNormKeepNames(vs: seq<Value>)
    requires EncAll(vs).Some?
    ensures forall i | 0 <= i < |vs| :: Named(NormAll(vs)[i]) <==> Named(vs[i])
    decreases vs, 0
  {
    hide Named;
    if vs != [] {
      NormKeepsNames(vs[0]);
      AllNormKeepNames(vs[1..]);
    }
  }

  // ---- consequences ---------------------------------------------------------------------------

  lemma NodeReady(s: V.Shape, kids: seq<Value>)
    requires Canon(V.Node(s, kids))
    ensures var j := TreeOf(V.Node(s, kids));
      && j.JObject? && TagOf(j) == Some(S.NodeTag(s)) && S.NodeTag(s) !in LEAF_TAGS
      && S.Ready(s, j.members, TreesOf(kids))
  {
    hide Legal, NodeFields, Graft, HasFields, TagOf, Ordered, S.NodeTag, S.NodeWordsOf, K.HoldsAll;
    S.NodeHeld(s, TreesOf(kids));
    TreesAreObjects(kids);
    S.TagIsNode(s);
  }

  lemma LeafReady(l: V.Leaf)
    requires LegalLeaf(l)
    ensures var j := TreeOf(V.Leaf(l));
      && j.JObject? && TagOf(j) == Some(L.LeafTag(l)) && L.LeafTag(l) in LEAF_TAGS
      && BuildLeaf(L.LeafTag(l), j.members) == Some(l)
  {
    L.LeafReads(l);
    hide Graft, LeafFields, TagOf, BuildLeaf, LegalLeaf;
  }

  /** Canonical values with one tree are equal, whatever the decoder thinks of their names. */
  lemma {:induction false} TreeIsInjective(v: Value, w: Value)
    requires Canon(v) && Canon(w) && TreeOf(v) == TreeOf(w)
    ensures v == w
    decreases v
  {
    if v.Leaf? {
      LeafReady(v.leaf);
    } else {
      NodeReady(v.shape, v.kids);
    }
    if w.Leaf? {
      LeafReady(w.leaf);
    } else {
      NodeReady(w.shape, w.kids);
    }
    hide TreeOf, TagOf, BuildLeaf, S.Ready, LEAF_TAGS, S.NodeTag, L.LeafTag;
    if v.Node? && w.Node? {
      One.OneNode(v.shape, TreesOf(v.kids), w.shape, TreesOf(w.kids), TreeOf(v).members);
      TreesOfAt(v.kids);
      TreesOfAt(w.kids);
      forall i | 0 <= i < |v.kids| ensures v.kids[i] == w.kids[i] {
        assert TreesOf(v.kids)[i] == TreesOf(w.kids)[i];
        TreeIsInjective(v.kids[i], w.kids[i]);
      }
    }
  }

  /**
   Encoding is injective up to the order of sets and dicts and the trailing nulls
   of trees, on everything the encoder accepts, read by the decoder or not.
   */
  lemma EncodingIsInjective(v: Value, w: Value)
    requires Encode(v).Some? && Encode(w).Some?
    ensures Encode(v) == Encode(w) <==> Norm(v) == Norm(w)
  {
    hide Enc, Norm, Canon, TreeOf, Print, Sound, V.Within;
    EncWritesNorm(v);
    EncWritesNorm(w);
    if Encode(v) == Encode(w) {
      T.TreeSound(Norm(v));
      T.TreeSound(Norm(w));
      PrintIsInjective(TreeOf(Norm(v)), TreeOf(Norm(w)));
      TreeIsInjective(Norm(v), Norm(w));
    }
  }

  /**
   Normal form. Whatever text is accepted, with any white space, key order or
   escapes, its value is canonical; the encoder accepts the value under the same
   limits and writes a text that is accepted as the same value.
   */
  lemma AcceptedTextHasNormalForm(t: Text, v: Value)
    requires Decode(t) == Some(v)
    ensures Norm(v) == v && Encode(v).Some? && Decode(Encode(v).value) == Some(v)
  {
    hide Canon, Norm, Enc, P.ParseDocument, V.Depth, TextOf;
    BuiltIsCanon(P.ParseDocument(t).value);
    V.DecoderSpendsMore(v);
    CanonIsFixed(v);
    DecodeCanon(v);
  }

  /** Two accepted texts denote the same value exactly when they re-encode identically. */
  lemma SameValueIffSameEncoding(t: Text, u: Text, v: Value, w: Value)
    requires Decode(t) == Some(v) && Decode(u) == Some(w)
    ensures v == w <==> Encode(v) == Encode(w)
  {
    hide Encode, Decode;
    AcceptedTextHasNormalForm(t, v);
    AcceptedTextHasNormalForm(u, w);
  }
}
