/**
 The language of the decoder: a text is accepted as a value exactly when it spells
 the encoder's own JSON tree of that value, with any white space, escapes and
 member order.
 */
module Spellings {
  import opened Wrappers
  import opened Unicode
  import opened Json
  import opened JsonPrinter
  import P = JsonParser
  import D = JsonDocuments
  import opened Forms
  import V = Values
  import opened Encoding
  import opened Canonical
  import opened Decoding
  import opened Spelling
  import opened SpellingNodes
  import opened SpellingBuilds
  import T = Trees
  import S = DecodingShapes
  import K = DecodingNodes
  import opened Codec

  type Value = V.Value

  // ---- trees -----------------------------------------------------------------------------

  /** Whatever is built was spelt: the tree is the encoder's tree of the value, up to member order. */
  lemma {:induction false} BuiltIsSpelt(j: Json)
    requires Build(j).Some? && Sound(j)
    ensures Alike(j, TreeOf(Build(j).value))
    decreases j
  {
    var tag := TagOf(j).value;
    TagSpelt(j, tag);
    if tag in LEAF_TAGS {
      LeafTreeSpelt(j, tag);
    } else {
      var o := OpenNode(tag, j.members).value;
      BuildNode(j, tag, o.shape, o.parts);
      PartsBelow(tag, j.members);
      assert Opens(tag, j.members);
      hide Build, TagOf, OpenNode, Canon, Named, Checked, Collect, TreeOf, Alike, Sound, Opens;
      var kids := Collect(BuildAll(o.parts)).value;
      forall i | 0 <= i < |kids| && Sound(o.parts[i]) ensures Alike(o.parts[i], TreeOf(kids[i])) {
        assert BuildAll(o.parts)[i] == Some(kids[i]);
        BuiltIsSpelt(o.parts[i]);
      }
      NodeTreeSpelt(j, tag, kids);
    }
  }

  lemma LeafTreeSpelt(j: Json, tag: Words.Word)
    requires Build(j).Some? && Sound(j) && TagOf(j) == Some(tag) && j.JObject? && Tagged(j.members, tag) && tag in LEAF_TAGS
    ensures Alike(j, TreeOf(Build(j).value))
  {
    hide BuildLeaf, TagOf, Alike, Tagged;
    LeafSpelt(tag, j.members);
    var l := BuildLeaf(tag, j.members).value;
    T.LeafSound(l);
    FillsAlike(j, FObject(LeafFields(l)), [], []);
  }

  lemma NodeTreeSpelt(j: Json, tag: Words.Word, kids: seq<Value>)
    requires j.JObject? && Sound(j) && Opens(tag, j.members)
    requires var o := OpenNode(tag, j.members).value;
      |kids| == |o.parts| && forall i | 0 <= i < |kids| && Sound(o.parts[i]) :: Alike(o.parts[i], TreeOf(kids[i]))
    ensures Alike(j, TreeOf(V.Node(OpenNode(tag, j.members).value.shape, kids)))
  {
    hide OpenNode, Alike, Sound, NodeFields, T.SoundForm, Fills, Legal, Tagged, K.Named;
    NodeSpelt(tag, j.members);
    S.OpenedProper(tag, j.members);
    var o := OpenNode(tag, j.members).value;
    var n := |o.parts|;
    T.NodeSound(o.shape, n);
    TreesOfAt(kids);
    FillsAlike(j, FObject(NodeFields(o.shape, n)), o.parts, TreesOf(kids));
  }

  /** The trees accepted as a value are exactly the encoder's tree of it, members in any order. */
  lemma BuildIffSpells(j: Json, v: Value)
    requires Sound(j)
    ensures Build(j) == Some(v) <==> Canon(v) && Named(v) && Alike(j, TreeOf(v))
  {
    hide Build, Canon, Named, Alike, TreeOf, Sound;
    if Build(j) == Some(v) {
      BuiltIsSpelt(j);
      BuiltIsCanon(j);
    }
    if Canon(v) && Named(v) && Alike(j, TreeOf(v)) {
      TreeBuilds(v);
      AlikeBuilds(j, TreeOf(v));
    }
  }

  // ---- texts -------------------------------------------------------------------------------

  /** `t` is a JSON document of the value's tree, up to white space, escapes and member order. */
  ghost predicate Spells(t: Text, v: Value) {
    exists j :: D.Denotes(t, j) && Alike(j, TreeOf(v))
  }

  /** The decoder accepts exactly the spellings of canonical values within its limits. */
  lemma DecodeIffSpells(t: Text, v: Value)
    ensures Decode(t) == Some(v) <==> Canon(v) && Named(v) && V.Within(v, V.Decoder) && Spells(t, v)
  {
    hide Build, Canon, Named, Alike, TreeOf, Sound, D.Denotes, P.ParseDocument, V.Within;
    if Decode(t) == Some(v) {
      var j := P.ParseDocument(t).value;
      D.ParserIsTheGrammar(t, j);
      DocumentIsSound(t, j);
      BuildIffSpells(j, v);
    }
    if Canon(v) && Named(v) && V.Within(v, V.Decoder) && Spells(t, v) {
      var j :| D.Denotes(t, j) && Alike(j, TreeOf(v));
      D.ParserIsTheGrammar(t, j);
      DocumentIsSound(t, j);
      BuildIffSpells(j, v);
    }
  }
}
