/** Among all accepted spellings of a value, the encoder's takes the fewest bytes. */
module ShortestSpelling {
  import opened Wrappers
  import opened Unicode
  import opened Json
  import opened JsonPrinter
  import opened JsonSyntax
  import opened Shortest
  import opened Forms
  import D = JsonDocuments
  import V = Values
  import opened Encoding
  import opened Canonical
  import opened Codec
  import opened CodecWire
  import opened Spelling
  import opened Spellings

  // ---- member order does not matter to the length ------------------------------------------

  function TotalWeight(parts: seq<Text>): nat {
    if parts == [] then 0 else Weight(parts[0]) + TotalWeight(parts[1..])
  }

  lemma {:induction false} JoinWeight(parts: seq<Text>)
    ensures Weight(Join(parts)) == TotalWeight(parts) + if parts == [] then 0 else |parts| - 1
  {
    if |parts| > 1 {
      JoinWeight(parts[1..]);
      WeightConcat(parts[0], [COMMA] + Join(parts[1..]));
      WeightConcat([COMMA], Join(parts[1..]));
      WeightOne(COMMA);
    } else if |parts| == 1 {
      assert TotalWeight(parts[1..]) == 0;
    }
  }

  lemma BracketsWeight(open: Unit, parts: seq<Text>, close: Unit)
    requires open < 0x80 && close < 0x80
    ensures Weight([open] + (Join(parts) + [close])) == 2 + TotalWeight(parts) + if parts == [] then 0 else |parts| - 1
  {
    JoinWeight(parts);
    WeightConcat([open], Join(parts) + [close]);
    WeightConcat(Join(parts), [close]);
    WeightOne(open);
    WeightOne(close);
  }

  function MemberWeight(m: Member): nat {
    Weight(PairText(m.key, Print(m.value)))
  }

  function MembersWeight(ms: seq<Member>): nat {
    if ms == [] then 0 else MemberWeight(ms[0]) + MembersWeight(ms[1..])
  }

  lemma {:induction false} MembersTotal(ms: seq<Member>)
    ensures TotalWeight(PrintMembers(ms)) == MembersWeight(ms)
  {
    hide PairText, Weight, Print;
    if ms != [] {
      MembersTotal(ms[1..]);
      assert PrintMembers(ms)[1..] == PrintMembers(ms[1..]);
    }
  }

  lemma {:induction false} MembersConcat(a: seq<Member>, b: seq<Member>)
    ensures MembersWeight(a + b) == MembersWeight(a) + MembersWeight(b)
  {
    hide MemberWeight;
    if a == [] {
      assert a + b == b;
    } else {
      MembersConcat(a[1..], b);
      assert (a + b)[1..] == a[1..] + b;
    }
  }

  /** Some member has this key and this length. */
  ghost predicate Weighs(ms: seq<Member>, key: Text, weight: nat) {
    exists p | 0 <= p < |ms| :: ms[p].key == key && MemberWeight(ms[p]) == weight
  }

  ghost predicate WeighAlike(ms: seq<Member>, ns: seq<Member>) {
    && |ms| == |ns| && DistinctKeys(ns)
    && forall i | 0 <= i < |ns| :: Weighs(ms, ns[i].key, MemberWeight(ns[i]))
  }

  lemma StillWeighs(ms: seq<Member>, p: nat, key: Text, weight: nat)
    requires p < |ms| && Weighs(ms, key, weight) && ms[p].key != key
    ensures Weighs(ms[..p] + ms[p + 1..], key, weight)
  {
    hide MemberWeight;
    var q :| 0 <= q < |ms| && ms[q].key == key && MemberWeight(ms[q]) == weight;
    var rest := ms[..p] + ms[p + 1..];
    assert rest[if q < p then q else q - 1] == ms[q];
  }

  lemma {:induction false} SameTotal(ms: seq<Member>, ns: seq<Member>)
    requires WeighAlike(ms, ns)
    ensures MembersWeight(ms) == MembersWeight(ns)
    decreases |ns|
  {
    hide MemberWeight;
    if ns != [] {
      var first := ns[0];
      assert Weighs(ms, first.key, MemberWeight(first));
      var p :| 0 <= p < |ms| && ms[p].key == first.key && MemberWeight(ms[p]) == MemberWeight(first);
      var rest := ms[..p] + ms[p + 1..];
      forall i | 0 <= i < |ns[1..]| ensures Weighs(rest, ns[1..][i].key, MemberWeight(ns[1..][i])) {
        assert Weighs(ms, ns[i + 1].key, MemberWeight(ns[i + 1]));
        StillWeighs(ms, p, ns[i + 1].key, MemberWeight(ns[i + 1]));
      }
      SameTotal(rest, ns[1..]);
      assert ms == ms[..p] + ([ms[p]] + ms[p + 1..]);
      MembersConcat(ms[..p], [ms[p]] + ms[p + 1..]);
      MembersConcat(ms[..p], ms[p + 1..]);
      assert ([ms[p]] + ms[p + 1..])[1..] == ms[p + 1..];
    }
  }

  lemma PairWeight(key: Text, a: Text, b: Text)
    requires Weight(a) == Weight(b)
    ensures Weight(PairText(key, a)) == Weight(PairText(key, b))
  {
    WeightConcat(JsonString(key), [COLON] + a);
    WeightConcat(JsonString(key), [COLON] + b);
    WeightConcat([COLON], a);
    WeightConcat([COLON], b);
  }

  /** Trees alike are printed in equally many bytes. */
  lemma {:induction false} AlikeWeighsSame(j: Json, k: Json)
    requires Alike(j, k)
    ensures Weight(Print(j)) == Weight(Print(k))
    decreases k
  {
    hide Weight;
    match k
    case JArray(items) =>
      forall i | 0 <= i < |items| ensures Weight(Print(j.items[i])) == Weight(Print(items[i])) {
        AlikeWeighsSame(j.items[i], items[i]);
      }
      ItemsWeighSame(j.items, items);
      BracketsWeight(OPEN_BRACKET, PrintItems(j.items), CLOSE_BRACKET);
      BracketsWeight(OPEN_BRACKET, PrintItems(items), CLOSE_BRACKET);
    case JObject(ms) =>
      forall i | 0 <= i < |ms| ensures Weighs(j.members, ms[i].key, MemberWeight(ms[i])) {
        assert AlikeMember(j.members, ms[i]) && ms[i].value < ms[i] && ms[i] < k;
        AlikeWeighsSame(Lookup(j.members, ms[i].key).value, ms[i].value);
        MemberWeighsSame(j.members, ms[i]);
      }
      SameTotal(j.members, ms);
      MembersTotal(j.members);
      MembersTotal(ms);
      BracketsWeight(OPEN_BRACE, PrintMembers(j.members), CLOSE_BRACE);
      BracketsWeight(OPEN_BRACE, PrintMembers(ms), CLOSE_BRACE);
    case _ =>
  }

  lemma MemberWeighsSame(ms: seq<Member>, m: Member)
    requires Lookup(ms, m.key).Some? && Weight(Print(Lookup(ms, m.key).value)) == Weight(Print(m.value))
    ensures Weighs(ms, m.key, MemberWeight(m))
  {
    hide Weight, Print, PairText;
    LookupSound(ms, m.key);
    var n := Member(m.key, Lookup(ms, m.key).value);
    PairWeight(m.key, Print(n.value), Print(m.value));
    var p :| 0 <= p < |ms| && ms[p] == n;
  }

  lemma {:induction false} ItemsWeighSame(js: seq<Json>, ks: seq<Json>)
    requires |js| == |ks| && forall i | 0 <= i < |js| :: Weight(Print(js[i])) == Weight(Print(ks[i]))
    ensures TotalWeight(PrintItems(js)) == TotalWeight(PrintItems(ks))
  {
    hide Weight, Print;
    if js != [] {
      ItemsWeighSame(js[1..], ks[1..]);
      assert PrintItems(js)[1..] == PrintItems(js[1..]) && PrintItems(ks)[1..] == PrintItems(ks[1..]);
    }
  }

  // ---- the theorem ----------------------------------------------------------------------------

  /** No accepted spelling is shorter than the encoder's. */
  lemma EncodingIsShortest(t: Text, v: V.Value)
    requires WellFormed(t) && Decode(t) == Some(v)
    ensures Encode(v).Some? && |EncodeUtf8(Encode(v).value)| <= |EncodeUtf8(t)|
  {
    hide Canon, Named, TreeOf, Enc, Decode, WellFormed, EncodeUtf8, Weight, D.Denotes, Alike, Print, Norm, V.Within;
    DecodeIffSpells(t, v);
    var j :| D.Denotes(t, j) && Alike(j, TreeOf(v));
    DocumentIsNoShorter(t, j);
    AlikeWeighsSame(j, TreeOf(v));
    AcceptedTextHasNormalForm(t, v);
    CanonIsFixed(v);
    EncodedIsWellFormed(v);
    WeightIsUtf8Length(t);
    WeightIsUtf8Length(Encode(v).value);
  }

  /**
   Normal form over bytes: accepted bytes denote a value in normal form, which is
   written again within the payload limit, in no more bytes, and read back.
   */
  lemma AcceptedBytesHaveNormalForm(bytes: seq<Byte>, v: V.Value)
    requires DecodeBytes(bytes) == Some(v)
    ensures Norm(v) == v && EncodeBytes(v).Some? && |EncodeBytes(v).value| <= |bytes|
    ensures DecodeBytes(EncodeBytes(v).value) == Some(v)
  {
    hide Encode, Decode, Norm, EncodeUtf8;
    var t := DecodeUtf8(bytes).value;
    var cs :| Utf8(cs) == bytes && t == Utf16(cs);
    Utf16IsWellFormed(cs);
    BytesOf(cs);
    hide DecodeUtf8;
    EncodingIsShortest(t, v);
    AcceptedTextHasNormalForm(t, v);
    EncodedIsWellFormed(v);
    Utf8RoundTrip(Encode(v).value);
  }

  lemma BytesOf(cs: seq<Scalar>)
    requires Scalars(Utf16(cs)) == cs
    ensures EncodeUtf8(Utf16(cs)) == Utf8(cs)
  {
  }
}
