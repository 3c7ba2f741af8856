/** The builder cannot tell trees apart that differ only in the order of members. */
module SpellingBuilds {
  import opened Wrappers
  import opened Unicode
  import opened Json
  import opened Words
  import opened Forms
  import V = Values
  import opened Decoding
  import opened Spelling
  import opened SpellingNodes
  import L = DecodingLeaves
  import opened Encoding
  import N = Numerals
  import Base64
  import Codec

  ghost predicate AllAlike(js: seq<Json>, ks: seq<Json>) {
    |js| == |ks| && forall i | 0 <= i < |js| :: Alike(js[i], ks[i])
  }

  /** The same members up to order, stated by what can be read from them. */
  ghost predicate ReadsAlike(ms: seq<Member>, ns: seq<Member>) {
    && (forall words, optional | HasFields(ns, words, optional) :: HasFields(ms, words, optional))
    && (forall w :: Has(ns, w) <==> Has(ms, w))
    && (forall w | Has(ns, w) :: Alike(Get(ms, w), Get(ns, w)))
  }

  lemma KeysSubset(ms: seq<Member>, ns: seq<Member>)
    requires DistinctKeys(ms) && DistinctKeys(ns) && |ms| == |ns|
    requires forall i | 0 <= i < |ns| :: ns[i].key in Keys(ms)
    ensures forall i | 0 <= i < |ms| :: ms[i].key in Keys(ns)
  {
    var a, b := set t | t in Keys(ms), set t | t in Keys(ns);
    DistinctCount(Keys(ms));
    DistinctCount(Keys(ns));
    forall t | t in b ensures t in a {
      var i :| 0 <= i < |ns| && Keys(ns)[i] == t;
      assert ns[i].key in Keys(ms);
    }
    SubsetOfSameSize(b, a);
    forall i | 0 <= i < |ms| ensures ms[i].key in Keys(ns) {
      assert Keys(ms)[i] in a;
    }
  }

  lemma SubsetOfSameSize<T>(b: set<T>, a: set<T>)
    requires b <= a && |b| == |a|
    ensures a == b
  {
    assert |a - b| == |a| - |b|;
  }

  lemma KeyIn(ms: seq<Member>, key: Text)
    ensures Lookup(ms, key).Some? <==> key in Keys(ms)
  {
    LookupSound(ms, key);
    if key in Keys(ms) {
      var i :| 0 <= i < |ms| && Keys(ms)[i] == key;
      assert ms[i].key == key;
    }
    if Lookup(ms, key).Some? {
      var m := Member(key, Lookup(ms, key).value);
      var i :| 0 <= i < |ms| && ms[i] == m;
      assert Keys(ms)[i] == key;
    }
  }

  lemma AlikeReads(ms: seq<Member>, ns: seq<Member>)
    requires Alike(JObject(ms), JObject(ns))
    ensures ReadsAlike(ms, ns)
  {
    hide Spell, Lookup, HasFields;
    forall i | 0 <= i < |ns| ensures ns[i].key in Keys(ms) {
      assert AlikeMember(ms, ns[i]);
      KeyIn(ms, ns[i].key);
    }
    KeysSubset(ms, ns);
    forall words, optional | HasFields(ns, words, optional) ensures HasFields(ms, words, optional) {
      FieldsCarry(ms, ns, words, optional);
    }
    forall w ensures Has(ns, w) <==> Has(ms, w) {
      SameHas(ms, ns, w);
    }
    forall w | Has(ns, w) ensures Alike(Get(ms, w), Get(ns, w)) {
      LookupSound(ns, Spell(w));
      var m := Member(Spell(w), Get(ns, w));
      var i :| 0 <= i < |ns| && ns[i] == m;
      assert AlikeMember(ms, ns[i]);
    }
  }

  ghost predicate SameKeys(ms: seq<Member>, ns: seq<Member>) {
    (forall i | 0 <= i < |ns| :: ns[i].key in Keys(ms)) && forall i | 0 <= i < |ms| :: ms[i].key in Keys(ns)
  }

  lemma SameHas(ms: seq<Member>, ns: seq<Member>, w: Word)
    requires SameKeys(ms, ns)
    ensures Has(ns, w) <==> Has(ms, w)
  {
    hide Spell, Lookup;
    KeyIn(ms, Spell(w));
    KeyIn(ns, Spell(w));
    if i :| 0 <= i < |ms| && Keys(ms)[i] == Spell(w) {
      assert ms[i].key in Keys(ns);
    }
    if i :| 0 <= i < |ns| && Keys(ns)[i] == Spell(w) {
      assert ns[i].key in Keys(ms);
    }
  }

  lemma FieldsCarry(ms: seq<Member>, ns: seq<Member>, words: seq<Word>, optional: seq<Word>)
    requires SameKeys(ms, ns) && HasFields(ns, words, optional)
    ensures HasFields(ms, words, optional)
  {
    hide Spell, Lookup, Find;
    forall i | 0 <= i < |ms| ensures Find(ms[i].key, words + optional).Some? {
      var k :| 0 <= k < |ns| && Keys(ns)[k] == ms[i].key;
      assert Find(ns[k].key, words + optional).Some?;
    }
    forall w | w in words ensures Has(ms, w) {
      SameHas(ms, ns, w);
    }
  }

  // ---- leaves -----------------------------------------------------------------------------

  lemma TextCarries(ms: seq<Member>, ns: seq<Member>)
    requires ReadsAlike(ms, ns) && TextOnly(ns).Some?
    ensures TextOnly(ms) == TextOnly(ns)
  {
    hide Spell, HasFields, Lookup, Has;
    var words := [WTag, WValue];
    FieldsThere(ns, words, []);
    assert Has(ns, words[1]);
  }

  lemma MomentCarries(ms: seq<Member>, ns: seq<Member>)
    requires ReadsAlike(ms, ns) && MomentOf(ns).Some?
    ensures MomentOf(ms) == MomentOf(ns)
  {
    hide Spell, HasFields, Lookup, Has, N.IsCanonicalInt, N.BigIntOf;
    var words := [WTag, WValue, WOffsetMinutes, WFold];
    FieldsThere(ns, words, []);
    assert Has(ns, words[1]) && Has(ns, words[2]) && Has(ns, words[3]);
  }

  lemma FlaggedCarries(tag: Word, ms: seq<Member>, ns: seq<Member>)
    requires ReadsAlike(ms, ns) && BuildLeaf(tag, ns).Some? && (tag == WFloat || tag == WBytes || tag == WPath)
    ensures BuildLeaf(tag, ms) == BuildLeaf(tag, ns)
  {
    hide Spell, HasFields, Find, IsRelativePath, Lookup, Has, Base64.Decode, N.IsCanonicalFloat;
    var words := L.LeafWords(tag);
    FieldsThere(ns, words, []);
    assert Has(ns, words[1]) && Has(ns, words[2]);
  }

  lemma PlainCarries(tag: Word, ms: seq<Member>, ns: seq<Member>)
    requires ReadsAlike(ms, ns) && BuildLeaf(tag, ns).Some? && (tag == WNull || tag == WBool || tag == WInt || tag == WStr)
    ensures BuildLeaf(tag, ms) == BuildLeaf(tag, ns)
  {
    hide Spell, HasFields, Lookup, Has, N.IsCanonicalInt, N.BigIntOf;
    var words := L.LeafWords(tag);
    FieldsThere(ns, words, []);
    assert tag != WNull ==> Has(ns, words[1]);
  }

  lemma TextLeafCarries(tag: Word, ms: seq<Member>, ns: seq<Member>)
    requires ReadsAlike(ms, ns) && BuildLeaf(tag, ns).Some? && IsTextTag(tag)
    ensures BuildLeaf(tag, ms) == BuildLeaf(tag, ns)
  {
    hide ReadsAlike, TextOnly;
    TextCarries(ms, ns);
  }

  lemma MomentLeafCarries(tag: Word, ms: seq<Member>, ns: seq<Member>)
    requires ReadsAlike(ms, ns) && BuildLeaf(tag, ns).Some? && (tag == WTime || tag == WDatetime)
    ensures BuildLeaf(tag, ms) == BuildLeaf(tag, ns)
  {
    hide ReadsAlike, MomentOf;
    MomentCarries(ms, ns);
  }

  lemma LeafCarries(tag: Word, ms: seq<Member>, ns: seq<Member>)
    requires ReadsAlike(ms, ns) && BuildLeaf(tag, ns).Some?
    ensures BuildLeaf(tag, ms) == BuildLeaf(tag, ns)
  {
    hide ReadsAlike, BuildLeaf, HasFields, L.LeafWords, LEAF_TAGS;
    LeafHasFields(tag, ns);
    LeafTagCases(tag);
    if IsTextTag(tag) {
      TextLeafCarries(tag, ms, ns);
    } else if tag == WTime || tag == WDatetime {
      MomentLeafCarries(tag, ms, ns);
    } else if tag == WFloat || tag == WBytes || tag == WPath {
      FlaggedCarries(tag, ms, ns);
    } else {
      PlainCarries(tag, ms, ns);
    }
  }

  // ---- nodes --------------------------------------------------------------------------------

  /** The other object opens as the same shape with parts alike. */
  ghost predicate OpensAlike(tag: Word, ms: seq<Member>, ns: seq<Member>)
    requires OpenNode(tag, ns).Some?
  {
    && OpenNode(tag, ms).Some?
    && OpenNode(tag, ms).value.shape == OpenNode(tag, ns).value.shape
    && AllAlike(OpenNode(tag, ms).value.parts, OpenNode(tag, ns).value.parts)
  }

  lemma SequenceCarries(tag: Word, ms: seq<Member>, ns: seq<Member>)
    requires ReadsAlike(ms, ns) && OpenNode(tag, ns).Some?
    requires tag == WList || tag == WTuple || tag == WSet || tag == WFrozenSet
    ensures OpensAlike(tag, ms, ns)
  {
    hide Spell, HasFields, Lookup, Has;
  }

  lemma FixedCarries(tag: Word, ms: seq<Member>, ns: seq<Member>)
    requires ReadsAlike(ms, ns) && OpenNode(tag, ns).Some? && (tag == WComplex || tag == WEnum || tag == WException)
    ensures OpensAlike(tag, ms, ns)
  {
    hide Spell, HasFields, Lookup, Has;
    var words :=
      if tag == WComplex then [WTag, WReal, WImag]
      else if tag == WEnum then [WTag, WType, WMemberKey, WValue] else [WTag, WType, WMessage, WDetails];
    FieldsThere(ns, words, []);
    assert Has(ns, words[1]) && Has(ns, words[2]) && (tag != WComplex ==> Has(ns, words[3]));
  }

  lemma EntryCarries(j: Json, k: Json)
    requires Alike(j, k) && IsEntry(k)
    ensures IsEntry(j) && Alike(EntryPart(j, WKey), EntryPart(k, WKey)) && Alike(EntryPart(j, WValue), EntryPart(k, WValue))
  {
    hide Spell, HasFields, Lookup, Has;
    AlikeReads(j.members, k.members);
    var words := [WKey, WValue];
    FieldsThere(k.members, words, []);
    assert Has(k.members, words[0]) && Has(k.members, words[1]);
  }

  lemma {:induction false} EntriesCarry(js: seq<Json>, ks: seq<Json>)
    requires AllAlike(js, ks) && forall i | 0 <= i < |ks| :: IsEntry(ks[i])
    ensures forall i | 0 <= i < |js| :: IsEntry(js[i])
    ensures AllAlike(EntryParts(js), EntryParts(ks))
  {
    hide IsEntry, Alike;
    if ks != [] {
      EntryCarries(js[0], ks[0]);
      EntriesCarry(js[1..], ks[1..]);
    }
  }

  lemma DictCarries(ms: seq<Member>, ns: seq<Member>)
    requires ReadsAlike(ms, ns) && OpenNode(WDict, ns).Some?
    ensures OpensAlike(WDict, ms, ns)
  {
    hide Spell, HasFields, Lookup, Has, IsEntry, EntryParts;
    EntriesCarry(Get(ms, WEntries).items, Get(ns, WEntries).items);
  }

  lemma RecordFieldCarries(j: Json, k: Json)
    requires Alike(j, k) && IsRecordField(k)
    ensures IsRecordField(j) && FieldName(j) == FieldName(k) && Alike(FieldPart(j), FieldPart(k))
  {
    hide Spell, HasFields, Lookup, Has;
    AlikeReads(j.members, k.members);
    var words := [WName, WValue];
    FieldsThere(k.members, words, []);
    assert Has(k.members, words[0]) && Has(k.members, words[1]);
  }

  lemma RecordFieldsCarry(js: seq<Json>, ks: seq<Json>)
    requires AllAlike(js, ks) && forall i | 0 <= i < |ks| :: IsRecordField(ks[i])
    ensures forall i | 0 <= i < |js| :: IsRecordField(js[i])
    ensures FieldNames(js) == FieldNames(ks) && AllAlike(FieldParts(js), FieldParts(ks))
  {
    hide IsRecordField, Alike, FieldName, FieldPart;
    forall i | 0 <= i < |js|
      ensures IsRecordField(js[i]) && FieldName(js[i]) == FieldName(ks[i]) && Alike(FieldPart(js[i]), FieldPart(ks[i]))
    {
      RecordFieldCarries(js[i], ks[i]);
    }
  }

  lemma RecordCarries(ms: seq<Member>, ns: seq<Member>)
    requires ReadsAlike(ms, ns) && OpenNode(WRecord, ns).Some?
    ensures OpensAlike(WRecord, ms, ns)
  {
    hide Spell, HasFields, Lookup, Has, IsRecordField, FieldNames, FieldParts, DistinctTexts, Find;
    var words := [WTag, WType, WName, WFields];
    FieldsThere(ns, words, []);
    assert Has(ns, words[1]) && Has(ns, words[2]) && Has(ns, words[3]);
    RecordFieldsCarry(Get(ms, WFields).items, Get(ns, WFields).items);
  }

  lemma ListNodeCarries(ms: seq<Member>, ns: seq<Member>)
    requires ReadsAlike(ms, ns) && OpenNode(WListNode, ns).Some?
    ensures OpensAlike(WListNode, ms, ns)
  {
    hide Spell, HasFields, Lookup, Has;
    var words := [WTag, WValues, WCycleIndex];
    FieldsThere(ns, words, []);
    assert Has(ns, words[1]) && Has(ns, words[2]);
  }

  lemma {:induction false} SlotsCarry(js: seq<Json>, ks: seq<Json>)
    requires AllAlike(js, ks)
    ensures PresentOf(js) == PresentOf(ks) && AllAlike(SlotParts(js), SlotParts(ks))
  {
    forall i | 0 <= i < |js| ensures js[i].JNull? <==> ks[i].JNull? {
      assert Alike(js[i], ks[i]);
    }
    hide Alike;
    if ks != [] {
      SlotsCarry(js[1..], ks[1..]);
    }
  }

  lemma TreeNodeCarries(ms: seq<Member>, ns: seq<Member>)
    requires ReadsAlike(ms, ns) && OpenNode(WTreeNode, ns).Some?
    ensures OpensAlike(WTreeNode, ms, ns)
  {
    hide Spell, HasFields, Lookup, Has, PresentOf, SlotParts, V.Reachable;
    var js, ks := Get(ms, WValues).items, Get(ns, WValues).items;
    SlotsCarry(js, ks);
    assert js != [] ==> Alike(js[|js| - 1], ks[|ks| - 1]);
  }

  lemma OperationCarries(j: Json, k: Json)
    requires Alike(j, k) && IsOperation(k)
    ensures IsOperation(j) && OperationOf(j) == OperationOf(k) && AllAlike(OperationParts(j), OperationParts(k))
  {
    hide Spell, HasFields, Lookup, Has;
    AlikeReads(j.members, k.members);
    var words := [WMethod, WArgs];
    FieldsThere(k.members, words, [WExpected]);
    assert Has(k.members, words[0]) && Has(k.members, words[1]);
  }

  lemma AllAlikeConcat(a: seq<Json>, b: seq<Json>, c: seq<Json>, d: seq<Json>)
    requires AllAlike(a, c) && AllAlike(b, d)
    ensures AllAlike(a + b, c + d)
  {
    hide Alike;
  }

  lemma {:induction false} OperationsCarry(js: seq<Json>, ks: seq<Json>)
    requires AllAlike(js, ks) && forall i | 0 <= i < |ks| :: IsOperation(ks[i])
    ensures forall i | 0 <= i < |js| :: IsOperation(js[i])
    ensures OperationsOf(js) == OperationsOf(ks) && AllAlike(OperationsParts(js), OperationsParts(ks))
  {
    hide IsOperation, Alike, OperationOf, OperationParts;
    if ks != [] {
      OperationCarries(js[0], ks[0]);
      OperationsCarry(js[1..], ks[1..]);
      AllAlikeConcat(OperationParts(js[0]), OperationsParts(js[1..]), OperationParts(ks[0]), OperationsParts(ks[1..]));
    }
  }

  lemma TraceCarries(ms: seq<Member>, ns: seq<Member>)
    requires ReadsAlike(ms, ns) && OpenNode(WClassTrace, ns).Some?
    ensures OpensAlike(WClassTrace, ms, ns)
  {
    hide Spell, HasFields, Lookup, Has, IsOperation, OperationsOf, OperationsParts;
    var words := [WTag, WClassName, WConstructor, WOperations];
    FieldsThere(ns, words, []);
    assert Has(ns, words[1]) && Has(ns, words[2]) && Has(ns, words[3]);
    var js, ks := Get(ms, WOperations).items, Get(ns, WOperations).items;
    OperationsCarry(js, ks);
    AllAlikeConcat(Get(ms, WConstructor).items, OperationsParts(js), Get(ns, WConstructor).items, OperationsParts(ks));
  }

  lemma NodeCarries(tag: Word, ms: seq<Member>, ns: seq<Member>)
    requires ReadsAlike(ms, ns) && OpenNode(tag, ns).Some? && tag in NODE_TAGS
    ensures OpensAlike(tag, ms, ns)
  {
    hide OpenNode, OpensAlike, ReadsAlike;
    match tag
    case WDict => DictCarries(ms, ns);
    case WRecord => RecordCarries(ms, ns);
    case WListNode => ListNodeCarries(ms, ns);
    case WTreeNode => TreeNodeCarries(ms, ns);
    case WClassTrace => TraceCarries(ms, ns);
    case WComplex | WEnum | WException => FixedCarries(tag, ms, ns);
    case _ => SequenceCarries(tag, ms, ns);
  }

  // ---- the builder ------------------------------------------------------------------------------

  lemma TagCarries(j: Json, k: Json)
    requires Alike(j, k) && TagOf(k).Some?
    ensures TagOf(j) == TagOf(k)
  {
    hide Spell, Find, HasFields;
    AlikeReads(j.members, k.members);
    assert Has(k.members, WTag);
    assert Alike(Get(j.members, WTag), Get(k.members, WTag));
  }

  lemma {:induction false} BuildCarries(j: Json, k: Json)
    requires Alike(j, k) && Build(k).Some?
    ensures Build(j) == Build(k)
    decreases k
  {
    TagCarries(j, k);
    AlikeReads(j.members, k.members);
    var tag := TagOf(k).value;
    if tag in LEAF_TAGS {
      LeafCarries(tag, j.members, k.members);
    } else {
      var o := OpenNode(tag, k.members).value;
      NodeTags(tag, k.members);
      NodeCarries(tag, j.members, k.members);
      PartsBelow(tag, k.members);
      var p := OpenNode(tag, j.members).value;
      Codec.BuildNode(k, tag, o.shape, o.parts);
      Codec.BuildNode(j, tag, p.shape, p.parts);
      hide Build, TagOf, OpenNode, Checked, Collect, Alike;
      var kids := Collect(BuildAll(o.parts)).value;
      forall i | 0 <= i < |kids| ensures BuildAll(p.parts)[i] == Some(kids[i]) {
        assert BuildAll(o.parts)[i] == Some(kids[i]);
        BuildCarries(p.parts[i], o.parts[i]);
      }
      Codec.CollectKnown(BuildAll(p.parts), kids);
    }
  }

  // ---- both ways ----------------------------------------------------------------------------------

  lemma MemberBack(ms: seq<Member>, ns: seq<Member>, i: nat) returns (p: nat)
    requires Alike(JObject(ms), JObject(ns)) && i < |ms|
    ensures p < |ns| && ns[p].key == ms[i].key && Alike(ms[i].value, ns[p].value)
    ensures Lookup(ns, ms[i].key) == Some(ns[p].value)
  {
    hide Lookup;
    forall k | 0 <= k < |ns| ensures ns[k].key in Keys(ms) {
      assert AlikeMember(ms, ns[k]);
      KeyIn(ms, ns[k].key);
    }
    KeysSubset(ms, ns);
    p :| 0 <= p < |ns| && Keys(ns)[p] == ms[i].key;
    assert AlikeMember(ms, ns[p]);
    LookupAt(ms, i);
    LookupAt(ns, p);
  }

  lemma {:induction false} AlikeSymmetric(j: Json, k: Json)
    requires Alike(j, k)
    ensures Alike(k, j)
    decreases k
  {
    match k
    case JArray(items) =>
      forall i | 0 <= i < |items| ensures Alike(items[i], j.items[i]) {
        AlikeSymmetric(j.items[i], items[i]);
      }
    case JObject(ns) =>
      forall i | 0 <= i < |j.members| ensures AlikeMember(ns, j.members[i]) {
        var p := MemberBack(j.members, ns, i);
        assert ns[p].value < ns[p] && ns[p] < k;
        AlikeSymmetric(j.members[i].value, ns[p].value);
      }
    case _ =>
  }

  /** Members change places: the same is built, or nothing as before. */
  lemma AlikeBuilds(j: Json, k: Json)
    requires Alike(j, k)
    ensures Build(j) == Build(k)
  {
    hide Build, Alike;
    if Build(k).Some? {
      BuildCarries(j, k);
    } else if Build(j).Some? {
      AlikeSymmetric(j, k);
      BuildCarries(k, j);
    }
  }
}
