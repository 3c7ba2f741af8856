/**
 Which JSON trees the builder accepts as a value: only the encoder's own tree of
 that value, its members in any order. Nothing is ignored and nothing is added.
 */
module Spelling {
  import opened Wrappers
  import opened Unicode
  import opened Json
  import opened JsonPrinter
  import opened Sorting
  import opened Words
  import opened Forms
  import opened Trees
  import V = Values
  import opened Encoding
  import opened Canonical
  import opened Decoding
  import L = DecodingLeaves
  import N = Numerals
  import G = LeafGrammar

  // ---- equal up to the order of members ------------------------------------------------

  /** The same tree, the members of objects in any order. */
  ghost predicate Alike(j: Json, k: Json)
    decreases k
  {
    match k
    case JArray(items) => j.JArray? && |j.items| == |items| && forall i | 0 <= i < |items| :: Alike(j.items[i], items[i])
    case JObject(ms) =>
      && j.JObject? && |j.members| == |ms| && DistinctKeys(j.members) && DistinctKeys(ms)
      && forall i | 0 <= i < |ms| :: AlikeMember(j.members, ms[i])
    case _ => j == k
  }

  ghost predicate AlikeMember(ms: seq<Member>, m: Member)
    decreases m
  {
    Lookup(ms, m.key).Some? && Alike(Lookup(ms, m.key).value, m.value)
  }

  /** `j` is the form with `js` in its holes, members in any order. */
  ghost predicate Fills(j: Json, f: Form, js: seq<Json>)
    decreases f
  {
    match f
    case Hole(i) => i < |js| && j == js[i]
    case FArray(items) => j.JArray? && |j.items| == |items| && forall i | 0 <= i < |items| :: Fills(j.items[i], items[i], js)
    case FObject(fields) =>
      j.JObject? && |j.members| == |fields| && forall i | 0 <= i < |fields| :: FillsField(j.members, fields[i], js)
    case _ => j == Graft(f, [])
  }

  ghost predicate FillsField(ms: seq<Member>, field: FormField, js: seq<Json>)
    decreases field
  {
    Has(ms, field.word) && Fills(Get(ms, field.word), field.form, js)
  }

  lemma SoundGet(ms: seq<Member>, w: Word)
    requires Sound(JObject(ms)) && Has(ms, w)
    ensures Sound(Get(ms, w))
  {
    LookupSound(ms, Spell(w));
    hide Spell, Lookup;
  }

  /** Filling the holes with trees alike gives trees alike. */
  lemma {:induction false} FillsAlike(j: Json, f: Form, js: seq<Json>, ks: seq<Json>)
    requires Fills(j, f, js) && Sound(j) && SoundForm(f) && |js| == |ks|
    requires forall i | 0 <= i < |js| && Sound(js[i]) :: Alike(js[i], ks[i])
    ensures Alike(j, Graft(f, ks))
    decreases f
  {
    match f
    case FArray(items) =>
      forall i | 0 <= i < |items| ensures Alike(j.items[i], Graft(items[i], ks)) {
        FillsAlike(j.items[i], items[i], js, ks);
      }
    case FObject(fields) =>
      forall i | 0 <= i < |fields| ensures Has(j.members, fields[i].word) && Alike(Get(j.members, fields[i].word), Graft(fields[i].form, ks)) {
        assert FillsField(j.members, fields[i], js) && SoundField(fields[i]) && fields[i].form < fields[i];
        SoundGet(j.members, fields[i].word);
        FillsAlike(Get(j.members, fields[i].word), fields[i].form, js, ks);
      }
      ObjectAlike(j, fields, ks);
    case _ =>
  }

  lemma ObjectAlike(j: Json, fields: seq<FormField>, ks: seq<Json>)
    requires j.JObject? && DistinctKeys(j.members) && |j.members| == |fields| && DistinctWords(fields)
    requires forall i | 0 <= i < |fields| ::
               Has(j.members, fields[i].word) && Alike(Get(j.members, fields[i].word), Graft(fields[i].form, ks))
    ensures Alike(j, Graft(FObject(fields), ks))
  {
    GraftedMembers(fields, ks);
    GraftedLookup(fields, ks);
    GraftIsObject(fields, ks);
    var k := Graft(FObject(fields), ks);
    hide Graft, Spell, Lookup;
    forall i | 0 <= i < |k.members| ensures AlikeMember(j.members, k.members[i]) {
      assert k.members[i] in k.members;
      var n :| 0 <= n < |fields| && k.members[i] == FieldMember(fields[n], ks);
    }
  }

  // ---- exactly the allowed fields --------------------------------------------------------

  lemma {:induction false} DistinctCount<T>(xs: seq<T>)
    requires forall i, j | 0 <= i < j < |xs| :: xs[i] != xs[j]
    ensures |set x | x in xs| == |xs|
  {
    if xs != [] {
      DistinctCount(xs[1..]);
      assert (set x | x in xs) == {xs[0]} + set x | x in xs[1..];
    }
  }

  predicate DistinctList(words: seq<Word>) {
    forall i, j | 0 <= i < j < |words| :: words[i] != words[j]
  }

  function Keys(ms: seq<Member>): (r: seq<Text>)
    ensures |r| == |ms| && forall i | 0 <= i < |ms| :: r[i] == ms[i].key
  {
    seq(|ms|, i requires 0 <= i < |ms| => ms[i].key)
  }

  function Spelt(words: seq<Word>): (r: seq<Text>)
    ensures |r| == |words| && forall i | 0 <= i < |words| :: r[i] == Spell(words[i])
  {
    seq(|words|, i requires 0 <= i < |words| => Spell(words[i]))
  }

  lemma FieldCount(ms: seq<Member>, words: seq<Word>)
    requires DistinctKeys(ms) && DistinctList(words) && HasFields(ms, words, [])
    ensures |ms| == |words|
  {
    hide Spell, HasFields;
    var keys, names := Keys(ms), Spelt(words);
    forall i, j | 0 <= i < j < |words| ensures names[i] != names[j] {
      if names[i] == names[j] {
        SpellInjective(words[i], words[j]);
      }
    }
    DistinctCount(keys);
    DistinctCount(names);
    forall t ensures t in keys <==> t in names {
      KeysAreWords(ms, words, t);
    }
    assert (set t | t in keys) == set t | t in names;
  }

  lemma KeysAreWords(ms: seq<Member>, words: seq<Word>, t: Text)
    requires HasFields(ms, words, [])
    ensures t in Keys(ms) <==> t in Spelt(words)
  {
    hide Spell, Lookup;
    assert words + [] == words;
    if t in Keys(ms) {
      var i :| 0 <= i < |ms| && Keys(ms)[i] == t;
      var w := Find(ms[i].key, words + []).value;
      FindSound(t, words, w);
      var k :| 0 <= k < |words| && words[k] == w;
      assert Spelt(words)[k] == t;
    }
    if t in Spelt(words) {
      var i :| 0 <= i < |words| && Spelt(words)[i] == t;
      LookupSound(ms, t);
      assert words[i] in words && Has(ms, words[i]);
      var m := Member(t, Lookup(ms, t).value);
      var k :| 0 <= k < |ms| && ms[k] == m;
      assert Keys(ms)[k] == t;
    }
  }

  lemma FieldsThere(ms: seq<Member>, words: seq<Word>, optional: seq<Word>)
    requires HasFields(ms, words, optional)
    ensures forall i | 0 <= i < |words| :: Has(ms, words[i])
  {
    forall i | 0 <= i < |words| ensures Has(ms, words[i]) {
      assert words[i] in words;
    }
  }

  lemma ObjectFills(ms: seq<Member>, words: seq<Word>, fields: seq<FormField>, js: seq<Json>)
    requires DistinctKeys(ms) && DistinctList(words) && HasFields(ms, words, []) && |fields| == |words|
    requires forall i | 0 <= i < |fields| :: FillsField(ms, fields[i], js)
    ensures Fills(JObject(ms), FObject(fields), js)
  {
    FieldCount(ms, words);
  }

  lemma TextFills(ms: seq<Member>, w: Word, t: Text, js: seq<Json>)
    requires Has(ms, w) && Get(ms, w) == JString(t)
    ensures FillsField(ms, FormField(w, FString(t)), js)
  {
    hide Has, Get;
  }

  lemma PartFills(ms: seq<Member>, w: Word, i: nat, js: seq<Json>)
    requires Has(ms, w) && i < |js| && Get(ms, w) == js[i]
    ensures FillsField(ms, FormField(w, Hole(i)), js)
  {
    hide Has, Get;
  }

  lemma NullFills(ms: seq<Member>, w: Word, js: seq<Json>)
    requires Has(ms, w) && Get(ms, w) == JNull
    ensures FillsField(ms, FormField(w, FNull), js)
  {
    hide Has, Get;
  }

  lemma FormFills(ms: seq<Member>, w: Word, f: Form, js: seq<Json>)
    requires Has(ms, w) && Fills(Get(ms, w), f, js)
    ensures FillsField(ms, FormField(w, f), js)
  {
    hide Has, Get, Fills;
  }

  lemma TagFills(ms: seq<Member>, tag: Word, js: seq<Json>)
    requires Tagged(ms, tag)
    ensures FillsField(ms, Tag(tag), js)
  {
    hide Has, Get, Spell;
    TextFills(ms, WTag, Spell(tag), js);
  }

  // ---- leaves --------------------------------------------------------------------------------

  lemma TagSpelt(j: Json, tag: Word)
    requires TagOf(j) == Some(tag)
    ensures j.JObject? && Tagged(j.members, tag)
  {
    var t := Get(j.members, WTag).text;
    FindSound(t, LEAF_TAGS + NODE_TAGS, tag);
  }

  lemma PathSpelt(t: Text, flavor: Word)
    requires Find(t, [WPosix, WWindows]) == Some(flavor)
    ensures t == Spell(if flavor == WWindows then WWindows else WPosix)
  {
    FindSound(t, [WPosix, WWindows], flavor);
  }

  /** The tag member, as `TagSpelt` finds it. */
  predicate Tagged(ms: seq<Member>, tag: Word) {
    Has(ms, WTag) && Get(ms, WTag) == JString(Spell(tag))
  }

  lemma IntSpelt(ms: seq<Member>)
    requires Tagged(ms, WInt) && BuildLeaf(WInt, ms).Some?
    ensures var fields := LeafFields(BuildLeaf(WInt, ms).value);
      |fields| == 2 && forall i | 0 <= i < |fields| :: FillsField(ms, fields[i], [])
  {
    hide Spell, HasFields, Lookup, IntForm, IntOf, Has;
    FieldsThere(ms, [WTag, WValue], []);
    assert Has(ms, [WTag, WValue][1]);
    L.IntFormUnique(Get(ms, WValue));
    ScalarIntForm(IntOf(Get(ms, WValue)).value);
  }

  lemma PathLeafSpelt(ms: seq<Member>)
    requires Tagged(ms, WPath) && BuildLeaf(WPath, ms).Some?
    ensures var fields := LeafFields(BuildLeaf(WPath, ms).value);
      |fields| == 3 && forall i | 0 <= i < |fields| :: FillsField(ms, fields[i], [])
  {
    hide Spell, HasFields, Lookup, Find, IsRelativePath, Has;
    var words := [WTag, WValue, WFlavor];
    FieldsThere(ms, words, []);
    assert Has(ms, words[1]) && Has(ms, words[2]);
    PathSpelt(Get(ms, WFlavor).text, Find(Get(ms, WFlavor).text, [WPosix, WWindows]).value);
  }

  lemma ShortLeafSpelt(tag: Word, ms: seq<Member>)
    requires Tagged(ms, tag) && BuildLeaf(tag, ms).Some? && (tag == WNull || tag == WBool || tag == WStr)
    ensures var fields := LeafFields(BuildLeaf(tag, ms).value);
      |fields| == |L.LeafWords(tag)| && forall i | 0 <= i < |fields| :: FillsField(ms, fields[i], [])
  {
    hide Spell, HasFields, Lookup, Has, Find;
    var words := L.LeafWords(tag);
    FieldsThere(ms, words, []);
    assert tag != WNull ==> |words| > 1 && Has(ms, words[1]);
  }

  lemma LongLeafSpelt(tag: Word, ms: seq<Member>)
    requires Tagged(ms, tag) && BuildLeaf(tag, ms).Some? && (tag == WFloat || tag == WBytes)
    ensures var fields := LeafFields(BuildLeaf(tag, ms).value);
      |fields| == |L.LeafWords(tag)| && forall i | 0 <= i < |fields| :: FillsField(ms, fields[i], [])
  {
    hide Spell, HasFields, Lookup, Has, Find;
    var words := L.LeafWords(tag);
    FieldsThere(ms, words, []);
    assert Has(ms, words[1]) && Has(ms, words[2]);
  }

  /** `decimal`, `date` and `uuid` are a tag and a text. */
  predicate IsTextTag(tag: Word) {
    tag == WDecimal || tag == WDate || tag == WUuid
  }

  lemma TextLeafSpelt(tag: Word, ms: seq<Member>)
    requires Tagged(ms, tag) && BuildLeaf(tag, ms).Some? && IsTextTag(tag)
    ensures var fields := LeafFields(BuildLeaf(tag, ms).value);
      |fields| == 2 && forall i | 0 <= i < |fields| :: FillsField(ms, fields[i], [])
  {
    hide Spell, HasFields, Lookup, Has;
    var words := [WTag, WValue];
    FieldsThere(ms, words, []);
    assert Has(ms, words[1]);
  }

  lemma OffsetSpelt(j: Json)
    requires OffsetOf(j).Some?
    ensures var f := NullableInt(OffsetOf(j).value); (f.FNull? || f.FNumber?) && j == Graft(f, [])
  {
    if j.JNumber? {
      N.DecimalUnique(j.raw);
    }
  }

  lemma MomentSpelt(ms: seq<Member>)
    requires MomentOf(ms).Some?
    ensures var (t, offset, fold) := MomentOf(ms).value;
      && FillsField(ms, FormField(WFold, FoldForm(fold)), []) && FillsField(ms, FormField(WOffsetMinutes, NullableInt(offset)), [])
      && FillsField(ms, FormField(WValue, FString(t)), [])
  {
    hide Spell, HasFields, Lookup, Has, OffsetOf, NullableInt;
    var words := [WTag, WValue, WOffsetMinutes, WFold];
    FieldsThere(ms, words, []);
    assert Has(ms, words[1]) && Has(ms, words[2]) && Has(ms, words[3]);
    OffsetSpelt(Get(ms, WOffsetMinutes));
  }

  lemma MomentLeafSpelt(tag: Word, ms: seq<Member>)
    requires Tagged(ms, tag) && BuildLeaf(tag, ms).Some? && (tag == WTime || tag == WDatetime)
    ensures var fields := LeafFields(BuildLeaf(tag, ms).value);
      |fields| == 4 && forall i | 0 <= i < |fields| :: FillsField(ms, fields[i], [])
  {
    hide Tagged, FillsField, MomentOf, NullableInt, FoldForm, Tag, G.IsTimeOfDay, G.IsDatetime;
    MomentSpelt(ms);
    TagFills(ms, tag, []);
  }

  lemma LeafTagCases(tag: Word)
    requires tag in LEAF_TAGS
    ensures tag == WInt || tag == WPath || tag == WFloat || tag == WBytes || IsTextTag(tag) || tag == WTime || tag == WDatetime
            || tag == WNull || tag == WBool || tag == WStr
  {
  }

  lemma LeafFieldsFill(tag: Word, ms: seq<Member>)
    requires Tagged(ms, tag) && BuildLeaf(tag, ms).Some? && tag in LEAF_TAGS
    ensures var fields := LeafFields(BuildLeaf(tag, ms).value);
      |fields| == |L.LeafWords(tag)| && forall i | 0 <= i < |fields| :: FillsField(ms, fields[i], [])
  {
    hide LeafFields, Tagged, FillsField, BuildLeaf, LEAF_TAGS;
    LeafTagCases(tag);
    if tag == WInt {
      IntSpelt(ms);
    } else if tag == WPath {
      PathLeafSpelt(ms);
    } else if tag == WFloat || tag == WBytes {
      LongLeafSpelt(tag, ms);
    } else if IsTextTag(tag) {
      TextLeafSpelt(tag, ms);
    } else if tag == WTime || tag == WDatetime {
      MomentLeafSpelt(tag, ms);
    } else {
      ShortLeafSpelt(tag, ms);
    }
  }

  lemma LeafSpelt(tag: Word, ms: seq<Member>)
    requires Tagged(ms, tag) && BuildLeaf(tag, ms).Some? && DistinctKeys(ms)
    ensures Fills(JObject(ms), FObject(LeafFields(BuildLeaf(tag, ms).value)), [])
  {
    hide LeafFields, HasFields, Tagged, FillsField, BuildLeaf, L.LeafWords, Fills;
    LeafHasFields(tag, ms);
    LeafFieldsFill(tag, ms);
    ObjectFills(ms, L.LeafWords(tag), LeafFields(BuildLeaf(tag, ms).value), []);
  }

  lemma LeafHasFields(tag: Word, ms: seq<Member>)
    requires BuildLeaf(tag, ms).Some?
    ensures tag in LEAF_TAGS && HasFields(ms, L.LeafWords(tag), []) && DistinctList(L.LeafWords(tag))
  {
    hide Spell, HasFields, Find, IsRelativePath, Lookup, IntOf, Has, OffsetOf, FoldOf;
  }

  lemma ScalarIntForm(n: int)
    ensures IntForm(n).FNumber? || IntForm(n).FString?
  {
  }
}
