/** The builder undoes the encoder on leaves, and accepts nothing else. */
module DecodingLeaves {
  import opened Wrappers
  import opened Unicode
  import opened Json
  import opened Sorting
  import opened Words
  import opened Forms
  import V = Values
  import opened Encoding
  import opened Decoding
  import N = Numerals
  import G = LeafGrammar
  import Base64

  predicate FieldsCover(fields: seq<FormField>, allowed: seq<Word>, optional: seq<Word>) {
    DistinctWords(fields)
    && (forall i | 0 <= i < |fields| :: fields[i].word in allowed + optional)
    && forall w | w in allowed :: HasWord(fields, w)
  }

  predicate HasWord(fields: seq<FormField>, w: Word) {
    exists i | 0 <= i < |fields| :: fields[i].word == w
  }

  /** The members of a filled object, as the builder sees them. */
  lemma ObjectFields(fields: seq<FormField>, trees: seq<Json>, allowed: seq<Word>, optional: seq<Word>)
    requires FieldsCover(fields, allowed, optional)
    ensures Graft(FObject(fields), trees).JObject?
    ensures var ms := Graft(FObject(fields), trees).members;
      && HasFields(ms, allowed, optional)
      && (forall i | 0 <= i < |fields| ::
            Has(ms, fields[i].word) && Get(ms, fields[i].word) == Graft(fields[i].form, trees))
      && (forall w | Has(ms, w) :: HasWord(fields, w))
  {
    GraftedLookup(fields, trees);
    var j := Graft(FObject(fields), trees);
    assert j.JObject?;
    hide Spell, Graft, Find;
    var ms := j.members;
    forall i | 0 <= i < |ms| ensures Find(ms[i].key, allowed + optional).Some? {
      assert ms[i] in ms;
      var k :| 0 <= k < |fields| && ms[i].key == Spell(fields[k].word);
      FindSound(ms[i].key, allowed + optional, fields[k].word);
    }
    forall w | Has(ms, w) ensures HasWord(fields, w) {
      LookupSound(ms, Spell(w));
      var m := Member(Spell(w), Lookup(ms, Spell(w)).value);
      assert m in ms;
      var k :| 0 <= k < |fields| && m.key == Spell(fields[k].word);
      SpellInjective(w, fields[k].word);
    }
    forall w | w in allowed ensures Has(ms, w) {
      assert HasWord(fields, w);
      var k :| 0 <= k < |fields| && fields[k].word == w;
      assert Lookup(ms, Spell(fields[k].word)).Some?;
    }
  }

  lemma TagFound(ms: seq<Member>, tag: Word)
    requires Has(ms, WTag) && Get(ms, WTag) == JString(Spell(tag)) && tag in LEAF_TAGS + NODE_TAGS
    ensures TagOf(JObject(ms)) == Some(tag)
  {
    hide Spell, Find;
    FindSound(Spell(tag), LEAF_TAGS + NODE_TAGS, tag);
  }

  // ---- integers --------------------------------------------------------------------------

  /** Reading back the written form, and only it. */
  lemma IntFormReads(n: int)
    ensures IntOf(Graft(IntForm(n), [])) == Some(n)
  {
    N.DecimalReads(n);
  }

  lemma IntFormUnique(j: Json)
    requires IntOf(j).Some?
    ensures j == Graft(IntForm(IntOf(j).value), [])
  {
    match j
    case JNumber(raw) => N.DecimalUnique(raw);
    case JString(t) => N.DecimalUnique(t);
  }

  // ---- leaves ------------------------------------------------------------------------------

  function LeafTag(l: V.Leaf): Word {
    match l
    case LNull => WNull
    case LBool(_) => WBool
    case LInt(_) => WInt
    case LFloat(_, _) => WFloat
    case LStr(_) => WStr
    case LBytes(_) => WBytes
    case LPath(_, _) => WPath
    case LDecimal(_) => WDecimal
    case LDate(_) => WDate
    case LUuid(_) => WUuid
    case LTime(_, _, _) => WTime
    case LDatetime(_, _, _) => WDatetime
  }

  function LeafWords(tag: Word): seq<Word> {
    match tag
    case WNull => [WTag]
    case WFloat => [WTag, WValue, WNegativeZero]
    case WBytes => [WTag, WEncoding, WValue]
    case WPath => [WTag, WValue, WFlavor]
    case WTime => [WTag, WValue, WOffsetMinutes, WFold]
    case WDatetime => [WTag, WValue, WOffsetMinutes, WFold]
    case _ => [WTag, WValue]
  }

  /** Leaves of a tag and a value only. */
  predicate IsPlain(l: V.Leaf) {
    l.LBool? || l.LInt? || l.LStr? || l.LDecimal? || l.LDate? || l.LUuid?
  }

  predicate IsMoment(l: V.Leaf) {
    l.LTime? || l.LDatetime?
  }

  /** Where the tag stands among the fields; the value follows it. */
  function TagAt(l: V.Leaf): nat {
    if l.LNull? || IsPlain(l) then 0 else if IsMoment(l) then 2 else 1
  }

  lemma LeafCovers(l: V.Leaf)
    ensures FieldsCover(LeafFields(l), LeafWords(LeafTag(l)), [])
  {
    hide FieldsCover;
    if l.LNull? || IsPlain(l) {
      PlainCovers(l);
    } else if IsMoment(l) {
      MomentCovers(l);
    } else {
      FlaggedCovers(l);
    }
  }

  lemma PlainCovers(l: V.Leaf)
    requires l.LNull? || IsPlain(l)
    ensures FieldsCover(LeafFields(l), LeafWords(LeafTag(l)), [])
  {
    hide Spell, IntForm;
    var fields := LeafFields(l);
    assert fields[0].word == WTag;
    assert !l.LNull? ==> fields[1].word == WValue;
  }

  lemma FlaggedCovers(l: V.Leaf)
    requires l.LFloat? || l.LBytes? || l.LPath?
    ensures FieldsCover(LeafFields(l), LeafWords(LeafTag(l)), [])
  {
    hide Spell;
    var fields := LeafFields(l);
    assert fields[1].word == WTag && fields[2].word == WValue;
    assert fields[0].word == LeafWords(LeafTag(l))[if l.LBytes? then 1 else 2];
  }

  lemma MomentCovers(l: V.Leaf)
    requires IsMoment(l)
    ensures FieldsCover(LeafFields(l), LeafWords(LeafTag(l)), [])
  {
    hide Spell, NullableInt, FoldForm;
    var fields, words := LeafFields(l), LeafWords(LeafTag(l));
    assert fields[0].word == WFold == words[3] && fields[1].word == WOffsetMinutes == words[2];
    assert fields[2].word == WTag && fields[3].word == WValue;
  }

  predicate Holds(ms: seq<Member>, field: FormField) {
    Has(ms, field.word) && Get(ms, field.word) == Graft(field.form, [])
  }

  lemma LeafFieldsRead(l: V.Leaf)
    ensures var j := Graft(FObject(LeafFields(l)), []);
      && j.JObject? && TagOf(j) == Some(LeafTag(l)) && HasFields(j.members, LeafWords(LeafTag(l)), [])
      && forall i | 0 <= i < |LeafFields(l)| :: Holds(j.members, LeafFields(l)[i])
  {
    hide Spell, HasFields, FieldsCover, LeafFields, LeafWords, Has, Get, TagOf, Tag, LeafTag, Graft;
    var fields := LeafFields(l);
    LeafCovers(l);
    ObjectFields(fields, [], LeafWords(LeafTag(l)), []);
    var ms := Graft(FObject(fields), []).members;
    forall i | 0 <= i < |fields| ensures Holds(ms, fields[i]) {
    }
    LeafTagStands(l);
    assert Holds(ms, fields[TagAt(l)]);
    TagHolds(ms, LeafTag(l));
    TagFound(ms, LeafTag(l));
  }

  lemma LeafTagStands(l: V.Leaf)
    ensures TagAt(l) < |LeafFields(l)| && LeafFields(l)[TagAt(l)] == Tag(LeafTag(l))
    ensures LeafTag(l) in LEAF_TAGS + NODE_TAGS
  {
    hide Spell, IntForm, NullableInt, FoldForm;
  }

  lemma TagHolds(ms: seq<Member>, tag: Word)
    requires Holds(ms, Tag(tag))
    ensures Has(ms, WTag) && Get(ms, WTag) == JString(Spell(tag))
  {
    hide Spell;
  }

  lemma PathFlavor(windows: bool)
    ensures var flavor := if windows then WWindows else WPosix;
      Find(Spell(flavor), [WPosix, WWindows]) == Some(flavor)
  {
    var flavor := if windows then WWindows else WPosix;
    FindSound(Spell(flavor), [WPosix, WWindows], flavor);
  }

  lemma OffsetReads(offset: Option<int>)
    requires offset.Some? ==> G.IsOffset(offset.value)
    ensures OffsetOf(Graft(NullableInt(offset), [])) == Some(offset)
  {
    if offset.Some? {
      N.DecimalReads(offset.value);
    }
  }

  lemma FoldReads(fold: bool)
    ensures FoldOf(Graft(FoldForm(fold), [])) == Some(fold)
  {
    assert U("0")[0] != U("1")[0];
  }

  /** The members of a `time` or `datetime` are read back. */
  lemma MomentReads(ms: seq<Member>, t: Text, offset: Option<int>, fold: bool)
    requires HasFields(ms, [WTag, WValue, WOffsetMinutes, WFold], []) && (offset.Some? ==> G.IsOffset(offset.value))
    requires Holds(ms, FormField(WFold, FoldForm(fold))) && Holds(ms, FormField(WOffsetMinutes, NullableInt(offset)))
    requires Holds(ms, FormField(WValue, FString(t)))
    ensures MomentOf(ms) == Some((t, offset, fold))
  {
    hide Spell, HasFields, NullableInt, FoldForm, OffsetOf, FoldOf, Lookup;
    OffsetReads(offset);
    FoldReads(fold);
  }

  lemma LeafFromFields(l: V.Leaf, ms: seq<Member>)
    requires LegalLeaf(l) && HasFields(ms, LeafWords(LeafTag(l)), [])
    requires forall i | 0 <= i < |LeafFields(l)| :: Holds(ms, LeafFields(l)[i])
    ensures BuildLeaf(LeafTag(l), ms) == Some(l)
  {
    hide Holds, HasFields, BuildLeaf, LegalLeaf, IntForm, FoldForm, NullableInt, Spell;
    var fields := LeafFields(l);
    if l.LNull? {
      PlainFromFields(l, ms);
    } else if IsPlain(l) {
      assert Holds(ms, fields[1]);
      PlainFromFields(l, ms);
    } else {
      assert Holds(ms, fields[0]) && Holds(ms, fields[TagAt(l) + 1]);
      if IsMoment(l) {
        assert Holds(ms, fields[1]);
        MomentFromFields(l, ms);
      } else {
        FlaggedFromFields(l, ms);
      }
    }
  }

  lemma PlainFromFields(l: V.Leaf, ms: seq<Member>)
    requires (l.LNull? || IsPlain(l)) && LegalLeaf(l) && HasFields(ms, LeafWords(LeafTag(l)), [])
    requires IsPlain(l) ==> Holds(ms, LeafFields(l)[1])
    ensures BuildLeaf(LeafTag(l), ms) == Some(l)
  {
    hide Spell, HasFields, IntForm, IntOf, Lookup, G.IsDecimalLiteral, G.IsDate, G.IsUuid;
    if l.LInt? {
      IntFormReads(l.n);
      assert Graft(LeafFields(l)[1].form, []) == Graft(IntForm(l.n), []);
    }
  }

  lemma FlaggedFromFields(l: V.Leaf, ms: seq<Member>)
    requires (l.LFloat? || l.LBytes? || l.LPath?) && LegalLeaf(l) && HasFields(ms, LeafWords(LeafTag(l)), [])
    requires Holds(ms, LeafFields(l)[0]) && Holds(ms, LeafFields(l)[2])
    ensures BuildLeaf(LeafTag(l), ms) == Some(l)
  {
    hide Spell, N.IsCanonicalFloat, IsRelativePath, HasFields, Find, Lookup, Base64.Decode;
    if l.LPath? {
      PathFlavor(l.windows);
    }
  }

  lemma MomentFromFields(l: V.Leaf, ms: seq<Member>)
    requires IsMoment(l) && LegalLeaf(l) && HasFields(ms, LeafWords(LeafTag(l)), [])
    requires Holds(ms, LeafFields(l)[0]) && Holds(ms, LeafFields(l)[1]) && Holds(ms, LeafFields(l)[3])
    ensures BuildLeaf(LeafTag(l), ms) == Some(l)
  {
    hide Spell, HasFields, NullableInt, FoldForm, Holds, MomentOf, G.IsTimeOfDay, G.IsDatetime;
    MomentReads(ms, l.text, if l.LTime? then l.offset else Some(l.minutes), l.fold);
  }

  /** A written leaf is read back. */
  lemma LeafReads(l: V.Leaf)
    requires LegalLeaf(l)
    ensures var j := Graft(FObject(LeafFields(l)), []);
      j.JObject? && TagOf(j) == Some(LeafTag(l)) && BuildLeaf(LeafTag(l), j.members) == Some(l)
  {
    LeafFieldsRead(l);
    hide LegalLeaf, Graft, HasFields, BuildLeaf;
    LeafFromFields(l, Graft(FObject(LeafFields(l)), []).members);
  }

  lemma LeafSoundly(tag: Word, ms: seq<Member>)
    requires BuildLeaf(tag, ms).Some?
    ensures LegalLeaf(BuildLeaf(tag, ms).value)
  {
    hide Spell, N.IsCanonicalFloat, IsRelativePath, HasFields, G.IsDecimalLiteral, G.IsDate, G.IsUuid, G.IsTimeOfDay,
         G.IsDatetime;
  }
}
