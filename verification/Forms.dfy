/**
 JSON with numbered holes for the sub-values. The encoder fills the holes with
 encoded text; the same form filled with JSON trees is what the parser will see.
 */
module Forms {
  import opened Wrappers
  import opened Unicode
  import opened Json
  import opened JsonPrinter
  import opened Sorting
  import opened Words

  datatype Form =
    | FNull
    | FBool(bit: bool)
    | FNumber(raw: Text)
    | FString(text: Text)
    | Hole(index: nat)
    | FArray(items: seq<Form>)
    | FObject(fields: seq<FormField>)

  datatype FormField = FormField(word: Word, form: Form)

  /** A `[key, value]` pair before sorting. */
  datatype Slot<+T> = Slot(word: Word, content: T)

  // ---- the encoder's side: text ------------------------------------------------------

  function PairTexts(pairs: seq<Keyed<Slot<Text>>>): (r: seq<Text>)
    ensures |r| == |pairs|
  {
    if pairs == [] then []
    else [PairText(Spell(pairs[0].item.word), pairs[0].item.content)] + PairTexts(pairs[1..])
  }

  /** `obj`: pairs emitted in UTF-8 order of their keys. */
  function Obj(pairs: seq<Keyed<Slot<Text>>>): Text {
    ObjectText(PairTexts(Sort(pairs)))
  }

  function Fill(f: Form, texts: seq<Text>): Text
    decreases f, 1
  {
    match f
    case FNull => U("null")
    case FBool(b) => if b then U("true") else U("false")
    case FNumber(raw) => raw
    case FString(t) => JsonString(t)
    case Hole(i) => if i < |texts| then texts[i] else U("null")
    case FArray(items) => ArrayText(FillItems(items, texts))
    case FObject(fields) => Obj(FillFields(fields, texts))
  }

  function FillItems(items: seq<Form>, texts: seq<Text>): (r: seq<Text>)
    ensures |r| == |items|
    decreases items, 0
  {
    if items == [] then [] else [Fill(items[0], texts)] + FillItems(items[1..], texts)
  }

  function FillFields(fields: seq<FormField>, texts: seq<Text>): (r: seq<Keyed<Slot<Text>>>)
    ensures |r| == |fields|
    decreases fields, 0
  {
    if fields == [] then []
    else [FillField(fields[0], texts)] + FillFields(fields[1..], texts)
  }

  function FillField(field: FormField, texts: seq<Text>): Keyed<Slot<Text>>
    decreases field, 0
  {
    assert field.form < field;
    Keyed(Rank(field.word), Slot(field.word, Fill(field.form, texts)))
  }

  // ---- the parser's side: trees --------------------------------------------------------

  function MembersOf(pairs: seq<Keyed<Slot<Json>>>): (r: seq<Member>)
    ensures |r| == |pairs|
    ensures forall i | 0 <= i < |pairs| :: r[i] == Member(Spell(pairs[i].item.word), pairs[i].item.content)
  {
    seq(|pairs|, i requires 0 <= i < |pairs| => Member(Spell(pairs[i].item.word), pairs[i].item.content))
  }

  function Graft(f: Form, trees: seq<Json>): Json
    decreases f, 1
  {
    match f
    case FNull => JNull
    case FBool(b) => JBool(b)
    case FNumber(raw) => JNumber(raw)
    case FString(t) => JString(t)
    case Hole(i) => if i < |trees| then trees[i] else JNull
    case FArray(items) => JArray(GraftItems(items, trees))
    case FObject(fields) => JObject(MembersOf(Sort(GraftFields(fields, trees))))
  }

  function GraftItems(items: seq<Form>, trees: seq<Json>): (r: seq<Json>)
    ensures |r| == |items|
    ensures forall i | 0 <= i < |items| :: r[i] == Graft(items[i], trees)
    decreases items, 0
  {
    if items == [] then [] else [Graft(items[0], trees)] + GraftItems(items[1..], trees)
  }

  function GraftFields(fields: seq<FormField>, trees: seq<Json>): (r: seq<Keyed<Slot<Json>>>)
    ensures |r| == |fields|
    ensures forall i | 0 <= i < |fields| :: r[i] == GraftField(fields[i], trees)
    decreases fields, 0
  {
    if fields == [] then []
    else [GraftField(fields[0], trees)] + GraftFields(fields[1..], trees)
  }

  function GraftField(field: FormField, trees: seq<Json>): Keyed<Slot<Json>>
    decreases field, 0
  {
    assert field.form < field;
    Keyed(Rank(field.word), Slot(field.word, Graft(field.form, trees)))
  }

  // ---- the two sides agree ---------------------------------------------------------------

  function PrintSlot(s: Slot<Json>): Slot<Text> {
    Slot(s.word, Print(s.content))
  }

  lemma {:induction false} PrintMembersOf(pairs: seq<Keyed<Slot<Json>>>)
    ensures PrintMembers(MembersOf(pairs)) == PairTexts(Relabel(PrintSlot, pairs))
  {
    if pairs != [] {
      PrintMembersOf(pairs[1..]);
      assert MembersOf(pairs)[1..] == MembersOf(pairs[1..]);
      assert Relabel(PrintSlot, pairs)[1..] == Relabel(PrintSlot, pairs[1..]);
    }
  }

  /** Filling with text is printing the tree filled with trees. */
  lemma {:induction false} FillIsPrint(f: Form, trees: seq<Json>)
    ensures Fill(f, PrintItems(trees)) == Print(Graft(f, trees))
    decreases f, 1
  {
    match f
    case Hole(i) => PrintItemsAt(trees);
    case FArray(items) => FillItemsIsPrint(items, trees);
    case FObject(fields) =>
      hide PairText, Sort, Fill;
      var pairs := GraftFields(fields, trees);
      FillFieldsIsPrint(fields, trees);
      SortRelabel(PrintSlot, pairs);
      PrintMembersOf(Sort(pairs));
      assert Fill(f, PrintItems(trees)) == Obj(FillFields(fields, PrintItems(trees))) by { FillObject(fields, PrintItems(trees)); }
    case _ =>
  }

  lemma FillObject(fields: seq<FormField>, texts: seq<Text>)
    ensures Fill(FObject(fields), texts) == Obj(FillFields(fields, texts))
  {
  }

  lemma {:induction false} PrintItemsAt(trees: seq<Json>)
    ensures forall i | 0 <= i < |trees| :: PrintItems(trees)[i] == Print(trees[i])
  {
    if trees != [] {
      PrintItemsAt(trees[1..]);
    }
  }

  lemma {:induction false} FillItemsIsPrint(items: seq<Form>, trees: seq<Json>)
    ensures FillItems(items, PrintItems(trees)) == PrintItems(GraftItems(items, trees))
    decreases items, 0
  {
    if items != [] {
      FillIsPrint(items[0], trees);
      FillItemsIsPrint(items[1..], trees);
      assert GraftItems(items, trees)[1..] == GraftItems(items[1..], trees);
    }
  }

  lemma {:induction false} FillFieldsIsPrint(fields: seq<FormField>, trees: seq<Json>)
    ensures FillFields(fields, PrintItems(trees)) == Relabel(PrintSlot, GraftFields(fields, trees))
    decreases fields, 0
  {
    if fields != [] {
      assert fields[0].form < fields[0];
      FillIsPrint(fields[0].form, trees);
      FillFieldsIsPrint(fields[1..], trees);
      assert GraftFields(fields, trees)[1..] == GraftFields(fields[1..], trees);
      assert Relabel(PrintSlot, GraftFields(fields, trees))[1..] == Relabel(PrintSlot, GraftFields(fields[1..], trees));
    }
  }

  // ---- looking members up -------------------------------------------------------------------

  /** `members.get(key)` */
  function Lookup(ms: seq<Member>, key: Text): Option<Json> {
    if ms == [] then None
    else if ms[0].key == key then Some(ms[0].value)
    else Lookup(ms[1..], key)
  }

  lemma {:induction false} LookupSound(ms: seq<Member>, key: Text)
    ensures Lookup(ms, key).Some? ==> Member(key, Lookup(ms, key).value) in ms
    ensures Lookup(ms, key).None? <==> forall i | 0 <= i < |ms| :: ms[i].key != key
  {
    if ms != [] {
      LookupSound(ms[1..], key);
      if ms[0].key == key {
        assert ms[0] == Member(key, ms[0].value);
      }
      assert forall i | 0 < i < |ms| :: ms[i] == ms[1..][i - 1];
    }
  }

  lemma {:induction false} LookupAt(ms: seq<Member>, i: nat)
    requires i < |ms| && DistinctKeys(ms)
    ensures Lookup(ms, ms[i].key) == Some(ms[i].value)
  {
    if i > 0 {
      LookupAt(ms[1..], i - 1);
    }
  }

  predicate DistinctWords(fields: seq<FormField>) {
    forall i, j | 0 <= i < j < |fields| :: fields[i].word != fields[j].word
  }

  function FieldMember(field: FormField, trees: seq<Json>): Member {
    Member(Spell(field.word), Graft(field.form, trees))
  }

  lemma FieldsDistinct(fields: seq<FormField>, trees: seq<Json>)
    requires DistinctWords(fields)
    ensures Distinct(GraftFields(fields, trees))
  {
    hide Spell, Rank, Graft;
    var pairs := GraftFields(fields, trees);
    forall i, j | 0 <= i < j < |pairs| ensures pairs[i].key != pairs[j].key {
      if pairs[i].key == pairs[j].key {
        RankInjective(fields[i].word, fields[j].word);
      }
    }
  }

  lemma InSorted<T>(ks: seq<Keyed<T>>, k: Keyed<T>)
    ensures k in Sort(ks) <==> k in ks
  {
    SortKeeps(ks);
    assert k in Sort(ks) <==> k in multiset(Sort(ks));
  }

  /** A filled object has each field's member and no other. */
  lemma GraftedMembers(fields: seq<FormField>, trees: seq<Json>)
    ensures var ms := Graft(FObject(fields), trees).members;
      && |ms| == |fields|
      && (forall i | 0 <= i < |fields| :: FieldMember(fields[i], trees) in ms)
      && (forall m | m in ms :: exists i | 0 <= i < |fields| :: m == FieldMember(fields[i], trees))
  {
    hide Spell, Rank, Sort;
    var pairs := GraftFields(fields, trees);
    var sorted := Sort(pairs);
    var ms := MembersOf(sorted);
    SortKeeps(pairs);
    forall i | 0 <= i < |fields| ensures FieldMember(fields[i], trees) in ms {
      InSorted(pairs, pairs[i]);
      var k :| 0 <= k < |sorted| && sorted[k] == pairs[i];
      assert ms[k] == FieldMember(fields[i], trees);
    }
    forall m | m in ms ensures exists i | 0 <= i < |fields| :: m == FieldMember(fields[i], trees) {
      var k :| 0 <= k < |ms| && ms[k] == m;
      InSorted(pairs, sorted[k]);
      var i :| 0 <= i < |pairs| && pairs[i] == sorted[k];
    }
  }

  /** Its keys are in strict UTF-8 order. */
  lemma GraftedOrder(fields: seq<FormField>, trees: seq<Json>)
    requires DistinctWords(fields)
    ensures var ms := Graft(FObject(fields), trees).members;
      DistinctKeys(ms) && forall i, j | 0 <= i < j < |ms| :: TextLess(ms[i].key, ms[j].key)
  {
    hide Spell, Rank, Sort, EncodeUtf8;
    var pairs := GraftFields(fields, trees);
    var sorted := Sort(pairs);
    FieldsDistinct(fields, trees);
    SortedStrictIffDistinct(pairs);
    var ms := MembersOf(sorted);
    forall k | 0 <= k < |ms| ensures sorted[k].key == EncodeUtf8(ms[k].key) {
      InSorted(pairs, sorted[k]);
      var i :| 0 <= i < |pairs| && pairs[i] == sorted[k];
      RankIs(fields[i].word);
    }
    forall i, j | 0 <= i < j < |ms| ensures TextLess(ms[i].key, ms[j].key) && ms[i].key != ms[j].key {
      assert Less(sorted[i].key, sorted[j].key);
      LessTrichotomy(EncodeUtf8(ms[i].key), EncodeUtf8(ms[j].key));
    }
  }

  lemma RankIs(w: Word)
    ensures Rank(w) == EncodeUtf8(Spell(w))
  {
  }

  /** So reading a field of a filled object finds what was put there. */
  lemma GraftedLookup(fields: seq<FormField>, trees: seq<Json>)
    requires DistinctWords(fields)
    ensures var ms := Graft(FObject(fields), trees).members;
      && DistinctKeys(ms)
      && (forall i | 0 <= i < |fields| :: Lookup(ms, Spell(fields[i].word)) == Some(Graft(fields[i].form, trees)))
      && (forall m | m in ms :: exists i | 0 <= i < |fields| :: m.key == Spell(fields[i].word))
  {
    GraftedMembers(fields, trees);
    GraftedOrder(fields, trees);
    hide Spell, Graft, TextLess;
    var ms := Graft(FObject(fields), trees).members;
    forall i | 0 <= i < |fields| ensures Lookup(ms, Spell(fields[i].word)) == Some(Graft(fields[i].form, trees)) {
      var m := FieldMember(fields[i], trees);
      var k :| 0 <= k < |ms| && ms[k] == m;
      LookupAt(ms, k);
    }
  }
}
