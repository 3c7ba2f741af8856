/** The builder opens exactly the nodes the encoder closes. */
module DecodingNodes {
  import opened Wrappers
  import opened Unicode
  import opened Json
  import opened Words
  import opened Forms
  import V = Values
  import opened Encoding
  import opened Decoding
  import opened DecodingLeaves
  import N = Numerals

  /** Identity strings the decoder, but not the encoder, requires to be non-empty. */
  predicate Named(s: V.Shape) {
    match s
    case SEnum(name, member) => name != [] && member != []
    case SRecord(_, name, _) => name != []
    case SException(name, _, _) => name != []
    case SClassTrace(name, _, operations) =>
      name != [] && forall i | 0 <= i < |operations| :: operations[i].name != []
    case _ => true
  }

  predicate Objects(js: seq<Json>) {
    forall i | 0 <= i < |js| :: js[i].JObject?
  }

  predicate HoldsAll(ms: seq<Member>, fields: seq<FormField>, js: seq<Json>) {
    forall i | 0 <= i < |fields| :: Held(ms, fields[i], js)
  }

  predicate Held(ms: seq<Member>, field: FormField, js: seq<Json>) {
    Has(ms, field.word) && Get(ms, field.word) == Graft(field.form, js)
  }

  lemma ObjectHolds(fields: seq<FormField>, js: seq<Json>, allowed: seq<Word>, optional: seq<Word>)
    requires FieldsCover(fields, allowed, optional)
    ensures var j := Graft(FObject(fields), js);
      && j.JObject? && HasFields(j.members, allowed, optional) && HoldsAll(j.members, fields, js)
      && forall w | Has(j.members, w) :: HasWord(fields, w)
  {
    ObjectFields(fields, js, allowed, optional);
    hide FieldsCover, Graft, HasFields, Spell;
    var ms := Graft(FObject(fields), js).members;
    forall i | 0 <= i < |fields| ensures Held(ms, fields[i], js) {
    }
  }

  lemma HolesGraft(from: nat, n: nat, js: seq<Json>)
    requires from + n <= |js|
    ensures GraftItems(Holes(from, n), js) == js[from..from + n]
  {
    hide GraftItems, Holes;
    var r := GraftItems(Holes(from, n), js);
    forall i | 0 <= i < n ensures r[i] == js[from + i] {
      HoleGraft(from + i, js);
      assert r[i] == Graft(Holes(from, n)[i], js);
    }
    assert |r| == |js[from..from + n]|;
  }

  lemma HoleGraft(i: nat, js: seq<Json>)
    requires i < |js|
    ensures Graft(Hole(i), js) == js[i]
  {
  }

  // ---- dict entries --------------------------------------------------------------------------

  lemma HeldIn(ms: seq<Member>, fields: seq<FormField>, js: seq<Json>, field: FormField)
    requires HoldsAll(ms, fields, js) && field in fields
    ensures Held(ms, field, js)
  {
    hide Held;
    var i :| 0 <= i < |fields| && fields[i] == field;
    assert Held(ms, fields[i], js);
  }

  lemma HoleHeld(ms: seq<Member>, w: Word, i: nat, js: seq<Json>)
    requires Held(ms, FormField(w, Hole(i)), js) && i < |js|
    ensures Has(ms, w) && Get(ms, w) == js[i]
  {
    hide Lookup, Spell;
  }

  lemma TextHeld(ms: seq<Member>, w: Word, t: Text, js: seq<Json>)
    requires Held(ms, FormField(w, FString(t)), js)
    ensures Has(ms, w) && Get(ms, w) == JString(t)
  {
    hide Lookup, Spell;
  }

  lemma EntryCovers(i: nat)
    ensures var fields := EntryForm(i).fields;
      && FieldsCover(fields, [WKey, WValue], []) && EntryForm(i) == FObject(fields)
      && FormField(WKey, Hole(2 * i)) in fields && FormField(WValue, Hole(2 * i + 1)) in fields
  {
    var fields := EntryForm(i).fields;
    assert fields[0].word == WKey && fields[1].word == WValue;
  }

  lemma EntryReads(i: nat, js: seq<Json>)
    requires 2 * i + 1 < |js|
    ensures var j := Graft(EntryForm(i), js);
      IsEntry(j) && EntryPart(j, WKey) == js[2 * i] && EntryPart(j, WValue) == js[2 * i + 1]
  {
    hide Graft, FieldsCover, EntryForm, HoldsAll, HasFields, Held, Get, Has;
    EntryCovers(i);
    var fields := EntryForm(i).fields;
    ObjectHolds(fields, js, [WKey, WValue], []);
    var ms := Graft(FObject(fields), js).members;
    HeldIn(ms, fields, js, FormField(WKey, Hole(2 * i)));
    HeldIn(ms, fields, js, FormField(WValue, Hole(2 * i + 1)));
    HoleHeld(ms, WKey, 2 * i, js);
    HoleHeld(ms, WValue, 2 * i + 1, js);
  }

  predicate EntryIs(j: Json, key: Json, value: Json) {
    IsEntry(j) && EntryPart(j, WKey) == key && EntryPart(j, WValue) == value
  }

  lemma EntryPartsStep(first: Json, rest: seq<Json>, key: Json, value: Json)
    requires EntryIs(first, key, value) && forall i | 0 <= i < |rest| :: IsEntry(rest[i])
    ensures forall i | 0 <= i < |rest| + 1 :: IsEntry(([first] + rest)[i])
    ensures EntryParts([first] + rest) == [key, value] + EntryParts(rest)
  {
    hide IsEntry, EntryPart;
    assert ([first] + rest)[1..] == rest;
  }

  predicate EntriesAre(items: seq<Json>, js: seq<Json>) {
    |js| == 2 * |items| && forall i | 0 <= i < |items| :: EntryIs(items[i], js[2 * i], js[2 * i + 1])
  }

  lemma EntryAt(items: seq<Json>, js: seq<Json>, k: nat)
    requires EntriesAre(items, js) && k < |items|
    ensures EntryIs(items[k], js[2 * k], js[2 * k + 1])
  {
  }

  lemma {:induction false} EntryPartsAre(items: seq<Json>, js: seq<Json>, k: nat)
    requires EntriesAre(items, js) && k <= |items|
    ensures forall i | 0 <= i < |items[k..]| :: IsEntry(items[k..][i])
    ensures EntryParts(items[k..]) == js[2 * k..]
    decreases |items| - k
  {
    EntryLengths(items, js);
    hide EntriesAre, EntryIs, IsEntry;
    if k < |items| {
      EntryAt(items, js, k);
      EntryPartsAre(items, js, k + 1);
      EntryPartsStep(items[k], items[k + 1..], js[2 * k], js[2 * k + 1]);
      hide EntryParts;
      assert items[k..] == [items[k]] + items[k + 1..];
      assert js[2 * k..] == [js[2 * k], js[2 * k + 1]] + js[2 * k + 2..];
    }
  }

  lemma EntryLengths(items: seq<Json>, js: seq<Json>)
    requires EntriesAre(items, js)
    ensures |js| == 2 * |items|
  {
  }

  lemma EntriesRead(n: nat, js: seq<Json>)
    requires |js| == 2 * n
    ensures var items := GraftItems(EntryForms(n), js);
      (forall i | 0 <= i < |items| :: IsEntry(items[i])) && EntryParts(items) == js
  {
    hide IsEntry, EntryPart, EntryForm, Graft;
    var items := GraftItems(EntryForms(n), js);
    forall i | 0 <= i < |items| ensures EntryIs(items[i], js[2 * i], js[2 * i + 1]) {
      EntryReads(i, js);
    }
    EntryPartsAre(items, js, 0);
    assert items[0..] == items && js[2 * 0..] == js;
  }

  // ---- record fields --------------------------------------------------------------------------

  lemma RecordFieldCovers(name: Text, i: nat)
    ensures var fields := RecordFieldForm(name, i).fields;
      && FieldsCover(fields, [WName, WValue], []) && RecordFieldForm(name, i) == FObject(fields)
      && FormField(WName, FString(name)) in fields && FormField(WValue, Hole(i)) in fields
  {
    var fields := RecordFieldForm(name, i).fields;
    assert fields[0].word == WName && fields[1].word == WValue;
  }

  lemma RecordFieldReads(name: Text, i: nat, js: seq<Json>)
    requires i < |js| && WellFormed(name)
    ensures var j := Graft(RecordFieldForm(name, i), js);
      IsRecordField(j) && FieldName(j) == name && FieldPart(j) == js[i]
  {
    hide Graft, FieldsCover, RecordFieldForm, HoldsAll, HasFields, Held, Get, Has;
    RecordFieldCovers(name, i);
    var fields := RecordFieldForm(name, i).fields;
    ObjectHolds(fields, js, [WName, WValue], []);
    var ms := Graft(FObject(fields), js).members;
    HeldIn(ms, fields, js, FormField(WName, FString(name)));
    HeldIn(ms, fields, js, FormField(WValue, Hole(i)));
    TextHeld(ms, WName, name, js);
    HoleHeld(ms, WValue, i, js);
  }

  lemma RecordFieldsRead(names: seq<Text>, js: seq<Json>)
    requires |js| == |names| && AllWellFormed(names)
    ensures var items := GraftItems(RecordFieldForms(names), js);
      (forall i | 0 <= i < |items| :: IsRecordField(items[i])) && FieldNames(items) == names && FieldParts(items) == js
  {
    hide IsRecordField, FieldName, FieldPart, RecordFieldForm, Graft;
    var items := GraftItems(RecordFieldForms(names), js);
    forall i | 0 <= i < |items|
      ensures IsRecordField(items[i]) && FieldName(items[i]) == names[i] && FieldPart(items[i]) == js[i]
    {
      RecordFieldReads(names[i], i, js);
    }
  }

  // ---- tree slots ------------------------------------------------------------------------------

  lemma SlotStep(first: Json, rest: seq<Json>)
    ensures PresentOf([first] + rest) == [!first.JNull?] + PresentOf(rest)
    ensures SlotParts([first] + rest) == (if first.JNull? then [] else [first]) + SlotParts(rest)
  {
    assert ([first] + rest)[1..] == rest;
  }

  lemma SlotFormsStep(present: seq<bool>, from: nat, js: seq<Json>)
    requires from + V.Present(present) <= |js| && present != []
    ensures GraftItems(SlotForms(present, from), js) ==
            [if present[0] then js[from] else JNull]
            + GraftItems(SlotForms(present[1..], if present[0] then from + 1 else from), js)
  {
  }

  lemma NoSlots(from: nat, js: seq<Json>)
    ensures GraftItems(SlotForms([], from), js) == [] && PresentOf([]) == [] && SlotParts([]) == []
  {
  }

  lemma {:induction false} SlotsRead(present: seq<bool>, from: nat, js: seq<Json>)
    requires from + V.Present(present) <= |js| && Objects(js)
    ensures var items := GraftItems(SlotForms(present, from), js);
      PresentOf(items) == present && SlotParts(items) == js[from..from + V.Present(present)]
  {
    hide GraftItems, SlotForms, PresentOf, SlotParts;
    if present == [] {
      NoSlots(from, js);
    } else {
      SlotsRead(present[1..], if present[0] then from + 1 else from, js);
      SlotsStep(present, from, js);
    }
  }

  lemma SlotsStep(present: seq<bool>, from: nat, js: seq<Json>)
    requires present != [] && from + V.Present(present) <= |js| && Objects(js)
    requires var next := if present[0] then from + 1 else from;
      var items := GraftItems(SlotForms(present[1..], next), js);
      PresentOf(items) == present[1..] && SlotParts(items) == js[next..next + V.Present(present[1..])]
    ensures var items := GraftItems(SlotForms(present, from), js);
      PresentOf(items) == present && SlotParts(items) == js[from..from + V.Present(present)]
  {
    hide GraftItems, SlotForms, PresentOf, SlotParts, Objects;
    SlotFormsStep(present, from, js);
    if present[0] {
      PartsAhead(js, from, V.Present(present[1..]));
      SlotStep(js[from], GraftItems(SlotForms(present[1..], from + 1), js));
    } else {
      SlotStep(JNull, GraftItems(SlotForms(present[1..], from), js));
    }
    assert present == [present[0]] + present[1..];
  }

  lemma PartsAhead(js: seq<Json>, from: nat, n: nat)
    requires from + 1 + n <= |js| && Objects(js)
    ensures js[from].JObject? && js[from..from + (1 + n)] == [js[from]] + js[from + 1..from + 1 + n]
  {
  }

  // ---- class-trace operations --------------------------------------------------------------------

  lemma OperationFromFields(o: V.Operation, ms: seq<Member>, args: seq<Json>, expected: Json)
    requires HasFields(ms, [WMethod, WArgs], [WExpected]) && WellFormed(o.name) && |args| == o.arguments
    requires Has(ms, WArgs) && Get(ms, WArgs) == JArray(args)
    requires Has(ms, WMethod) && Get(ms, WMethod) == JString(o.name)
    requires Has(ms, WExpected) <==> o.expects
    requires o.expects ==> Get(ms, WExpected) == expected
    ensures var j := JObject(ms);
      && (IsOperation(j) <==> o.name != [])
      && (IsOperation(j) ==> OperationOf(j) == o && OperationParts(j) == args + if o.expects then [expected] else [])
  {
    hide Spell, Lookup, HasFields, Has;
  }

  lemma OperationCovers(o: V.Operation, from: nat)
    ensures var fields := OperationForm(o, from).fields;
      && FieldsCover(fields, [WMethod, WArgs], [WExpected]) && (HasWord(fields, WExpected) <==> o.expects)
      && FormField(WArgs, FArray(Holes(from, o.arguments))) in fields && FormField(WMethod, FString(o.name)) in fields
      && (o.expects ==> FormField(WExpected, Hole(from + o.arguments)) in fields)
  {
    hide Holes;
    var fields := OperationForm(o, from).fields;
    assert fields[0] == FormField(WArgs, FArray(Holes(from, o.arguments)));
    assert fields[1] == FormField(WMethod, FString(o.name));
    assert o.expects ==> fields[2] == FormField(WExpected, Hole(from + o.arguments));
  }

  lemma OperationHeld(o: V.Operation, from: nat, js: seq<Json>)
    requires from + V.OperationArity(o) <= |js|
    ensures var j := Graft(OperationForm(o, from), js);
      && j.JObject? && HasFields(j.members, [WMethod, WArgs], [WExpected])
      && Held(j.members, FormField(WArgs, FArray(Holes(from, o.arguments))), js)
      && Held(j.members, FormField(WMethod, FString(o.name)), js)
      && (Has(j.members, WExpected) <==> o.expects)
      && (o.expects ==> Held(j.members, FormField(WExpected, Hole(from + o.arguments)), js))
  {
    OperationCovers(o, from);
    var fields := OperationForm(o, from).fields;
    assert OperationForm(o, from) == FObject(fields);
    hide OperationForm, Spell, HasFields, Has, FieldsCover, HasWord, Graft, Holes, Held;
    ObjectHolds(fields, js, [WMethod, WArgs], [WExpected]);
    var ms := Graft(FObject(fields), js).members;
    HeldIn(ms, fields, js, FormField(WArgs, FArray(Holes(from, o.arguments))));
    HeldIn(ms, fields, js, FormField(WMethod, FString(o.name)));
    if o.expects {
      HeldIn(ms, fields, js, FormField(WExpected, Hole(from + o.arguments)));
      HeldHas(ms, FormField(WExpected, Hole(from + o.arguments)), js);
    }
  }

  lemma HeldHas(ms: seq<Member>, field: FormField, js: seq<Json>)
    requires Held(ms, field, js)
    ensures Has(ms, field.word) && Get(ms, field.word) == Graft(field.form, js)
  {
  }

  lemma OperationFromHeld(o: V.Operation, ms: seq<Member>, from: nat, js: seq<Json>)
    requires from + V.OperationArity(o) <= |js| && WellFormed(o.name)
    requires HasFields(ms, [WMethod, WArgs], [WExpected])
    requires Held(ms, FormField(WArgs, FArray(Holes(from, o.arguments))), js)
    requires Held(ms, FormField(WMethod, FString(o.name)), js)
    requires Has(ms, WExpected) <==> o.expects
    requires o.expects ==> Held(ms, FormField(WExpected, Hole(from + o.arguments)), js)
    ensures var j := JObject(ms);
      && (IsOperation(j) <==> o.name != [])
      && (IsOperation(j) ==> OperationOf(j) == o && OperationParts(j) == js[from..from + V.OperationArity(o)])
  {
    hide Spell, Lookup, HasFields, Has, IsOperation, OperationOf, OperationParts;
    var args := js[from..from + o.arguments];
    HolesGraft(from, o.arguments, js);
    if o.expects {
      assert args + [js[from + o.arguments]] == js[from..from + o.arguments + 1];
    }
    OperationFromFields(o, ms, args, if o.expects then js[from + o.arguments] else JNull);
  }

  lemma OperationReads(o: V.Operation, from: nat, js: seq<Json>)
    requires from + V.OperationArity(o) <= |js| && WellFormed(o.name)
    ensures var j := Graft(OperationForm(o, from), js);
      && (IsOperation(j) <==> o.name != [])
      && (IsOperation(j) ==> OperationOf(j) == o && OperationParts(j) == js[from..from + V.OperationArity(o)])
  {
    hide Spell, Lookup, HasFields, Has, IsOperation, OperationOf, OperationParts, OperationForm, Held, Graft, Holes;
    OperationHeld(o, from, js);
    OperationFromHeld(o, Graft(OperationForm(o, from), js).members, from, js);
  }

  predicate AllOperations(items: seq<Json>) {
    forall i | 0 <= i < |items| :: IsOperation(items[i])
  }

  predicate AllNamed(os: seq<V.Operation>) {
    forall i | 0 <= i < |os| :: os[i].name != []
  }

  lemma AllOperationsStep(first: Json, rest: seq<Json>)
    ensures AllOperations([first] + rest) <==> IsOperation(first) && AllOperations(rest)
    ensures AllOperations([first] + rest) ==>
              && OperationsOf([first] + rest) == [OperationOf(first)] + OperationsOf(rest)
              && OperationsParts([first] + rest) == OperationParts(first) + OperationsParts(rest)
  {
    hide IsOperation, OperationOf, OperationParts;
    var items := [first] + rest;
    assert items[1..] == rest;
    assert AllOperations(items) ==> IsOperation(items[0]);
    if AllOperations(items) {
      forall i | 0 <= i < |rest| ensures IsOperation(rest[i]) {
        assert rest[i] == items[i + 1];
      }
    }
    if IsOperation(first) && AllOperations(rest) {
      forall i | 0 <= i < |items| ensures IsOperation(items[i]) {
        assert i > 0 ==> items[i] == rest[i - 1];
      }
    }
  }

  lemma AllNamedStep(first: V.Operation, rest: seq<V.Operation>)
    ensures AllNamed([first] + rest) <==> first.name != [] && AllNamed(rest)
  {
    var os := [first] + rest;
    assert AllNamed(os) ==> os[0].name != [];
    if AllNamed(os) {
      forall i | 0 <= i < |rest| ensures rest[i].name != [] {
        assert rest[i] == os[i + 1];
      }
    }
    if first.name != [] && AllNamed(rest) {
      forall i | 0 <= i < |os| ensures os[i].name != [] {
        assert i > 0 ==> os[i] == rest[i - 1];
      }
    }
  }

  lemma OperationFormsStep(os: seq<V.Operation>, from: nat, js: seq<Json>)
    ensures os == [] ==> GraftItems(OperationForms(os, from), js) == []
    ensures os != [] ==>
              GraftItems(OperationForms(os, from), js) ==
              [Graft(OperationForm(os[0], from), js)]
              + GraftItems(OperationForms(os[1..], from + V.OperationArity(os[0])), js)
  {
    hide Graft, OperationForm;
  }

  lemma NoOperations()
    ensures AllOperations([]) && AllNamed([]) && OperationsOf([]) == [] && OperationsParts([]) == []
  {
  }

  /** The operations from `from` on are read back, names permitting. */
  ghost predicate ReadBack(os: seq<V.Operation>, from: nat, js: seq<Json>)
    requires from + V.OperationsArity(os) <= |js|
  {
    var items := GraftItems(OperationForms(os, from), js);
    && (AllOperations(items) <==> AllNamed(os))
    && (AllOperations(items) ==>
          OperationsOf(items) == os && OperationsParts(items) == js[from..from + V.OperationsArity(os)])
  }

  lemma OperationsStep(os: seq<V.Operation>, from: nat, js: seq<Json>)
    requires os != [] && from + V.OperationsArity(os) <= |js| && WellFormed(os[0].name)
    requires ReadBack(os[1..], from + V.OperationArity(os[0]), js)
    ensures ReadBack(os, from, js)
  {
    hide Graft, GraftItems, OperationForms, IsOperation, OperationForm, OperationOf, OperationParts, AllOperations, AllNamed,
         OperationsOf, OperationsParts, WellFormed;
    var next := from + V.OperationArity(os[0]);
    OperationFormsStep(os, from, js);
    OperationReads(os[0], from, js);
    assert os == [os[0]] + os[1..];
    AllOperationsStep(Graft(OperationForm(os[0], from), js), GraftItems(OperationForms(os[1..], next), js));
    AllNamedStep(os[0], os[1..]);
    assert js[from..from + V.OperationsArity(os)] == js[from..next] + js[next..from + V.OperationsArity(os)];
  }

  lemma {:induction false} OperationsRead(os: seq<V.Operation>, from: nat, js: seq<Json>)
    requires from + V.OperationsArity(os) <= |js| && forall i | 0 <= i < |os| :: WellFormed(os[i].name)
    ensures ReadBack(os, from, js)
  {
    hide GraftItems, AllOperations, AllNamed, OperationsOf, OperationsParts, WellFormed;
    if os == [] {
      OperationFormsStep(os, from, js);
      NoOperations();
    } else {
      OperationsRead(os[1..], from + V.OperationArity(os[0]), js);
      OperationsStep(os, from, js);
    }
  }
}
