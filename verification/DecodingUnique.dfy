/** A written node determines its shape and sub-nodes, whether or not the decoder accepts its names. */
module DecodingUnique {
  import opened Wrappers
  import opened Unicode
  import opened Json
  import opened Words
  import opened Forms
  import V = Values
  import opened Encoding
  import opened Decoding
  import opened DecodingNodes
  import opened DecodingShapes

  // ---- class-trace operations ----------------------------------------------------------

  lemma HeldArgs(o: V.Operation, ms: seq<Member>, from: nat, js: seq<Json>)
    requires Held(ms, FormField(WArgs, FArray(Holes(from, o.arguments))), js) && from + o.arguments <= |js|
    ensures Has(ms, WArgs) && Get(ms, WArgs) == JArray(js[from..from + o.arguments])
  {
    hide Lookup, Spell, Holes;
    HolesGraft(from, o.arguments, js);
  }

  /** What can be read of a written operation. */
  lemma OperationShows(o: V.Operation, from: nat, js: seq<Json>)
    requires from + V.OperationArity(o) <= |js|
    ensures var j := Graft(OperationForm(o, from), js);
      && j.JObject? && Has(j.members, WMethod) && Get(j.members, WMethod) == JString(o.name)
      && Has(j.members, WArgs) && Get(j.members, WArgs) == JArray(js[from..from + o.arguments])
      && (Has(j.members, WExpected) <==> o.expects)
      && (o.expects ==> Get(j.members, WExpected) == js[from + o.arguments])
  {
    hide OperationForm, Held, Has, Get, Graft, HasFields, Holes;
    OperationHeld(o, from, js);
    var ms := Graft(OperationForm(o, from), js).members;
    HeldArgs(o, ms, from, js);
    TextHeld(ms, WMethod, o.name, js);
    if o.expects {
      HoleHeld(ms, WExpected, from + o.arguments, js);
    }
  }

  lemma OneOperation(o: V.Operation, from: nat, js: seq<Json>, p: V.Operation, at: nat, ks: seq<Json>)
    requires from + V.OperationArity(o) <= |js| && at + V.OperationArity(p) <= |ks|
    requires Graft(OperationForm(o, from), js) == Graft(OperationForm(p, at), ks)
    ensures o == p && js[from..from + V.OperationArity(o)] == ks[at..at + V.OperationArity(o)]
  {
    hide OperationForm, Has, Get, Graft;
    OperationShows(o, from, js);
    OperationShows(p, at, ks);
    assert |js[from..from + o.arguments]| == o.arguments && |ks[at..at + p.arguments]| == p.arguments;
    if o.expects {
      assert js[from..from + o.arguments + 1] == js[from..from + o.arguments] + [js[from + o.arguments]];
      assert ks[at..at + o.arguments + 1] == ks[at..at + o.arguments] + [ks[at + o.arguments]];
    }
  }

  lemma {:induction false} OneTrace(os: seq<V.Operation>, from: nat, js: seq<Json>, ps: seq<V.Operation>, at: nat, ks: seq<Json>)
    requires from + V.OperationsArity(os) <= |js| && at + V.OperationsArity(ps) <= |ks|
    requires GraftItems(OperationForms(os, from), js) == GraftItems(OperationForms(ps, at), ks)
    ensures os == ps && js[from..from + V.OperationsArity(os)] == ks[at..at + V.OperationsArity(os)]
  {
    hide GraftItems, OperationForms, OperationForm, Graft, V.OperationArity;
    OperationFormsStep(os, from, js);
    OperationFormsStep(ps, at, ks);
    if os != [] && ps != [] {
      var n := V.OperationArity(os[0]);
      FirstAndRest(Graft(OperationForm(os[0], from), js), GraftItems(OperationForms(os[1..], from + n), js),
                   Graft(OperationForm(ps[0], at), ks), GraftItems(OperationForms(ps[1..], at + V.OperationArity(ps[0])), ks));
      OneOperation(os[0], from, js, ps[0], at, ks);
      OneTrace(os[1..], from + n, js, ps[1..], at + n, ks);
      assert os == [os[0]] + os[1..] && ps == [ps[0]] + ps[1..];
      var end := V.OperationsArity(os);
      assert js[from..from + end] == js[from..from + n] + js[from + n..from + end];
      assert ks[at..at + end] == ks[at..at + n] + ks[at + n..at + end];
    }
  }

  lemma FirstAndRest(a: Json, xs: seq<Json>, b: Json, ys: seq<Json>)
    requires [a] + xs == [b] + ys
    ensures a == b && xs == ys
  {
    assert ([a] + xs)[0] == ([b] + ys)[0] && ([a] + xs)[1..] == ([b] + ys)[1..];
  }

  // ---- shapes with names --------------------------------------------------------------------

  lemma OneEnum(s: V.Shape, js: seq<Json>, t: V.Shape, ks: seq<Json>, ms: seq<Member>)
    requires Ready(s, ms, js) && Ready(t, ms, ks) && s.SEnum? && t.SEnum?
    ensures s == t && js == ks
  {
    hide Ready, Held, Has, Get, HasFields;
    EnumReady(s, ms, js);
    EnumReady(t, ms, ks);
    TextHeld(ms, WMemberKey, s.member, js);
    TextHeld(ms, WMemberKey, t.member, ks);
    TextHeld(ms, WType, s.name, js);
    TextHeld(ms, WType, t.name, ks);
    HoleHeld(ms, WValue, 0, js);
    HoleHeld(ms, WValue, 0, ks);
  }

  /** The details of an exception: null, or an object. */
  lemma DetailsShow(s: V.Shape, js: seq<Json>, ms: seq<Member>)
    requires Ready(s, ms, js) && s.SException?
    ensures Has(ms, WDetails) && js == if s.detailed then [Get(ms, WDetails)] else []
    ensures s.detailed <==> Get(ms, WDetails) != JNull
  {
    hide Ready, Held, Has, Get, HasFields;
    ExceptionReady(s, ms, js);
    if s.detailed {
      HoleHeld(ms, WDetails, 0, js);
    } else {
      NullHeld(ms, WDetails, js);
    }
  }

  lemma OneException(s: V.Shape, js: seq<Json>, t: V.Shape, ks: seq<Json>, ms: seq<Member>)
    requires Ready(s, ms, js) && Ready(t, ms, ks) && s.SException? && t.SException?
    ensures s == t && js == ks
  {
    hide Ready, Held, Has, Get, HasFields;
    ExceptionReady(s, ms, js);
    ExceptionReady(t, ms, ks);
    TextHeld(ms, WMessage, s.message, js);
    TextHeld(ms, WMessage, t.message, ks);
    TextHeld(ms, WType, s.name, js);
    TextHeld(ms, WType, t.name, ks);
    DetailsShow(s, js, ms);
    DetailsShow(t, ks, ms);
  }

  lemma KindsDiffer()
    ensures Spell(WNamedTuple) != Spell(WDataclass)
  {
    if Spell(WNamedTuple) == Spell(WDataclass) {
      SpellInjective(WNamedTuple, WDataclass);
    }
  }

  lemma OneRecord(s: V.Shape, js: seq<Json>, t: V.Shape, ks: seq<Json>, ms: seq<Member>)
    requires Ready(s, ms, js) && Ready(t, ms, ks) && s.SRecord? && t.SRecord?
    ensures s == t && js == ks
  {
    hide Ready, Held, Has, Get, HasFields, RecordFieldForms, FieldNames, FieldParts, IsRecordField, AllWellFormed, DistinctTexts,
         GraftItems, Spell;
    RecordReady(s, ms, js);
    RecordReady(t, ms, ks);
    TextHeld(ms, WName, s.name, js);
    TextHeld(ms, WName, t.name, ks);
    TextHeld(ms, WType, Spell(if s.namedTuple then WNamedTuple else WDataclass), js);
    TextHeld(ms, WType, Spell(if t.namedTuple then WNamedTuple else WDataclass), ks);
    KindsDiffer();
    FormsHeld(ms, WFields, RecordFieldForms(s.fields), js);
    FormsHeld(ms, WFields, RecordFieldForms(t.fields), ks);
    RecordFieldsRead(s.fields, js);
    RecordFieldsRead(t.fields, ks);
  }

  lemma OneClassTrace(s: V.Shape, js: seq<Json>, t: V.Shape, ks: seq<Json>, ms: seq<Member>)
    requires Ready(s, ms, js) && Ready(t, ms, ks) && s.SClassTrace? && t.SClassTrace?
    ensures s == t && js == ks
  {
    hide Ready, Held, Has, Get, HasFields, OperationForms, Holes, GraftItems, IsArray, WellFormed, V.OperationsArity;
    TraceReady(s, ms, js);
    TraceReady(t, ms, ks);
    TextHeld(ms, WClassName, s.name, js);
    TextHeld(ms, WClassName, t.name, ks);
    ArrayHeld(ms, WConstructor, s.arguments, js);
    ArrayHeld(ms, WConstructor, t.arguments, ks);
    FormsHeld(ms, WOperations, OperationForms(s.operations, s.arguments), js);
    FormsHeld(ms, WOperations, OperationForms(t.operations, t.arguments), ks);
    assert |js[..s.arguments]| == s.arguments && |ks[..t.arguments]| == t.arguments;
    OneTrace(s.operations, s.arguments, js, t.operations, t.arguments, ks);
    assert js == js[..s.arguments] + js[s.arguments..|js|];
    assert ks == ks[..t.arguments] + ks[t.arguments..|ks|];
  }

  // ---- every shape ------------------------------------------------------------------------------

  lemma TagShows(s: V.Shape, js: seq<Json>, ms: seq<Member>)
    requires Ready(s, ms, js)
    ensures Has(ms, WTag) && Get(ms, WTag) == JString(Spell(NodeTag(s)))
  {
    NodeWordsAllowed(s, |js|);
    hide NodeFields, NodeTag, HasFields, Held, Has, Get, Legal, Spell, Tag;
    HeldIn(ms, NodeFields(s, |js|), js, Tag(NodeTag(s)));
    TagHeld(ms, NodeTag(s), js);
  }

  lemma SameTag(s: V.Shape, js: seq<Json>, t: V.Shape, ks: seq<Json>, ms: seq<Member>)
    requires Ready(s, ms, js) && Ready(t, ms, ks)
    ensures NodeTag(s) == NodeTag(t)
  {
    hide Ready, Has, Get, Spell, NodeTag;
    TagShows(s, js, ms);
    TagShows(t, ks, ms);
    SpellInjective(NodeTag(s), NodeTag(t));
  }

  /** One object is the written form of one node only. */
  lemma OneNode(s: V.Shape, js: seq<Json>, t: V.Shape, ks: seq<Json>, ms: seq<Member>)
    requires Ready(s, ms, js) && Ready(t, ms, ks)
    ensures s == t && js == ks
  {
    hide Ready, OpenNode;
    SameTag(s, js, t, ks, ms);
    NodeOpens(s, ms, js);
    NodeOpens(t, ms, ks);
    if !Named(s) {
      match s
      case SEnum(_, _) => OneEnum(s, js, t, ks, ms);
      case SException(_, _, _) => OneException(s, js, t, ks, ms);
      case SRecord(_, _, _) => OneRecord(s, js, t, ks, ms);
      case SClassTrace(_, _, _) => OneClassTrace(s, js, t, ks, ms);
    }
  }
}
