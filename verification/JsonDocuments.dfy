/** The recursive half of the syntax theorem: arrays, objects and whole documents. */
module JsonDocuments {
  import opened Unicode
  import opened Json
  import opened JsonParser
  import opened JsonSyntax

  // ---- shared facts ------------------------------------------------------------

  lemma SkipSpaceIdle(t: Text, p: nat)
    requires p <= |t|
    ensures SkipSpace(t, SkipSpace(t, p)) == SkipSpace(t, p)
  {
    SkipSpaceStops(t, p);
  }

  lemma ItemsSkip(t: Text, p: nat, depth: int, acc: seq<Json>)
    requires p <= |t|
    ensures ParseItems(t, SkipSpace(t, p), depth, acc) == ParseItems(t, p, depth, acc)
  {
    SkipSpaceIdle(t, p);
    hide SkipSpace, ParseValue, ParseMemberAt;
  }

  lemma MembersSkip(t: Text, p: nat, depth: int, acc: seq<Member>)
    requires p <= |t|
    ensures ParseMembers(t, SkipSpace(t, p), depth, acc) == ParseMembers(t, p, depth, acc)
  {
    SkipSpaceIdle(t, p);
    hide SkipSpace, ParseValue, ParseMemberAt;
  }

  /** A value starts with a character that is neither white space nor a closing bracket. */
  lemma RenderStart(c: Con, depth: int)
    requires Valid(c, depth)
    ensures Render(c) != [] && !Space(Render(c)[0])
    ensures Render(c)[0] != CLOSE_BRACKET && Render(c)[0] != CLOSE_BRACE
  {
    if c.CNumber? {
      var s, i, f, e :| NumberParts(c.raw, s, i, f, e);
      assert c.raw[0] == if s == [] then i[0] else s[0];
    }
  }

  lemma SpaceStops(t: Text, p: nat, ws: Text, next: Text)
    requires AllSpace(ws) && At(t, p, ws) && At(t, p + |ws|, next) && next != []
    requires Stops(next[0])
    ensures Stops(Peek(t, p))
  {
    PeekPart(t, p, ws);
    PeekPart(t, p + |ws|, next);
  }

  // ---- reading what was rendered -------------------------------------------------

  lemma KeywordReads(t: Text, p: nat, word: Text, value: Json)
    requires At(t, p, word)
    ensures ParseKeyword(t, p, word, value) == Done(value, p + |word|)
  {
  }

  lemma AtConcat4Iff(t: Text, p: nat, a: Text, b: Text, c: Text, d: Text)
    ensures At(t, p, a + (b + (c + d))) <==>
            At(t, p, a) && At(t, p + |a|, b) && At(t, p + |a| + |b|, c) && At(t, p + |a| + |b| + |c|, d)
  {
    hide At;
    AtConcat(t, p, a, b + (c + d));
    AtConcat(t, p + |a|, b, c + d);
    AtConcat(t, p + |a| + |b|, c, d);
  }

  /** The parts of a rendered element, in order. */
  lemma ElemSplit(t: Text, p: nat, e: Elem, value: Text, more: Text)
    ensures At(t, p, ElemText(e, value, more)) <==>
            At(t, p, e.before) && At(t, p + |e.before|, value) && At(t, p + |e.before| + |value|, e.after)
            && At(t, p + |e.before| + |value| + |e.after|, more)
    ensures |ElemText(e, value, more)| == |e.before| + |value| + |e.after| + |more|
  {
    hide At;
    AtConcat4Iff(t, p, e.before, value, e.after, more);
  }

  lemma {:induction false} ValueReads(t: Text, p: nat, c: Con, depth: int)
    requires At(t, p, Render(c)) && Valid(c, depth) && Stops(Peek(t, p + |Render(c)|))
    ensures ParseValue(t, p, depth) == Done(Value(c), p + |Render(c)|)
    decreases c, 1
  {
    RenderStart(c, depth);
    PeekPart(t, p, Render(c));
    match c
    case CNull => KeywordReads(t, p, U("null"), JNull);
    case CBool(b) => KeywordReads(t, p, if b then U("true") else U("false"), JBool(b));
    case CNumber(raw) => NumberReads(t, p, raw);
    case CString(ps) => QuotedReads(t, p, ps);
    case CArray(pad, es) =>
      AtConcat(t, p, [OPEN_BRACKET], if es == [] then pad + [CLOSE_BRACKET] else RenderElems(es));
      if es == [] {
        EmptyArrayReads(t, p, pad, depth);
      } else {
        ArrayReads(t, p, es, depth);
      }
    case CObject(pad, fs) =>
      AtConcat(t, p, [OPEN_BRACE], if fs == [] then pad + [CLOSE_BRACE] else RenderFields(fs));
      if fs == [] {
        EmptyObjectReads(t, p, pad, depth);
      } else {
        ObjectReads(t, p, fs, depth);
      }
  }

  /** One iteration of the parseArray loop, given what its value reads as. */
  lemma ItemsStep(t: Text, p: nat, depth: int, acc: seq<Json>, v: Json, q: nat)
    requires p <= |t| && q <= |t| && ParseValue(t, SkipSpace(t, p), depth) == Done(v, q)
    ensures var s := SkipSpace(t, q);
      && (Peek(t, s) == COMMA ==> ParseItems(t, p, depth, acc) == ParseItems(t, s + 1, depth, acc + [v]))
      && (Peek(t, s) == CLOSE_BRACKET ==> ParseItems(t, p, depth, acc) == Done(JArray(acc + [v]), s + 1))
  {
  }

  lemma ArrayOpens(t: Text, p: nat, depth: int)
    requires Peek(t, p) == OPEN_BRACKET && depth < MAX_STRUCTURAL_DEPTH
    ensures var q := SkipSpace(t, p + 1);
      ParseValue(t, p, depth) ==
      if Peek(t, q) == CLOSE_BRACKET then Done(JArray([]), q + 1) else ParseItems(t, p + 1, depth + 1, [])
  {
    ItemsSkip(t, p + 1, depth + 1, []);
  }

  lemma EmptyArrayReads(t: Text, p: nat, pad: Text, depth: int)
    requires Peek(t, p) == OPEN_BRACKET && depth < MAX_STRUCTURAL_DEPTH
    requires AllSpace(pad) && At(t, p + 1, pad + [CLOSE_BRACKET])
    ensures ParseValue(t, p, depth) == Done(JArray([]), p + |pad| + 2)
  {
    hide At, SkipSpace, ParseValue, ParseItems;
    ArrayOpens(t, p, depth);
    AtConcat(t, p + 1, pad, [CLOSE_BRACKET]);
    PeekPart(t, p + 1 + |pad|, [CLOSE_BRACKET]);
    SkipSpaceReads(t, p + 1, pad);
  }

  lemma {:induction false} ArrayReads(t: Text, p: nat, es: seq<Elem>, depth: int)
    requires Peek(t, p) == OPEN_BRACKET && depth < MAX_STRUCTURAL_DEPTH
    requires es != [] && ValidElems(es, depth + 1) && At(t, p + 1, RenderElems(es))
    ensures ParseValue(t, p, depth) == Done(JArray(ElemValues(es)), p + 1 + |RenderElems(es)|)
    decreases es, 1
  {
    hide At, SkipSpace, ParseValue, ParseItems, Render, Valid, ElemText;
    ArrayOpens(t, p, depth);
    ElemSplit(t, p + 1, es[0], Render(es[0].value), MoreElems(es));
    RenderStart(es[0].value, depth + 1);
    PeekPart(t, p + 1 + |es[0].before|, Render(es[0].value));
    SkipSpaceReads(t, p + 1, es[0].before);
    ElemsRead(t, p + 1, es, depth + 1, []);
    assert [] + ElemValues(es) == ElemValues(es);
  }

  lemma {:induction false} ElemsRead(t: Text, p: nat, es: seq<Elem>, depth: int, acc: seq<Json>)
    requires es != [] && ValidElems(es, depth) && At(t, p, RenderElems(es))
    ensures ParseItems(t, p, depth, acc) == Done(JArray(acc + ElemValues(es)), p + |RenderElems(es)|)
    decreases es, 0
  {
    hide At, SkipSpace, ParseValue, ParseItems, Render, ElemText, Value, Valid;
    ElemSplit(t, p, es[0], Render(es[0].value), MoreElems(es));
    var e := es[0];
    var p1 := p + |e.before|;
    var p2 := p1 + |Render(e.value)|;
    var p3 := p2 + |e.after|;
    RenderStart(e.value, depth);
    PeekPart(t, p1, Render(e.value));
    SkipSpaceReads(t, p, e.before);
    SpaceStops(t, p2, e.after, MoreElems(es));
    ValueReads(t, p1, e.value, depth);
    PeekPart(t, p3, MoreElems(es));
    SkipSpaceReads(t, p2, e.after);
    ItemsStep(t, p, depth, acc, Value(e.value), p2);
    if |es| == 1 {
      assert acc + ElemValues(es) == acc + [Value(e.value)];
    } else {
      AtConcat(t, p3, [COMMA], RenderElems(es[1..]));
      ElemsRead(t, p3 + 1, es[1..], depth, acc + [Value(e.value)]);
      assert acc + ElemValues(es) == acc + [Value(e.value)] + ElemValues(es[1..]);
    }
  }

  /** Where the parts of the first member of an object lie. */
  datatype Spots = Spots(key: nat, keyEnd: nat, colon: nat, value: nat, valueEnd: nat, closing: nat)

  function SpotsOf(p: nat, f: Field): Spots {
    var key := p + |f.before|;
    var keyEnd := key + |RenderString(f.key)|;
    var colon := keyEnd + |f.beforeColon|;
    var value := colon + 1 + |f.afterColon|;
    var valueEnd := value + |Render(f.value)|;
    Spots(key, keyEnd, colon, value, valueEnd, valueEnd + |f.after|)
  }

  predicate FieldAt(t: Text, p: nat, f: Field) {
    var s := SpotsOf(p, f);
    && At(t, p, f.before) && At(t, s.key, RenderString(f.key))
    && At(t, s.keyEnd, f.beforeColon) && At(t, s.colon, [COLON])
    && At(t, s.colon + 1, f.afterColon) && At(t, s.value, Render(f.value)) && At(t, s.valueEnd, f.after)
  }

  lemma FieldSplit(t: Text, p: nat, f: Field, more: Text)
    ensures At(t, p, FieldText(f, RenderString(f.key), Render(f.value), more)) <==>
            FieldAt(t, p, f) && At(t, SpotsOf(p, f).closing, more)
    ensures p + |FieldText(f, RenderString(f.key), Render(f.value), more)| == SpotsOf(p, f).closing + |more|
  {
    hide At, Render, RenderString;
    var k, v := RenderString(f.key), Render(f.value);
    AtConcat4Iff(t, p, f.before, k, f.beforeColon, [COLON] + (f.afterColon + (v + (f.after + more))));
    var colon := p + |f.before| + |k| + |f.beforeColon|;
    AtConcat4Iff(t, colon, [COLON], f.afterColon, v, f.after + more);
    AtConcat(t, colon + 1 + |f.afterColon| + |v|, f.after, more);
  }

  lemma ObjectOpens(t: Text, p: nat, depth: int)
    requires Peek(t, p) == OPEN_BRACE && depth < MAX_STRUCTURAL_DEPTH
    ensures var q := SkipSpace(t, p + 1);
      ParseValue(t, p, depth) ==
      if Peek(t, q) == CLOSE_BRACE then Done(JObject([]), q + 1) else ParseMembers(t, p + 1, depth + 1, [])
  {
    MembersSkip(t, p + 1, depth + 1, []);
  }

  lemma EmptyObjectReads(t: Text, p: nat, pad: Text, depth: int)
    requires Peek(t, p) == OPEN_BRACE && depth < MAX_STRUCTURAL_DEPTH
    requires AllSpace(pad) && At(t, p + 1, pad + [CLOSE_BRACE])
    ensures ParseValue(t, p, depth) == Done(JObject([]), p + |pad| + 2)
  {
    hide At, SkipSpace, ParseValue, ParseMembers;
    ObjectOpens(t, p, depth);
    AtConcat(t, p + 1, pad, [CLOSE_BRACE]);
    PeekPart(t, p + 1 + |pad|, [CLOSE_BRACE]);
    SkipSpaceReads(t, p + 1, pad);
  }

  lemma {:induction false} ObjectReads(t: Text, p: nat, fs: seq<Field>, depth: int)
    requires Peek(t, p) == OPEN_BRACE && depth < MAX_STRUCTURAL_DEPTH
    requires fs != [] && ValidFields(fs, depth + 1) && DistinctKeys(FieldMembers(fs)) && At(t, p + 1, RenderFields(fs))
    ensures ParseValue(t, p, depth) == Done(JObject(FieldMembers(fs)), p + 1 + |RenderFields(fs)|)
    decreases fs, 1
  {
    hide At, SkipSpace, ParseValue, ParseMembers, Render, Valid, FieldText, DistinctKeys;
    ObjectOpens(t, p, depth);
    FieldSplit(t, p + 1, fs[0], MoreFields(fs));
    PeekPart(t, SpotsOf(p + 1, fs[0]).key, RenderString(fs[0].key));
    SkipSpaceReads(t, p + 1, fs[0].before);
    assert [] + FieldMembers(fs) == FieldMembers(fs);
    FieldsRead(t, p + 1, fs, depth + 1, []);
  }

  /** One iteration of the parseObject loop, given what its key and value read as. */
  lemma MembersStep(t: Text, p: nat, depth: int, acc: seq<Member>, k: nat, key: Text, q: nat, colon: nat, v: Json, r: nat)
    requires p <= |t| && q <= |t| && r <= |t| && colon < |t|
    requires k == SkipSpace(t, p) && Peek(t, k) == QUOTE && ParseString(t, k + 1, []) == Done(key, q)
    requires !HasKey(acc, key) && colon == SkipSpace(t, q) && Peek(t, colon) == COLON
    requires ParseValue(t, SkipSpace(t, colon + 1), depth) == Done(v, r)
    ensures var s := SkipSpace(t, r);
      var m := acc + [Member(key, v)];
      && (Peek(t, s) == COMMA ==> ParseMembers(t, p, depth, acc) == ParseMembers(t, s + 1, depth, m))
      && (Peek(t, s) == CLOSE_BRACE ==> ParseMembers(t, p, depth, acc) == Done(JObject(m), s + 1))
  {
  }

  /** Reading one member up to the character after it. */
  lemma FieldReads(t: Text, p: nat, f: Field, depth: int, acc: seq<Member>, rest: Text)
    requires FieldAt(t, p, f) && At(t, SpotsOf(p, f).closing, rest) && rest != []
    requires rest[0] == COMMA || rest[0] == CLOSE_BRACE
    requires ValidFields([f], depth) && !HasKey(acc, KeyText(f.key))
    requires SpotsOf(p, f).value <= |t|
    requires ParseValue(t, SpotsOf(p, f).value, depth) == Done(Value(f.value), SpotsOf(p, f).valueEnd)
    ensures var m := acc + [Member(KeyText(f.key), Value(f.value))];
            var end := SpotsOf(p, f).closing;
            end < |t| && ParseMembers(t, p, depth, acc) ==
            if rest[0] == COMMA then ParseMembers(t, end + 1, depth, m) else Done(JObject(m), end + 1)
  {
    var s := SpotsOf(p, f);
    hide At, SkipSpace, ParseValue, ParseMembers, Render, RenderString, Value, Valid;
    PeekPart(t, p, f.before);
    PeekPart(t, s.key, RenderString(f.key));
    QuotedReads(t, s.key, f.key);
    SkipSpaceReads(t, p, f.before);
    PeekPart(t, s.colon, [COLON]);
    SkipSpaceReads(t, s.keyEnd, f.beforeColon);
    RenderStart(f.value, depth);
    PeekPart(t, s.value, Render(f.value));
    SkipSpaceReads(t, s.colon + 1, f.afterColon);
    PeekPart(t, s.closing, rest);
    SkipSpaceReads(t, s.valueEnd, f.after);
    MembersStep(t, p, depth, acc, s.key, KeyText(f.key), s.keyEnd, s.colon, Value(f.value), s.valueEnd);
  }

  lemma FreshKey(acc: seq<Member>, ms: seq<Member>)
    requires DistinctKeys(acc + ms) && ms != []
    ensures !HasKey(acc, ms[0].key)
    ensures acc + ms == acc + [ms[0]] + ms[1..]
  {
    assert (acc + ms)[|acc|] == ms[0];
    assert forall i | 0 <= i < |acc| :: (acc + ms)[i] == acc[i];
  }

  lemma {:induction false} FieldsRead(t: Text, p: nat, fs: seq<Field>, depth: int, acc: seq<Member>)
    requires fs != [] && ValidFields(fs, depth) && At(t, p, RenderFields(fs))
    requires DistinctKeys(acc + FieldMembers(fs))
    ensures ParseMembers(t, p, depth, acc) == Done(JObject(acc + FieldMembers(fs)), p + |RenderFields(fs)|)
    decreases fs, 0
  {
    hide At, ParseValue, ParseMembers, Render, FieldText, Value, Valid, DistinctKeys, HasKey;
    FieldSplit(t, p, fs[0], MoreFields(fs));
    var f := fs[0];
    var s := SpotsOf(p, f);
    var m := Member(KeyText(f.key), Value(f.value));
    FreshKey(acc, FieldMembers(fs));
    SpaceStops(t, s.valueEnd, f.after, MoreFields(fs));
    PeekPart(t, s.value, Render(f.value));
    ValueReads(t, s.value, f.value, depth);
    FieldReads(t, p, f, depth, acc, MoreFields(fs));
    if |fs| == 1 {
      assert FieldMembers(fs) == [m];
    } else {
      AtConcat(t, s.closing, [COMMA], RenderFields(fs[1..]));
      assert FieldMembers(fs)[1..] == FieldMembers(fs[1..]);
      FieldsRead(t, s.closing + 1, fs[1..], depth, acc + [m]);
    }
  }

  // ---- whatever is read was rendered ------------------------------------------------

  lemma KeywordSound(t: Text, p: nat, word: Text, value: Json)
    requires ParseKeyword(t, p, word, value).Done?
    ensures At(t, p, word) && ParseKeyword(t, p, word, value) == Done(value, p + |word|)
  {
  }

  lemma {:induction false} ValueSound(t: Text, p: nat, depth: int) returns (c: Con)
    requires p <= |t| && ParseValue(t, p, depth).Done?
    ensures Valid(c, depth) && At(t, p, Render(c))
    ensures ParseValue(t, p, depth) == Done(Value(c), p + |Render(c)|)
    decreases |t| - p, 1
  {
    var ch := Peek(t, p);
    if ch == OPEN_BRACE {
      c := ObjectSound(t, p, depth);
    } else if ch == OPEN_BRACKET {
      c := ArraySound(t, p, depth);
    } else if ch == QUOTE {
      var ps := StringSound(t, p + 1, []);
      c := CString(ps);
      assert [] + PiecesText(ps) == PiecesText(ps);
      assert RenderString(ps) == [QUOTE] + (RenderPieces(ps) + [QUOTE]);
      assert At(t, p, [QUOTE]);
      AtConcat(t, p, [QUOTE], RenderPieces(ps) + [QUOTE]);
    } else if ch == 0x74 {
      c := CBool(true);
      KeywordSound(t, p, U("true"), JBool(true));
    } else if ch == 0x66 {
      c := CBool(false);
      KeywordSound(t, p, U("false"), JBool(false));
    } else if ch == 0x6e {
      c := CNull;
      KeywordSound(t, p, U("null"), JNull);
    } else {
      NumberSound(t, p);
      c := CNumber(ParseNumber(t, p).value);
    }
  }

  lemma OpenAt(t: Text, p: nat, open: Unit, inner: Text)
    requires Peek(t, p) == open && At(t, p + 1, inner)
    ensures At(t, p, [open] + inner)
  {
    AtSlice(t, p, p + 1);
    assert t[p..p + 1] == [open];
    AtConcat(t, p, [open], inner);
  }

  lemma PadAt(t: Text, p: nat, q: nat, close: Unit)
    requires p <= q && Peek(t, q) == close
    ensures At(t, p, t[p..q] + [close])
  {
    assert t[p..q + 1] == t[p..q] + [close];
  }

  lemma NestingAllowed(t: Text, p: nat, depth: int)
    requires p <= |t| && ParseValue(t, p, depth).Done? && (Peek(t, p) == OPEN_BRACKET || Peek(t, p) == OPEN_BRACE)
    ensures depth < MAX_STRUCTURAL_DEPTH
  {
  }

  lemma {:induction false} ArraySound(t: Text, p: nat, depth: int) returns (c: Con)
    requires p <= |t| && ParseValue(t, p, depth).Done? && Peek(t, p) == OPEN_BRACKET
    ensures Valid(c, depth) && At(t, p, Render(c))
    ensures ParseValue(t, p, depth) == Done(Value(c), p + |Render(c)|)
    decreases |t| - p, 0
  {
    hide ParseValue, ParseItems, SkipSpace, At;
    NestingAllowed(t, p, depth);
    ArrayOpens(t, p, depth);
    SkipSpaceStops(t, p + 1);
    var q := SkipSpace(t, p + 1);
    if Peek(t, q) == CLOSE_BRACKET {
      c := CArray(t[p + 1..q], []);
      PadAt(t, p + 1, q, CLOSE_BRACKET);
      OpenAt(t, p, OPEN_BRACKET, t[p + 1..q] + [CLOSE_BRACKET]);
    } else {
      var es := ItemsSound(t, p + 1, depth + 1, []);
      c := CArray([], es);
      assert [] + ElemValues(es) == ElemValues(es);
      OpenAt(t, p, OPEN_BRACKET, RenderElems(es));
    }
  }

  /** What an iteration that went on must have seen. */
  lemma ItemsStepSound(t: Text, p: nat, depth: int, acc: seq<Json>) returns (v: Json, q: nat)
    requires p <= |t| && ParseItems(t, p, depth, acc).Done?
    ensures SkipSpace(t, p) < q <= |t| && ParseValue(t, SkipSpace(t, p), depth) == Done(v, q)
    ensures var s := SkipSpace(t, q);
      && (Peek(t, s) == COMMA || Peek(t, s) == CLOSE_BRACKET)
      && ParseItems(t, p, depth, acc) ==
         if Peek(t, s) == COMMA then ParseItems(t, s + 1, depth, acc + [v]) else Done(JArray(acc + [v]), s + 1)
  {
    var r := ParseValue(t, SkipSpace(t, p), depth);
    v, q := r.value, r.pos;
  }

  predicate ElemAt(t: Text, p: nat, e: Elem) {
    && At(t, p, e.before) && At(t, p + |e.before|, Render(e.value))
    && At(t, p + |e.before| + |Render(e.value)|, e.after)
  }

  function ElemEnd(p: nat, e: Elem): nat {
    p + |e.before| + |Render(e.value)| + |e.after|
  }

  /** One element as written, up to the character after it. */
  lemma {:induction false} ElemSound(t: Text, p: nat, depth: int, acc: seq<Json>) returns (e: Elem)
    requires p <= |t| && ParseItems(t, p, depth, acc).Done?
    ensures ValidElems([e], depth) && ElemAt(t, p, e) && p < ElemEnd(p, e) < |t|
    ensures var s := ElemEnd(p, e);
      var m := acc + [Value(e.value)];
      && (t[s] == COMMA || t[s] == CLOSE_BRACKET)
      && ParseItems(t, p, depth, acc) ==
         if t[s] == COMMA then ParseItems(t, s + 1, depth, m) else Done(JArray(m), s + 1)
    decreases |t| - p, 2
  {
    hide At, SkipSpace, ParseValue, ParseItems, Render, Value, Valid;
    var v, q := ItemsStepSound(t, p, depth, acc);
    var start, s := SkipSpace(t, p), SkipSpace(t, q);
    SkipSpaceStops(t, p);
    SkipSpaceStops(t, q);
    AtSlice(t, p, start);
    AtSlice(t, q, s);
    var c := ValueSound(t, start, depth);
    e := Elem(t[p..start], c, t[q..s]);
  }

  lemma {:induction false} ItemsSound(t: Text, p: nat, depth: int, acc: seq<Json>) returns (es: seq<Elem>)
    requires p <= |t| && ParseItems(t, p, depth, acc).Done?
    ensures es != [] && ValidElems(es, depth) && At(t, p, RenderElems(es))
    ensures ParseItems(t, p, depth, acc) == Done(JArray(acc + ElemValues(es)), p + |RenderElems(es)|)
    decreases |t| - p, 3
  {
    hide At, SkipSpace, ParseItems, Render, Value, Valid, ElemText;
    var e := ElemSound(t, p, depth, acc);
    var s := ElemEnd(p, e);
    AtSlice(t, s, s + 1);
    if t[s] == COMMA {
      var more := ItemsSound(t, s + 1, depth, acc + [Value(e.value)]);
      es := [e] + more;
      assert es[1..] == more;
      assert t[s..s + 1] == [COMMA];
      AtConcat(t, s, [COMMA], RenderElems(more));
      assert acc + ElemValues(es) == acc + [Value(e.value)] + ElemValues(more);
    } else {
      es := [e];
      assert t[s..s + 1] == [CLOSE_BRACKET];
      assert ElemValues(es) == [Value(e.value)];
    }
    ElemSplit(t, p, e, Render(e.value), MoreElems(es));
  }

  lemma {:induction false} ObjectSound(t: Text, p: nat, depth: int) returns (c: Con)
    requires p <= |t| && ParseValue(t, p, depth).Done? && Peek(t, p) == OPEN_BRACE
    ensures Valid(c, depth) && At(t, p, Render(c))
    ensures ParseValue(t, p, depth) == Done(Value(c), p + |Render(c)|)
    decreases |t| - p, 0
  {
    hide ParseValue, ParseMembers, SkipSpace, At;
    NestingAllowed(t, p, depth);
    ObjectOpens(t, p, depth);
    SkipSpaceStops(t, p + 1);
    var q := SkipSpace(t, p + 1);
    if Peek(t, q) == CLOSE_BRACE {
      c := CObject(t[p + 1..q], []);
      PadAt(t, p + 1, q, CLOSE_BRACE);
      OpenAt(t, p, OPEN_BRACE, t[p + 1..q] + [CLOSE_BRACE]);
    } else {
      var fs := MembersSound(t, p + 1, depth + 1, []);
      c := CObject([], fs);
      assert [] + FieldMembers(fs) == FieldMembers(fs);
      OpenAt(t, p, OPEN_BRACE, RenderFields(fs));
    }
  }

  /** What an iteration of the object loop that went on must have seen. */
  lemma MembersStepSound(t: Text, p: nat, depth: int, acc: seq<Member>)
    returns (key: Text, q: nat, colon: nat, v: Json, r: nat)
    requires p <= |t| && ParseMembers(t, p, depth, acc).Done?
    ensures var k := SkipSpace(t, p);
      && k < q <= colon < |t| && Peek(t, k) == QUOTE && ParseString(t, k + 1, []) == Done(key, q)
      && !HasKey(acc, key) && colon == SkipSpace(t, q) && Peek(t, colon) == COLON
    ensures SkipSpace(t, colon + 1) < r <= |t| && ParseValue(t, SkipSpace(t, colon + 1), depth) == Done(v, r)
    ensures var s := SkipSpace(t, r);
      var m := acc + [Member(key, v)];
      && (Peek(t, s) == COMMA || Peek(t, s) == CLOSE_BRACE)
      && ParseMembers(t, p, depth, acc) ==
         if Peek(t, s) == COMMA then ParseMembers(t, s + 1, depth, m) else Done(JObject(m), s + 1)
  {
    var k := SkipSpace(t, p);
    var read := ParseString(t, k + 1, []);
    key, q := read.value, read.pos;
    colon := SkipSpace(t, q);
    var value := ParseValue(t, SkipSpace(t, colon + 1), depth);
    v, r := value.value, value.pos;
  }

  lemma QuotedSound(t: Text, k: nat) returns (ps: seq<Piece>)
    requires k < |t| && Peek(t, k) == QUOTE && ParseString(t, k + 1, []).Done?
    ensures ValidPieces(ps) && ParseString(t, k + 1, []) == Done(PiecesText(ps), k + |RenderString(ps)|)
    ensures At(t, k, RenderString(ps))
  {
    ps := StringSound(t, k + 1, []);
    assert [] + PiecesText(ps) == PiecesText(ps);
    assert RenderString(ps) == [QUOTE] + (RenderPieces(ps) + [QUOTE]);
    assert At(t, k, [QUOTE]);
    AtConcat(t, k, [QUOTE], RenderPieces(ps) + [QUOTE]);
  }

  /** One member as written, up to the character after it. */
  lemma {:induction false} FieldSound(t: Text, p: nat, depth: int, acc: seq<Member>) returns (f: Field)
    requires p <= |t| && ParseMembers(t, p, depth, acc).Done?
    ensures ValidFields([f], depth) && FieldAt(t, p, f)
    ensures !HasKey(acc, KeyText(f.key)) && p < SpotsOf(p, f).closing <= |t|
    ensures var s := SpotsOf(p, f).closing;
      var m := acc + [Member(KeyText(f.key), Value(f.value))];
      && (Peek(t, s) == COMMA || Peek(t, s) == CLOSE_BRACE)
      && ParseMembers(t, p, depth, acc) ==
         if Peek(t, s) == COMMA then ParseMembers(t, s + 1, depth, m) else Done(JObject(m), s + 1)
    decreases |t| - p, 2
  {
    hide At, SkipSpace, ParseValue, ParseMembers, ParseString, Render, Value, Valid, RenderString, PiecesText, HasKey;
    var key, q, colon, v, r := MembersStepSound(t, p, depth, acc);
    var k, start, s := SkipSpace(t, p), SkipSpace(t, colon + 1), SkipSpace(t, r);
    SkipSpaceStops(t, p);
    SkipSpaceStops(t, q);
    SkipSpaceStops(t, colon + 1);
    SkipSpaceStops(t, r);
    var ps := QuotedSound(t, k);
    var c := ValueSound(t, start, depth);
    f := Field(t[p..k], ps, t[q..colon], t[colon + 1..start], c, t[r..s]);
    AtSlice(t, p, k);
    AtSlice(t, q, colon);
    AtSlice(t, colon, colon + 1);
    AtSlice(t, colon + 1, start);
    AtSlice(t, r, s);
    assert t[colon..colon + 1] == [COLON];
  }

  lemma {:induction false} MembersSound(t: Text, p: nat, depth: int, acc: seq<Member>) returns (fs: seq<Field>)
    requires p <= |t| && ParseMembers(t, p, depth, acc).Done? && DistinctKeys(acc)
    ensures fs != [] && ValidFields(fs, depth) && At(t, p, RenderFields(fs))
    ensures DistinctKeys(acc + FieldMembers(fs))
    ensures ParseMembers(t, p, depth, acc) == Done(JObject(acc + FieldMembers(fs)), p + |RenderFields(fs)|)
    decreases |t| - p, 3
  {
    hide At, SkipSpace, ParseMembers, Render, Value, Valid, FieldText;
    var f := FieldSound(t, p, depth, acc);
    var m := Member(KeyText(f.key), Value(f.value));
    var s := SpotsOf(p, f).closing;
    AtSlice(t, s, s + 1);
    if Peek(t, s) == COMMA {
      var more := MembersSound(t, s + 1, depth, acc + [m]);
      fs := [f] + more;
      assert fs[1..] == more;
      assert t[s..s + 1] == [COMMA];
      AtConcat(t, s, [COMMA], RenderFields(more));
      assert acc + FieldMembers(fs) == acc + [m] + FieldMembers(more);
    } else {
      fs := [f];
      assert t[s..s + 1] == [CLOSE_BRACE];
      assert FieldMembers(fs) == [m];
    }
    FieldSplit(t, p, f, MoreFields(fs));
  }

  // ---- the theorem ------------------------------------------------------------------

  /** `t` is white space, a document denoting `j`, and white space. */
  ghost predicate Denotes(t: Text, j: Json) {
    exists before, c, after ::
      AllSpace(before) && AllSpace(after) && Valid(c, 0) && t == before + (Render(c) + after) && Value(c) == j
  }

  lemma DocumentStep(t: Text, v: Json, q: nat)
    requires q <= |t| && SkipSpace(t, 0) < |t| && ParseValue(t, SkipSpace(t, 0), 0) == Done(v, q)
    ensures SkipSpace(t, q) == |t| ==> ParseDocument(t) == Done(v, |t|)
  {
  }

  lemma DocumentReadsAt(t: Text, before: Text, c: Con, after: Text)
    requires AllSpace(before) && AllSpace(after) && Valid(c, 0)
    requires At(t, 0, before) && At(t, |before|, Render(c)) && At(t, |before| + |Render(c)|, after)
    requires |t| == |before| + |Render(c)| + |after|
    ensures ParseDocument(t) == Done(Value(c), |t|)
  {
    hide At, SkipSpace, ParseValue, ParseDocument, Render, Value, Valid;
    RenderStart(c, 0);
    PeekPart(t, |before|, Render(c));
    SkipSpaceReads(t, 0, before);
    PeekPart(t, |before| + |Render(c)|, after);
    ValueReads(t, |before|, c, 0);
    SkipSpaceReads(t, |before| + |Render(c)|, after);
    DocumentStep(t, Value(c), |before| + |Render(c)|);
  }

  lemma DocumentReads(t: Text, before: Text, c: Con, after: Text)
    requires AllSpace(before) && AllSpace(after) && Valid(c, 0) && t == before + (Render(c) + after)
    ensures ParseDocument(t) == Done(Value(c), |t|)
  {
    hide Render, Value, Valid, ParseDocument;
    assert At(t, 0, before + (Render(c) + after));
    hide At;
    AtConcat(t, 0, before, Render(c) + after);
    AtConcat(t, |before|, Render(c), after);
    DocumentReadsAt(t, before, c, after);
  }

  lemma DocumentSound(t: Text) returns (before: Text, c: Con, after: Text)
    requires ParseDocument(t).Done?
    ensures AllSpace(before) && AllSpace(after) && Valid(c, 0) && t == before + (Render(c) + after)
    ensures ParseDocument(t) == Done(Value(c), |t|)
  {
    hide Render, Value, Valid, ParseValue;
    var p := SkipSpace(t, 0);
    SkipSpaceStops(t, 0);
    c := ValueSound(t, p, 0);
    var q := p + |Render(c)|;
    assert SkipSpace(t, q) == |t|;
    SkipSpaceStops(t, q);
    before, after := t[..p], t[q..];
    assert t[0..p] == before && t[q..|t|] == after;
    hide SkipSpace, ParseDocument;
    assert t[p..q] == Render(c);
  }

  /** The parser accepts a text exactly when the grammar gives it a value, and returns that value. */
  lemma ParserIsTheGrammar(t: Text, j: Json)
    ensures ParseDocument(t) == Done(j, |t|) <==> Denotes(t, j)
    ensures ParseDocument(t).Done? ==> ParseDocument(t).pos == |t|
  {
    hide Render, Value, Valid, ParseDocument;
    if Denotes(t, j) {
      var before, c, after :|
        AllSpace(before) && AllSpace(after) && Valid(c, 0) && t == before + (Render(c) + after) && Value(c) == j;
      DocumentReads(t, before, c, after);
    }
    if ParseDocument(t).Done? {
      var before, c, after := DocumentSound(t);
      assert ParseDocument(t).value == j ==> Denotes(t, j);
    }
  }

  // ---- the nesting limit only rejects ------------------------------------------------

  /** With more room to nest, the parser reads the same values. */
  lemma {:induction false} ShallowerReads(t: Text, p: nat, deep: int, shallow: int)
    requires p <= |t| && shallow <= deep && ParseValue(t, p, deep).Done?
    ensures ParseValue(t, p, shallow) == ParseValue(t, p, deep)
    decreases |t| - p, 0
  {
    hide ParseItems, ParseMembers, ParseString, ParseNumber, ParseKeyword, SkipSpace;
    if Peek(t, p) == OPEN_BRACKET {
      var q := SkipSpace(t, p + 1);
      if Peek(t, q) != CLOSE_BRACKET {
        ShallowerItems(t, q, deep + 1, shallow + 1, []);
      }
    } else if Peek(t, p) == OPEN_BRACE {
      var q := SkipSpace(t, p + 1);
      if Peek(t, q) != CLOSE_BRACE {
        ShallowerMembers(t, q, deep + 1, shallow + 1, []);
      }
    }
  }

  lemma {:induction false} ShallowerItems(t: Text, p: nat, deep: int, shallow: int, acc: seq<Json>)
    requires p <= |t| && shallow <= deep && ParseItems(t, p, deep, acc).Done?
    ensures ParseItems(t, p, shallow, acc) == ParseItems(t, p, deep, acc)
    decreases |t| - p, 1
  {
    hide ParseValue, SkipSpace;
    ShallowerReads(t, SkipSpace(t, p), deep, shallow);
    var r := ParseValue(t, SkipSpace(t, p), deep);
    var s := SkipSpace(t, r.pos);
    if Peek(t, s) == COMMA {
      ShallowerItems(t, s + 1, deep, shallow, acc + [r.value]);
    }
  }

  lemma {:induction false} ShallowerMembers(t: Text, p: nat, deep: int, shallow: int, acc: seq<Member>)
    requires p <= |t| && shallow <= deep && ParseMembers(t, p, deep, acc).Done?
    ensures ParseMembers(t, p, shallow, acc) == ParseMembers(t, p, deep, acc)
    decreases |t| - p, 1
  {
    hide ParseValue, SkipSpace, ParseString, HasKey;
    var k := SkipSpace(t, p);
    var key := ParseString(t, k + 1, []);
    var start := SkipSpace(t, SkipSpace(t, key.pos) + 1);
    ShallowerReads(t, start, deep, shallow);
    var r := ParseValue(t, start, deep);
    var s := SkipSpace(t, r.pos);
    if Peek(t, s) == COMMA {
      ShallowerMembers(t, s + 1, deep, shallow, acc + [Member(key.value, r.value)]);
    }
  }

  /** A rendered value that nests too deeply for the parser is rejected, never misread. */
  lemma DeepTextIsNeverMisread(c: Con, room: int)
    requires room <= 0 && Valid(c, room)
    ensures ParseDocument(Render(c)).Done? ==> ParseDocument(Render(c)) == Done(Value(c), |Render(c)|)
  {
    var t := Render(c);
    if ParseDocument(t).Done? {
      hide Render, Value, Valid, ParseValue;
      RenderStart(c, room);
      assert SkipSpace(t, 0) == 0;
      ShallowerReads(t, 0, 0, room);
      assert At(t, 0, Render(c));
      ValueReads(t, 0, c, room);
    }
  }
}
