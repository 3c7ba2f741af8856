/** Values the encoder writes and the decoder does not take back: the two families the round trip excludes. */
module CodecLimits {
  import opened Wrappers
  import opened Unicode
  import opened Json
  import V = Values
  import opened Encoding
  import opened Canonical
  import opened Codec
  import Forms
  import W = JsonPrinter

  function Enum(name: Text, member: Text, payload: Value): Value {
    V.Node(V.SEnum(name, member), [payload])
  }

  /** Enums nested `n` deep around null. */
  function Tower(n: nat): Value {
    if n == 0 then V.Leaf(V.LNull) else Enum([0x45], [0x4d], Tower(n - 1))
  }

  lemma EnumEncodes(name: Text, member: Text, payload: Value)
    requires Enc(payload).Some? && WellFormed(name) && WellFormed(member)
    ensures Enc(Enum(name, member, payload)).Some?
  {
    hide WellFormed, Forms.Fill;
    var kids := [payload];
    assert EncAll(kids[1..]) == Some([]);
    assert EncAll(kids).Some?;
  }

  lemma OnlyKid(payload: Value, side: V.Side)
    ensures V.Counts([payload]) == V.Count(payload) && V.Depths([payload], side) == V.Depth(payload, side)
  {
    assert [payload][1..] == [];
    assert V.Counts([payload][1..]) == 0 && V.Depths([payload][1..], side) == 0;
  }

  lemma EnumMeasures(name: Text, member: Text, payload: Value)
    ensures var v := Enum(name, member, payload);
      && V.Count(v) == 1 + V.Count(payload)
      && V.Depth(v, V.Encoder) == V.Depth(payload, V.Encoder)
      && V.Depth(v, V.Decoder) == 1 + V.Depth(payload, V.Decoder)
      && (Named(v) <==> name != [] && member != [] && Named(payload))
  {
    var v := Enum(name, member, payload);
    OnlyKid(payload, V.Encoder);
    OnlyKid(payload, V.Decoder);
    if Named(v) {
      assert Named(v.kids[0]);
    }
  }

  lemma NullMeasures()
    ensures var v := V.Leaf(V.LNull);
      && Enc(v).Some? && V.Count(v) == 1 && Named(v) && V.Depth(v, V.Encoder) == V.Depth(v, V.Decoder) == 0
  {
  }

  lemma {:induction false} TowerMeasures(n: nat)
    ensures Enc(Tower(n)).Some? && V.Count(Tower(n)) == n + 1 && Named(Tower(n))
    ensures V.Depth(Tower(n), V.Encoder) == 0 && V.Depth(Tower(n), V.Decoder) == n
  {
    hide Enc, V.Count, V.Depth, Named;
    if n == 0 {
      NullMeasures();
    } else {
      TowerMeasures(n - 1);
      assert WellFormed([0x45]) && WellFormed([0x4d]);
      EnumEncodes([0x45], [0x4d], Tower(n - 1));
      EnumMeasures([0x45], [0x4d], Tower(n - 1));
    }
  }

  /** Nested enums cost the encoder no depth: up to the node limit they are written, beyond 256 they are not read. */
  lemma TowersAreReadTo256(n: nat)
    requires n < 1_000_000
    ensures Encode(Tower(n)).Some?
    ensures Decode(Encode(Tower(n)).value).Some? <==> n <= 256
  {
    hide Enc, V.Count, V.Depth, Named, Decode, Norm;
    TowerMeasures(n);
    RoundTrip(Tower(n));
  }

  /** Lists nested `n` deep around null. */
  function Nest(n: nat): Value {
    if n == 0 then V.Leaf(V.LNull) else V.Node(V.SList(false), [Nest(n - 1)])
  }

  lemma ListEncodes(kids: seq<Value>)
    requires EncAll(kids).Some?
    ensures Enc(V.Node(V.SList(false), kids)).Some?
  {
    hide Forms.Fill;
  }

  lemma {:induction false} NestMeasures(n: nat)
    ensures Enc(Nest(n)).Some? && V.Count(Nest(n)) == n + 1 && V.Depth(Nest(n), V.Encoder) == n
  {
    hide Enc, V.Count, V.Depth;
    if n == 0 {
      NullMeasures();
    } else {
      NestMeasures(n - 1);
      OneListMeasures(Nest(n - 1));
    }
  }

  lemma OneListMeasures(payload: Value)
    requires Enc(payload).Some?
    ensures var v := V.Node(V.SList(false), [payload]);
      Enc(v).Some? && V.Count(v) == 1 + V.Count(payload) && V.Depth(v, V.Encoder) == 1 + V.Depth(payload, V.Encoder)
  {
    hide Forms.Fill;
    OnlyKid(payload, V.Encoder);
    assert EncAll([payload][1..]) == Some([]);
    assert EncAll([payload]).Some?;
    ListEncodes([payload]);
  }

  /** Lists may be nested 256 deep and no deeper. */
  lemma ListsNestTo256(n: nat)
    ensures Encode(Nest(n)).Some? <==> n <= 256
  {
    hide Enc, V.Count, V.Depth;
    NestMeasures(n);
  }

  /** `n` nulls. */
  function Nulls(n: nat): seq<Value> {
    if n == 0 then [] else [V.Leaf(V.LNull)] + Nulls(n - 1)
  }

  lemma {:induction false} NullsMeasure(n: nat)
    ensures EncAll(Nulls(n)).Some? && V.Counts(Nulls(n)) == n && V.Depths(Nulls(n), V.Encoder) == 0
  {
    hide Enc, V.Count, V.Depth;
    if n > 0 {
      NullMeasures();
      NullsMeasure(n - 1);
      assert Nulls(n)[1..] == Nulls(n - 1);
    }
  }

  /** A value may have a million nodes and no more. */
  lemma NodesAreLimitedToAMillion(n: nat)
    ensures Encode(V.Node(V.SList(false), Nulls(n))).Some? <==> n + 1 <= 1_000_000
  {
    hide Enc;
    NullsMeasure(n);
    ListEncodes(Nulls(n));
  }

  /** An enum with an empty type or member name is written but not read. */
  lemma NamelessEnumIsNotRead(name: Text, member: Text)
    requires WellFormed(name) && WellFormed(member)
    ensures var v := Enum(name, member, V.Leaf(V.LNull));
      Encode(v).Some? && (Decode(Encode(v).value).Some? <==> name != [] && member != [])
  {
    hide V.Count, Decode, Norm, WellFormed, Enc, V.Depth, Named;
    NullMeasures();
    EnumEncodes(name, member, V.Leaf(V.LNull));
    EnumMeasures(name, member, V.Leaf(V.LNull));
    RoundTrip(Enum(name, member, V.Leaf(V.LNull)));
  }

  const LONE: Text := [0xD800]

  lemma LonePath()
    ensures !WellFormed(LONE) && IsRelativePath(LONE, false)
  {
    var rest := Split(LONE[1..], SLASH);
    assert rest == [[]] && rest[1..] == [];
    assert [LONE[0]] + rest[0] == LONE;
    assert Split(LONE, SLASH) == [LONE];
  }

  /** A path may hold a lone surrogate: the encoder writes and the decoder reads it, but Python's serializer writes another text. */
  lemma PathsMayBeIllFormed()
    ensures var v := V.Leaf(V.LPath(LONE, false));
      Encode(v).Some? && Decode(Encode(v).value) == Some(v)
    ensures RenderString(W.PlainPieces(LONE)) != W.JsonString(LONE)
  {
    var v := V.Leaf(V.LPath(LONE, false));
    LonePath();
    W.SerializersAgreeIffWellFormed(LONE);
    hide Decode, RenderString, W.JsonString, W.PlainPieces, IsRelativePath, WellFormed, Forms.Fill;
    RoundTrip(v);
  }
}
