/**
 The codec over bytes (src/judging/codec/tagged-jsonl-v1.ts). TextDecoder is the
 platform's; its fatal mode is taken to be the inverse of UTF-8 encoding.
 */
module CodecWire {
  import opened Wrappers
  import opened Unicode
  import V = Values
  import E = Encoding
  import opened Canonical
  import T = Trees
  import opened Codec

  const MAX_PAYLOAD_BYTES := 16 * 1024 * 1024

  /** Fatal decoding: the UTF-16 text of the code points whose UTF-8 form the bytes are, if any. */
  ghost function DecodeUtf8(bytes: seq<Byte>): Option<Text> {
    if exists cs :: Utf8(cs) == bytes then
      var cs :| Utf8(cs) == bytes;
      Some(Utf16(cs))
    else None
  }

  lemma Utf8Injective(cs: seq<Scalar>, ds: seq<Scalar>)
    requires Utf8(cs) == Utf8(ds)
    ensures cs == ds
  {
    Utf8KeepsOrder(cs, ds);
    Utf8KeepsOrder(ds, cs);
    LessTrichotomy(cs, ds);
    LessTrichotomy(Utf8(cs), Utf8(ds));
  }

  /** Text survives the trip through bytes exactly when it has no lone surrogate. */
  lemma Utf8RoundTrip(t: Text)
    ensures DecodeUtf8(EncodeUtf8(t)) == Some(t) <==> WellFormed(t)
  {
    assert Utf8(Scalars(t)) == EncodeUtf8(t);
    var cs :| Utf8(cs) == EncodeUtf8(t) && DecodeUtf8(EncodeUtf8(t)) == Some(Utf16(cs));
    Utf8Injective(cs, Scalars(t));
    Utf16IsWellFormed(cs);
    if WellFormed(t) {
      WellFormedIsUtf16(t);
    }
  }

  /** `codec.encode` */
  function EncodeBytes(v: Value): Option<seq<Byte>> {
    match Encode(v)
    case None => None
    case Some(t) => if |EncodeUtf8(t)| <= MAX_PAYLOAD_BYTES then Some(EncodeUtf8(t)) else None
  }

  /** A payload may have 16 MiB and no more. */
  lemma PayloadsAreLimitedTo16MiB(v: Value)
    ensures EncodeBytes(v).Some? <==> Encode(v).Some? && |EncodeUtf8(Encode(v).value)| <= 16_777_216
    ensures EncodeBytes(v).Some? ==> EncodeBytes(v).value == EncodeUtf8(Encode(v).value)
  {
    hide Encode, EncodeUtf8;
  }

  /** `codec.decode` */
  ghost function DecodeBytes(bytes: seq<Byte>): Option<Value> {
    if |bytes| > MAX_PAYLOAD_BYTES then None
    else
      match DecodeUtf8(bytes)
      case None => None
      case Some(t) => Decode(t)
  }

  lemma EncodedIsWellFormed(v: Value)
    requires Encode(v).Some?
    ensures WellFormed(Encode(v).value)
  {
    hide TextOf, Canon, Norm;
    EncWritesNorm(v);
    T.TextWellFormed(Norm(v));
  }

  /** The round trip over bytes. */
  lemma WireRoundTrip(v: Value)
    requires EncodeBytes(v).Some?
    ensures DecodeBytes(EncodeBytes(v).value) ==
            if V.Depth(v, V.Decoder) <= V.MAX_DEPTH && Named(v) then Some(Norm(v)) else None
  {
    hide Encode, Decode, Norm, Named, EncodeUtf8, DecodeUtf8;
    EncodedIsWellFormed(v);
    Utf8RoundTrip(Encode(v).value);
    RoundTrip(v);
  }

  /** Bytes are equal exactly when normal forms are. */
  lemma WireInjective(v: Value, w: Value)
    requires EncodeBytes(v).Some? && EncodeBytes(w).Some?
    ensures EncodeBytes(v) == EncodeBytes(w) <==> Norm(v) == Norm(w)
  {
    hide Encode, Norm, EncodeUtf8, DecodeUtf8;
    EncodedIsWellFormed(v);
    EncodedIsWellFormed(w);
    Utf8RoundTrip(Encode(v).value);
    Utf8RoundTrip(Encode(w).value);
    EncodingIsInjective(v, w);
  }
}
