/**
 JSON trees and their concrete syntax. `Con` is RFC 8259's grammar as data: it
 records every choice a writer has (white space, escapes, member order), so that
 "text t denotes tree j" can be said without mentioning any parser.
 */
module Json {
  import opened Unicode

  function Code(c: char): Unit {
    if c as int < 0x80 then c as int else 0xFFFD
  }

  /** The text of an ASCII literal. */
  function U(s: string): Text {
    seq(|s|, i requires 0 <= i < |s| => Code(s[i]))
  }

  datatype Json =
    | JNull
    | JBool(bit: bool)
    | JNumber(raw: Text)
    | JString(text: Text)
    | JArray(items: seq<Json>)
    | JObject(members: seq<Member>)

  datatype Member = Member(key: Text, value: Json)

  predicate DistinctKeys(ms: seq<Member>) {
    forall i, j | 0 <= i < j < |ms| :: ms[i].key != ms[j].key
  }

  // ---- characters --------------------------------------------------------------

  const QUOTE: Unit := 0x22
  const BACKSLASH: Unit := 0x5c
  const COMMA: Unit := 0x2c
  const COLON: Unit := 0x3a
  const OPEN_BRACKET: Unit := 0x5b
  const CLOSE_BRACKET: Unit := 0x5d
  const OPEN_BRACE: Unit := 0x7b
  const CLOSE_BRACE: Unit := 0x7d
  const MINUS: Unit := 0x2d
  const DOT: Unit := 0x2e

  predicate Space(c: int) {
    c == 0x20 || c == 0x09 || c == 0x0a || c == 0x0d
  }

  predicate DigitChar(c: int) {
    0x30 <= c <= 0x39
  }

  predicate AllSpace(t: Text) {
    forall i | 0 <= i < |t| :: Space(t[i])
  }

  predicate AllDigits(t: Text) {
    forall i | 0 <= i < |t| :: DigitChar(t[i])
  }

  /** The value of a hex digit, or -1. */
  function HexDigit(c: int): int {
    if 0x30 <= c <= 0x39 then c - 0x30
    else if 0x61 <= c <= 0x66 then c - 0x61 + 10
    else if 0x41 <= c <= 0x46 then c - 0x41 + 10
    else -1
  }

  // ---- strings -----------------------------------------------------------------

  /** One character of a string as written: itself, `\x`, or `\uXXXX`. */
  datatype Piece = Raw(unit: Unit) | Short(letter: Unit) | Hex(d0: Unit, d1: Unit, d2: Unit, d3: Unit)

  /** The unit a two-character escape stands for, or -1. */
  function ShortEscape(letter: int): int {
    if letter == 0x22 || letter == 0x5c || letter == 0x2f then letter
    else if letter == 0x62 then 0x08
    else if letter == 0x66 then 0x0c
    else if letter == 0x6e then 0x0a
    else if letter == 0x72 then 0x0d
    else if letter == 0x74 then 0x09
    else -1
  }

  predicate ValidPiece(p: Piece) {
    match p
    case Raw(u) => u > 0x1f && u != QUOTE && u != BACKSLASH
    case Short(c) => ShortEscape(c) >= 0
    case Hex(a, b, c, d) => HexDigit(a) >= 0 && HexDigit(b) >= 0 && HexDigit(c) >= 0 && HexDigit(d) >= 0
  }

  function PieceUnit(p: Piece): Unit
    requires ValidPiece(p)
  {
    match p
    case Raw(u) => u
    case Short(c) => ShortEscape(c)
    case Hex(a, b, c, d) => ((HexDigit(a) * 16 + HexDigit(b)) * 16 + HexDigit(c)) * 16 + HexDigit(d)
  }

  function RenderPiece(p: Piece): Text {
    match p
    case Raw(u) => [u]
    case Short(c) => [BACKSLASH, c]
    case Hex(a, b, c, d) => [BACKSLASH, 0x75, a, b, c, d]
  }

  predicate ValidPieces(ps: seq<Piece>) {
    forall p | p in ps :: ValidPiece(p)
  }

  function PiecesText(ps: seq<Piece>): Text
    requires ValidPieces(ps)
  {
    if ps == [] then [] else [PieceUnit(ps[0])] + PiecesText(ps[1..])
  }

  function RenderPieces(ps: seq<Piece>): Text {
    if ps == [] then [] else RenderPiece(ps[0]) + RenderPieces(ps[1..])
  }

  function RenderString(ps: seq<Piece>): Text {
    [QUOTE] + RenderPieces(ps) + [QUOTE]
  }

  // ---- numbers -----------------------------------------------------------------

  predicate IsInt(t: Text) {
    |t| > 0 && AllDigits(t) && (t[0] == 0x30 ==> |t| == 1)
  }

  predicate IsFraction(t: Text) {
    t == [] || (|t| > 1 && t[0] == DOT && AllDigits(t[1..]))
  }

  predicate Sign(c: int) {
    c == 0x2b || c == 0x2d
  }

  predicate IsExponent(t: Text) {
    || t == []
    || (|t| > 1 && (t[0] == 0x65 || t[0] == 0x45) && AllDigits(t[1..]))
    || (|t| > 2 && (t[0] == 0x65 || t[0] == 0x45) && Sign(t[1]) && AllDigits(t[2..]))
  }

  predicate IsSign(t: Text) {
    t == [] || t == [MINUS]
  }

  predicate NumberParts(raw: Text, sign: Text, whole: Text, fraction: Text, exponent: Text) {
    raw == sign + whole + fraction + exponent
    && IsSign(sign) && IsInt(whole) && IsFraction(fraction) && IsExponent(exponent)
  }

  /** `-?(0|[1-9][0-9]*)(\.[0-9]+)?([eE][+-]?[0-9]+)?` */
  ghost predicate IsNumber(raw: Text) {
    exists s, i, f, e :: NumberParts(raw, s, i, f, e)
  }

  // ---- values ------------------------------------------------------------------

  datatype Con =
    | CNull
    | CBool(bit: bool)
    | CNumber(raw: Text)
    | CString(pieces: seq<Piece>)
    | CArray(pad: Text, elems: seq<Elem>)
    | CObject(pad: Text, fields: seq<Field>)

  datatype Elem = Elem(before: Text, value: Con, after: Text)

  datatype Field =
    Field(before: Text, key: seq<Piece>, beforeColon: Text, afterColon: Text, value: Con, after: Text)

  function Render(c: Con): Text
    decreases c, 2
  {
    match c
    case CNull => U("null")
    case CBool(b) => if b then U("true") else U("false")
    case CNumber(raw) => raw
    case CString(ps) => RenderString(ps)
    case CArray(pad, es) => [OPEN_BRACKET] + if es == [] then pad + [CLOSE_BRACKET] else RenderElems(es)
    case CObject(pad, fs) => [OPEN_BRACE] + if fs == [] then pad + [CLOSE_BRACE] else RenderFields(fs)
  }

  function ElemText(e: Elem, value: Text, more: Text): Text {
    e.before + (value + (e.after + more))
  }

  /** The elements, their commas and the closing bracket. */
  function RenderElems(es: seq<Elem>): Text
    requires es != []
    decreases es, 1
  {
    ElemText(es[0], Render(es[0].value), MoreElems(es))
  }

  function MoreElems(es: seq<Elem>): Text
    requires es != []
    decreases es, 0
  {
    if |es| == 1 then [CLOSE_BRACKET] else [COMMA] + RenderElems(es[1..])
  }

  function FieldText(f: Field, key: Text, value: Text, more: Text): Text {
    f.before + (key + (f.beforeColon + ([COLON] + (f.afterColon + (value + (f.after + more))))))
  }

  /** The members, their commas and the closing brace. */
  function RenderFields(fs: seq<Field>): Text
    requires fs != []
    decreases fs, 1
  {
    FieldText(fs[0], RenderString(fs[0].key), Render(fs[0].value), MoreFields(fs))
  }

  function MoreFields(fs: seq<Field>): Text
    requires fs != []
    decreases fs, 0
  {
    if |fs| == 1 then [CLOSE_BRACE] else [COMMA] + RenderFields(fs[1..])
  }

  /** Maximum structural nesting depth the parser descends into. */
  const MAX_STRUCTURAL_DEPTH := 4096

  /** A document of the grammar, nested at `depth`, with unique keys and bounded nesting. */
  ghost predicate Valid(c: Con, depth: int)
    decreases c, 1
  {
    match c
    case CNull => true
    case CBool(_) => true
    case CNumber(raw) => IsNumber(raw)
    case CString(ps) => ValidPieces(ps)
    case CArray(pad, es) =>
      depth < MAX_STRUCTURAL_DEPTH && AllSpace(pad) && ValidElems(es, depth + 1)
    case CObject(pad, fs) =>
      depth < MAX_STRUCTURAL_DEPTH && AllSpace(pad) && ValidFields(fs, depth + 1)
      && DistinctKeys(FieldMembers(fs))
  }

  ghost predicate ValidElems(es: seq<Elem>, depth: int)
    decreases es, 0
  {
    es == [] ||
    (AllSpace(es[0].before) && AllSpace(es[0].after) && Valid(es[0].value, depth) && ValidElems(es[1..], depth))
  }

  ghost predicate ValidFields(fs: seq<Field>, depth: int)
    decreases fs, 0
  {
    fs == [] ||
    (AllSpace(fs[0].before) && AllSpace(fs[0].beforeColon) && AllSpace(fs[0].afterColon) && AllSpace(fs[0].after)
     && ValidPieces(fs[0].key) && Valid(fs[0].value, depth) && ValidFields(fs[1..], depth))
  }

  function KeyText(ps: seq<Piece>): Text {
    if ValidPieces(ps) then PiecesText(ps) else []
  }

  function Value(c: Con): Json
    decreases c, 1
  {
    match c
    case CNull => JNull
    case CBool(b) => JBool(b)
    case CNumber(raw) => JNumber(raw)
    case CString(ps) => JString(KeyText(ps))
    case CArray(_, es) => JArray(ElemValues(es))
    case CObject(_, fs) => JObject(FieldMembers(fs))
  }

  function ElemValues(es: seq<Elem>): (r: seq<Json>)
    ensures |r| == |es|
    decreases es, 0
  {
    if es == [] then [] else [Value(es[0].value)] + ElemValues(es[1..])
  }

  function FieldMembers(fs: seq<Field>): (r: seq<Member>)
    ensures |r| == |fs|
    decreases fs, 0
  {
    if fs == [] then [] else [Member(KeyText(fs[0].key), Value(fs[0].value))] + FieldMembers(fs[1..])
  }
}
