/** The strict recursive-descent parser (src/judging/codec/json.ts), as a function of text and position. */
module JsonParser {
  import opened Unicode
  import opened Json

  datatype Fault =
    | UnexpectedEnd
    | UnexpectedCharacter
    | TrailingContent
    | InvalidLiteral
    | InvalidNumber
    | UnterminatedString
    | ControlCharacter
    | InvalidEscape
    | InvalidHexEscape
    | ExpectedKey
    | DuplicateKey
    | ExpectedColon
    | TooDeep

  /** A value and the position after it, or the fault and where it was detected. */
  datatype Parsed<+T> = Done(value: T, pos: nat) | Abort(fault: Fault, at: nat)

  function Peek(t: Text, p: nat): int {
    if p < |t| then t[p] else -1
  }

  function SkipSpace(t: Text, p: nat): (q: nat)
    requires p <= |t|
    ensures p <= q <= |t|
    decreases |t| - p
  {
    if Space(Peek(t, p)) then SkipSpace(t, p + 1) else p
  }

  function SkipDigits(t: Text, p: nat): (q: nat)
    requires p <= |t|
    ensures p <= q <= |t|
    decreases |t| - p
  {
    if DigitChar(Peek(t, p)) then SkipDigits(t, p + 1) else p
  }

  function Unexpected(t: Text, p: nat): Parsed<Json> {
    Abort(if p >= |t| then UnexpectedEnd else UnexpectedCharacter, p)
  }

  predicate StartsWith(t: Text, p: nat, word: Text) {
    p + |word| <= |t| && t[p..p + |word|] == word
  }

  function ParseKeyword(t: Text, p: nat, word: Text, value: Json): Parsed<Json> {
    if StartsWith(t, p, word) then Done(value, p + |word|) else Abort(InvalidLiteral, p)
  }

  // ---- numbers -----------------------------------------------------------------

  function IntegerEnd(t: Text, p: nat): (q: int)
    requires p <= |t|
    ensures q == -1 || p < q <= |t|
  {
    var first := Peek(t, p);
    if first == 0x30 then p + 1
    else if 0x31 <= first <= 0x39 then SkipDigits(t, p + 1)
    else -1
  }

  function FractionEnd(t: Text, p: nat): (q: int)
    requires p <= |t|
    ensures q == -1 || p <= q <= |t|
  {
    if Peek(t, p) != DOT then p
    else if !DigitChar(Peek(t, p + 1)) then -1
    else SkipDigits(t, p + 1)
  }

  function ExponentEnd(t: Text, p: nat): (q: int)
    requires p <= |t|
    ensures q == -1 || p <= q <= |t|
  {
    var marker := Peek(t, p);
    if marker != 0x65 && marker != 0x45 then p
    else
      var digits := if Sign(Peek(t, p + 1)) then p + 2 else p + 1;
      if !DigitChar(Peek(t, digits)) then -1 else SkipDigits(t, digits)
  }

  function ParseNumber(t: Text, p: nat): (r: Parsed<Text>)
    requires p <= |t|
    ensures r.Done? ==> p < r.pos <= |t|
  {
    var afterSign := if Peek(t, p) == MINUS then p + 1 else p;
    var afterInt := IntegerEnd(t, afterSign);
    if afterInt == -1 then Abort(InvalidNumber, p)
    else
      var afterFraction := FractionEnd(t, afterInt);
      if afterFraction == -1 then Abort(InvalidNumber, p)
      else
        var end := ExponentEnd(t, afterFraction);
        if end == -1 then Abort(InvalidNumber, p) else Done(t[p..end], end)
  }

  // ---- strings -----------------------------------------------------------------

  /** Four hex digits from `p`, or -1. */
  function Hex4(t: Text, p: nat): (r: int)
    ensures -1 <= r < 0x10000
    ensures r >= 0 ==> p + 4 <= |t|
  {
    var a, b, c, d := HexDigit(Peek(t, p)), HexDigit(Peek(t, p + 1)), HexDigit(Peek(t, p + 2)), HexDigit(Peek(t, p + 3));
    if a < 0 || b < 0 || c < 0 || d < 0 then -1 else ((a * 16 + b) * 16 + c) * 16 + d
  }

  /** The unit denoted by the escape whose backslash is at `p`. */
  function ParseEscape(t: Text, p: nat): (r: Parsed<Unit>)
    ensures r.Done? ==> p + 1 < r.pos <= |t|
  {
    var letter := Peek(t, p + 1);
    if letter == 0x75 then
      var u := Hex4(t, p + 2);
      if u < 0 then Abort(InvalidHexEscape, p) else Done(u, p + 6)
    else if ShortEscape(letter) >= 0 then Done(ShortEscape(letter), p + 2)
    else Abort(InvalidEscape, p)
  }

  /** The rest of a string whose part before `p` is `out`. */
  function ParseString(t: Text, p: nat, out: Text): (r: Parsed<Text>)
    requires p <= |t|
    ensures r.Done? ==> p < r.pos <= |t|
    decreases |t| - p
  {
    if p == |t| then Abort(UnterminatedString, p)
    else if t[p] == QUOTE then Done(out, p + 1)
    else if t[p] == BACKSLASH then
      match ParseEscape(t, p)
      case Done(u, q) => ParseString(t, q, out + [u])
      case Abort(f, at) => Abort(f, at)
    else if t[p] <= 0x1f then Abort(ControlCharacter, p)
    else ParseString(t, p + 1, out + [t[p]])
  }

  // ---- values ------------------------------------------------------------------

  function ParseValue(t: Text, p: nat, depth: int): (r: Parsed<Json>)
    requires p <= |t|
    ensures r.Done? ==> p < r.pos <= |t|
    decreases |t| - p, 0
  {
    var c := Peek(t, p);
    if c == OPEN_BRACE then
      if depth + 1 > MAX_STRUCTURAL_DEPTH then Abort(TooDeep, p)
      else
        var q := SkipSpace(t, p + 1);
        if Peek(t, q) == CLOSE_BRACE then Done(JObject([]), q + 1) else ParseMembers(t, q, depth + 1, [])
    else if c == OPEN_BRACKET then
      if depth + 1 > MAX_STRUCTURAL_DEPTH then Abort(TooDeep, p)
      else
        var q := SkipSpace(t, p + 1);
        if Peek(t, q) == CLOSE_BRACKET then Done(JArray([]), q + 1) else ParseItems(t, q, depth + 1, [])
    else if c == QUOTE then
      match ParseString(t, p + 1, [])
      case Done(s, q) => Done(JString(s), q)
      case Abort(f, at) => Abort(f, at)
    else if c == 0x74 then ParseKeyword(t, p, U("true"), JBool(true))
    else if c == 0x66 then ParseKeyword(t, p, U("false"), JBool(false))
    else if c == 0x6e then ParseKeyword(t, p, U("null"), JNull)
    else if c == MINUS || DigitChar(c) then
      match ParseNumber(t, p)
      case Done(raw, q) => Done(JNumber(raw), q)
      case Abort(f, at) => Abort(f, at)
    else Unexpected(t, p)
  }

  /** The loop of parseArray, `items` having been read. */
  function ParseItems(t: Text, p: nat, depth: int, items: seq<Json>): (r: Parsed<Json>)
    requires p <= |t|
    ensures r.Done? ==> p < r.pos <= |t|
    decreases |t| - p, 1
  {
    match ParseValue(t, SkipSpace(t, p), depth)
    case Abort(f, at) => Abort(f, at)
    case Done(v, q) =>
      var s := SkipSpace(t, q);
      if Peek(t, s) == COMMA then ParseItems(t, s + 1, depth, items + [v])
      else if Peek(t, s) == CLOSE_BRACKET then Done(JArray(items + [v]), s + 1)
      else Unexpected(t, s)
  }

  predicate HasKey(ms: seq<Member>, key: Text) {
    exists i | 0 <= i < |ms| :: ms[i].key == key
  }

  /** The loop of parseObject, `members` having been read. */
  function ParseMembers(t: Text, p: nat, depth: int, members: seq<Member>): (r: Parsed<Json>)
    requires p <= |t|
    ensures r.Done? ==> p < r.pos <= |t|
    decreases |t| - p, 2
  {
    ParseMemberAt(t, SkipSpace(t, p), depth, members)
  }

  /** One iteration, white space before the key having been skipped. */
  function ParseMemberAt(t: Text, k: nat, depth: int, members: seq<Member>): (r: Parsed<Json>)
    requires k <= |t|
    ensures r.Done? ==> k < r.pos <= |t|
    decreases |t| - k, 1
  {
    if Peek(t, k) != QUOTE then Abort(ExpectedKey, k)
    else
      match ParseString(t, k + 1, [])
      case Abort(f, at) => Abort(f, at)
      case Done(key, q) =>
        if HasKey(members, key) then Abort(DuplicateKey, k)
        else
          var colon := SkipSpace(t, q);
          if Peek(t, colon) != COLON then Abort(ExpectedColon, colon)
          else
            match ParseValue(t, SkipSpace(t, colon + 1), depth)
            case Abort(f, at) => Abort(f, at)
            case Done(v, r) =>
              var s := SkipSpace(t, r);
              if Peek(t, s) == COMMA then ParseMembers(t, s + 1, depth, members + [Member(key, v)])
              else if Peek(t, s) == CLOSE_BRACE then Done(JObject(members + [Member(key, v)]), s + 1)
              else Unexpected(t, s)
  }

  function ParseDocument(t: Text): Parsed<Json> {
    var p := SkipSpace(t, 0);
    if p == |t| then Abort(UnexpectedEnd, p)
    else
      match ParseValue(t, p, 0)
      case Abort(f, at) => Abort(f, at)
      case Done(v, q) =>
        var end := SkipSpace(t, q);
        if end < |t| then Abort(TrailingContent, end) else Done(v, end)
  }
}
