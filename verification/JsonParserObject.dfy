/** The parser as the source writes it: a cursor and a depth that the methods advance. */
module JsonParserObject {
  import opened Wrappers
  import opened Unicode
  import opened Json
  import S = JsonParser

  datatype Failure = Failure(fault: S.Fault, position: nat)

  class Parser {
    const text: Text
    var pos: nat
    var depth: nat

    constructor (text: Text)
      ensures this.text == text && pos == 0 && depth == 0
    {
      this.text := text;
      pos, depth := 0, 0;
    }

    /** A method did what the specification says: the value and the new cursor, or the failure. */
    ghost predicate Did<T>(spec: S.Parsed<T>, r: Result<T, Failure>)
      reads this
    {
      match spec
      case Done(v, q) => r == Ok(v) && pos == q <= |text|
      case Abort(f, at) => r == Err(Failure(f, at))
    }

    method Peek() returns (code: int)
      ensures code == S.Peek(text, pos)
    {
      code := if pos < |text| then text[pos] else -1;
    }

    method SkipWhitespace()
      requires pos <= |text|
      modifies this`pos
      ensures pos == S.SkipSpace(text, old(pos))
    {
      while pos < |text| && Space(text[pos])
        invariant pos <= |text|
        invariant S.SkipSpace(text, pos) == S.SkipSpace(text, old(pos))
      {
        pos := pos + 1;
      }
    }

    method SkipDigits()
      requires pos <= |text|
      modifies this`pos
      ensures pos == S.SkipDigits(text, old(pos))
    {
      while pos < |text| && DigitChar(text[pos])
        invariant pos <= |text|
        invariant S.SkipDigits(text, pos) == S.SkipDigits(text, old(pos))
      {
        pos := pos + 1;
      }
    }

    method ParseKeyword(word: Text, value: Json) returns (r: Result<Json, Failure>)
      requires pos <= |text|
      modifies this`pos
      ensures Did(S.ParseKeyword(text, old(pos), word, value), r)
    {
      var start := pos;
      var i := 0;
      while i < |word|
        invariant 0 <= i <= |word| && pos == start + i <= |text|
        invariant text[start..start + i] == word[..i]
      {
        var code := Peek();
        if code != word[i] {
          if start + |word| <= |text| {
            assert text[start..start + |word|][i] == text[start + i];
          }
          return Err(Failure(S.InvalidLiteral, start));
        }
        pos := pos + 1;
        i := i + 1;
      }
      assert word[..|word|] == word;
      return Ok(value);
    }

    /** The parts of a number: each advances past its part, or reports that it is malformed. */
    method IntegerPart() returns (ok: bool)
      requires pos <= |text|
      modifies this`pos
      ensures ok <==> S.IntegerEnd(text, old(pos)) != -1
      ensures ok ==> pos == S.IntegerEnd(text, old(pos))
    {
      var first := Peek();
      if first == 0x30 {
        pos := pos + 1;
      } else if 0x31 <= first <= 0x39 {
        pos := pos + 1;
        SkipDigits();
      } else {
        return false;
      }
      return true;
    }

    method FractionPart() returns (ok: bool)
      requires pos <= |text|
      modifies this`pos
      ensures ok <==> S.FractionEnd(text, old(pos)) != -1
      ensures ok ==> pos == S.FractionEnd(text, old(pos))
    {
      var code := Peek();
      if code == DOT {
        pos := pos + 1;
        code := Peek();
        if !DigitChar(code) { return false; }
        SkipDigits();
      }
      return true;
    }

    method ExponentPart() returns (ok: bool)
      requires pos <= |text|
      modifies this`pos
      ensures ok <==> S.ExponentEnd(text, old(pos)) != -1
      ensures ok ==> pos == S.ExponentEnd(text, old(pos))
    {
      var marker := Peek();
      if marker == 0x65 || marker == 0x45 {
        pos := pos + 1;
        var code := Peek();
        if Sign(code) {
          pos := pos + 1;
        }
        code := Peek();
        if !DigitChar(code) { return false; }
        SkipDigits();
      }
      return true;
    }

    method ParseNumber() returns (r: Result<Text, Failure>)
      requires pos <= |text|
      modifies this`pos
      ensures Did(S.ParseNumber(text, old(pos)), r)
    {
      hide S.IntegerEnd, S.FractionEnd, S.ExponentEnd;
      var start := pos;
      var code := Peek();
      if code == MINUS {
        pos := pos + 1;
      }
      var ok := IntegerPart();
      if !ok { return Err(Failure(S.InvalidNumber, start)); }
      ok := FractionPart();
      if !ok { return Err(Failure(S.InvalidNumber, start)); }
      ok := ExponentPart();
      if !ok { return Err(Failure(S.InvalidNumber, start)); }
      return Ok(text[start..pos]);
    }

    /** The escape whose backslash is at the cursor. */
    method ParseEscape() returns (r: Result<Unit, Failure>)
      requires pos < |text|
      modifies this`pos
      ensures Did(S.ParseEscape(text, old(pos)), r)
    {
      var start := pos;
      pos := pos + 1;
      var letter := Peek();
      if letter == 0x75 {
        pos := pos + 1;
        var value := 0;
        var i := 0;
        while i < 4
          invariant 0 <= i <= 4 && pos == start + 2 + i
          invariant 0 <= value
          invariant i > 0 ==> HexDigit(S.Peek(text, start + 2)) >= 0 && pos <= |text|
          invariant i > 1 ==> HexDigit(S.Peek(text, start + 3)) >= 0
          invariant i > 2 ==> HexDigit(S.Peek(text, start + 4)) >= 0
          invariant i > 3 ==> HexDigit(S.Peek(text, start + 5)) >= 0
          invariant i == 0 ==> value == 0
          invariant i == 1 ==> value == HexDigit(S.Peek(text, start + 2))
          invariant i == 2 ==> value == HexDigit(S.Peek(text, start + 2)) * 16 + HexDigit(S.Peek(text, start + 3))
          invariant i == 3 ==> value == (HexDigit(S.Peek(text, start + 2)) * 16 + HexDigit(S.Peek(text, start + 3))) * 16
                                        + HexDigit(S.Peek(text, start + 4))
          invariant i == 4 ==> value == S.Hex4(text, start + 2)
        {
          var code := Peek();
          var digit := HexDigit(code);
          if digit == -1 {
            return Err(Failure(S.InvalidHexEscape, start));
          }
          value := value * 16 + digit;
          pos := pos + 1;
          i := i + 1;
        }
        return Ok(value);
      }
      if ShortEscape(letter) >= 0 {
        pos := pos + 1;
        return Ok(ShortEscape(letter));
      }
      return Err(Failure(S.InvalidEscape, start));
    }

    /** A string whose opening quote has been consumed. */
    method ParseString() returns (r: Result<Text, Failure>)
      requires pos <= |text|
      modifies this`pos
      ensures Did(S.ParseString(text, old(pos), []), r)
    {
      var out: Text := [];
      while true
        invariant old(pos) <= pos <= |text|
        invariant S.ParseString(text, pos, out) == S.ParseString(text, old(pos), [])
        decreases |text| - pos
      {
        var code := Peek();
        if code == -1 {
          return Err(Failure(S.UnterminatedString, pos));
        }
        if code == QUOTE {
          pos := pos + 1;
          return Ok(out);
        }
        if code == BACKSLASH {
          var escape := ParseEscape();
          if escape.Err? { return Err(escape.error); }
          out := out + [escape.value];
          continue;
        }
        if code <= 0x1f {
          return Err(Failure(S.ControlCharacter, pos));
        }
        out := out + [text[pos]];
        pos := pos + 1;
      }
    }

    method Unexpected() returns (r: Result<Json, Failure>)
      ensures Did(S.Unexpected(text, pos), r)
    {
      return Err(Failure(if pos >= |text| then S.UnexpectedEnd else S.UnexpectedCharacter, pos));
    }

    method ParseValue() returns (r: Result<Json, Failure>)
      requires pos <= |text|
      modifies this
      ensures Did(S.ParseValue(text, old(pos), old(depth)), r)
      ensures r.Ok? ==> depth == old(depth)
      decreases |text| - pos, 1
    {
      var code := Peek();
      if code == OPEN_BRACE {
        r := ParseObject();
      } else if code == OPEN_BRACKET {
        r := ParseArray();
      } else if code == QUOTE {
        pos := pos + 1;
        var s := ParseString();
        if s.Err? { return Err(s.error); }
        return Ok(JString(s.value));
      } else if code == 0x74 {
        r := ParseKeyword(U("true"), JBool(true));
      } else if code == 0x66 {
        r := ParseKeyword(U("false"), JBool(false));
      } else if code == 0x6e {
        r := ParseKeyword(U("null"), JNull);
      } else if code == MINUS || DigitChar(code) {
        var raw := ParseNumber();
        if raw.Err? { return Err(raw.error); }
        return Ok(JNumber(raw.value));
      } else {
        r := Unexpected();
      }
    }

    method ParseArray() returns (r: Result<Json, Failure>)
      requires pos < |text| && text[pos] == OPEN_BRACKET
      modifies this
      ensures Did(S.ParseValue(text, old(pos), old(depth)), r)
      ensures r.Ok? ==> depth == old(depth)
      decreases |text| - pos, 0
    {
      depth := depth + 1;
      if depth > MAX_STRUCTURAL_DEPTH { return Err(Failure(S.TooDeep, pos)); }
      pos := pos + 1;
      var items: seq<Json> := [];
      SkipWhitespace();
      var code := Peek();
      if code == CLOSE_BRACKET {
        pos := pos + 1;
        depth := depth - 1;
        return Ok(JArray(items));
      }
      while true
        invariant old(pos) < pos <= |text| && depth == old(depth) + 1
        invariant S.ParseItems(text, pos, depth, items) == S.ParseValue(text, old(pos), old(depth))
        decreases |text| - pos
      {
        SkipWhitespace();
        var item := ParseValue();
        if item.Err? { return Err(item.error); }
        items := items + [item.value];
        SkipWhitespace();
        code := Peek();
        if code == COMMA {
          pos := pos + 1;
          continue;
        }
        if code == CLOSE_BRACKET {
          pos := pos + 1;
          depth := depth - 1;
          return Ok(JArray(items));
        }
        r := Unexpected();
        return;
      }
    }

    /** One member of an object, the cursor being at its key: the member, up to white space after its value. */
    method ParseMember(members: seq<Member>) returns (r: Result<Member, Failure>)
      requires pos <= |text|
      modifies this
      ensures MemberDid(old(pos), old(depth), members, r)
      ensures r.Ok? ==> depth == old(depth)
      decreases |text| - pos, 0
    {
      hide S.ParseValue, S.ParseMembers, S.ParseString, S.SkipSpace, S.HasKey;
      var start := pos;
      var code := Peek();
      if code != QUOTE { return Err(Failure(S.ExpectedKey, pos)); }
      pos := pos + 1;
      var key := ParseString();
      if key.Err? { return Err(key.error); }
      if S.HasKey(members, key.value) { return Err(Failure(S.DuplicateKey, start)); }
      SkipWhitespace();
      code := Peek();
      if code != COLON { return Err(Failure(S.ExpectedColon, pos)); }
      pos := pos + 1;
      SkipWhitespace();
      var value := ParseValue();
      if value.Err? { return Err(value.error); }
      SkipWhitespace();
      return Ok(Member(key.value, value.value));
    }

    /** What the specification does with a member that was read, or with the failure to read one. */
    ghost predicate MemberDid(start: nat, depth: nat, members: seq<Member>, r: Result<Member, Failure>)
      requires start <= |text|
      reads this
    {
      var spec := S.ParseMemberAt(text, start, depth, members);
      match r
      case Err(e) => spec == S.Abort(e.fault, e.position)
      case Ok(m) => start < pos <= |text| && spec == AfterMember(depth, members + [m])
    }

    ghost function AfterMember(depth: nat, members: seq<Member>): S.Parsed<Json>
      reads this
    {
      if S.Peek(text, pos) == COMMA && pos < |text| then S.ParseMembers(text, pos + 1, depth, members)
      else if S.Peek(text, pos) == CLOSE_BRACE then S.Done(JObject(members), pos + 1)
      else S.Unexpected(text, pos)
    }

    method ParseObject() returns (r: Result<Json, Failure>)
      requires pos < |text| && text[pos] == OPEN_BRACE
      modifies this
      ensures Did(S.ParseValue(text, old(pos), old(depth)), r)
      ensures r.Ok? ==> depth == old(depth)
      decreases |text| - pos, 0
    {
      depth := depth + 1;
      if depth > MAX_STRUCTURAL_DEPTH { return Err(Failure(S.TooDeep, pos)); }
      pos := pos + 1;
      SkipWhitespace();
      var code := Peek();
      if code == CLOSE_BRACE {
        pos := pos + 1;
        depth := depth - 1;
        return Ok(JObject([]));
      }
      r := ParseMemberList();
    }

    /** The loop of `parseObject`. */
    method ParseMemberList() returns (r: Result<Json, Failure>)
      requires pos <= |text| && depth > 0
      modifies this
      ensures Did(S.ParseMembers(text, old(pos), old(depth), []), r)
      ensures r.Ok? ==> depth == old(depth) - 1
      decreases |text| - pos, 1
    {
      var members: seq<Member> := [];
      while true
        invariant old(pos) <= pos <= |text| && depth == old(depth)
        invariant S.ParseMembers(text, pos, depth, members) == S.ParseMembers(text, old(pos), old(depth), [])
        decreases |text| - pos
      {
        SkipWhitespace();
        var member := ParseMember(members);
        if member.Err? { return Err(member.error); }
        members := members + [member.value];
        var code := Peek();
        if code == COMMA {
          pos := pos + 1;
          continue;
        }
        if code == CLOSE_BRACE {
          pos := pos + 1;
          depth := depth - 1;
          return Ok(JObject(members));
        }
        r := Unexpected();
        return;
      }
    }

    method ParseDocument() returns (r: Result<Json, Failure>)
      requires pos == 0 && depth == 0
      modifies this
      ensures Did(S.ParseDocument(text), r)
    {
      SkipWhitespace();
      if pos >= |text| { return Err(Failure(S.UnexpectedEnd, pos)); }
      r := ParseValue();
      if r.Err? { return; }
      SkipWhitespace();
      if pos < |text| { return Err(Failure(S.TrailingContent, pos)); }
    }
  }

  /** `parseJson`: a fresh parser for each text. */
  method ParseJson(text: Text) returns (r: Result<Json, Failure>)
    ensures match S.ParseDocument(text)
            case Done(v, _) => r == Ok(v)
            case Abort(f, at) => r == Err(Failure(f, at))
  {
    var parser := new Parser(text);
    r := parser.ParseDocument();
  }
}
