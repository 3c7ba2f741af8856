/** The fixed vocabulary of the wire format: object keys, tags and the other literal strings. */
module Words {
  import opened Wrappers
  import opened Unicode
  import opened Json

  datatype Word =
    WTag | WValue | WItems | WEntries | WKey | WImag | WReal | WNegativeZero | WFlavor | WEncoding |
    WMemberKey | WType | WName | WFields | WDetails | WMessage | WCycleIndex | WValues | WClassName |
    WConstructor | WOperations | WMethod | WArgs | WExpected | WNull | WBool | WInt | WFloat | WDecimal
    | WComplex | WStr | WList | WTuple | WSet | WFrozenSet | WDict | WBytes | WPath | WEnum | WRecord |
    WException | WListNode | WTreeNode | WClassTrace | WBase64Url | WPosix | WWindows | WDataclass |
    WNamedTuple | WDate | WTime | WDatetime | WUuid | WFold | WOffsetMinutes

  function Literal(w: Word): string {
    match w
    case WTag => "tag"
    case WValue => "value"
    case WItems => "items"
    case WEntries => "entries"
    case WKey => "key"
    case WImag => "imag"
    case WReal => "real"
    case WNegativeZero => "negativeZero"
    case WFlavor => "flavor"
    case WEncoding => "encoding"
    case WMemberKey => "member"
    case WType => "type"
    case WName => "name"
    case WFields => "fields"
    case WDetails => "details"
    case WMessage => "message"
    case WCycleIndex => "cycleIndex"
    case WValues => "values"
    case WClassName => "className"
    case WConstructor => "constructor"
    case WOperations => "operations"
    case WMethod => "method"
    case WArgs => "args"
    case WExpected => "expected"
    case WNull => "null"
    case WBool => "bool"
    case WInt => "int"
    case WFloat => "float"
    case WDecimal => "decimal"
    case WComplex => "complex"
    case WStr => "str"
    case WList => "list"
    case WTuple => "tuple"
    case WSet => "set"
    case WFrozenSet => "frozenset"
    case WDict => "dict"
    case WBytes => "bytes"
    case WPath => "path"
    case WEnum => "enum"
    case WRecord => "record"
    case WException => "exception"
    case WListNode => "ListNode"
    case WTreeNode => "TreeNode"
    case WClassTrace => "ClassTrace"
    case WBase64Url => "base64url"
    case WPosix => "posix"
    case WWindows => "windows"
    case WDataclass => "dataclass"
    case WNamedTuple => "namedtuple"
    case WDate => "date"
    case WTime => "time"
    case WDatetime => "datetime"
    case WUuid => "uuid"
    case WFold => "fold"
    case WOffsetMinutes => "offsetMinutes"
  }

  function Spell(w: Word): Text {
    U(Literal(w))
  }

  /** Length and first three characters tell the words apart. */
  function Signature(t: Text): (nat, Unit, Unit, Unit)
    requires |t| >= 3
  {
    (|t|, t[0], t[1], t[2])
  }

  lemma SpellSignature(w: Word)
    ensures |Spell(w)| >= 3
    ensures Signature(Spell(w)) == match w
            case WTag => (3, 116, 97, 103)
            case WValue => (5, 118, 97, 108)
            case WItems => (5, 105, 116, 101)
            case WEntries => (7, 101, 110, 116)
            case WKey => (3, 107, 101, 121)
            case WImag => (4, 105, 109, 97)
            case WReal => (4, 114, 101, 97)
            case WNegativeZero => (12, 110, 101, 103)
            case WFlavor => (6, 102, 108, 97)
            case WEncoding => (8, 101, 110, 99)
            case WMemberKey => (6, 109, 101, 109)
            case WType => (4, 116, 121, 112)
            case WName => (4, 110, 97, 109)
            case WFields => (6, 102, 105, 101)
            case WDetails => (7, 100, 101, 116)
            case WMessage => (7, 109, 101, 115)
            case WCycleIndex => (10, 99, 121, 99)
            case WValues => (6, 118, 97, 108)
            case WClassName => (9, 99, 108, 97)
            case WConstructor => (11, 99, 111, 110)
            case WOperations => (10, 111, 112, 101)
            case WMethod => (6, 109, 101, 116)
            case WArgs => (4, 97, 114, 103)
            case WExpected => (8, 101, 120, 112)
            case WNull => (4, 110, 117, 108)
            case WBool => (4, 98, 111, 111)
            case WInt => (3, 105, 110, 116)
            case WFloat => (5, 102, 108, 111)
            case WDecimal => (7, 100, 101, 99)
            case WComplex => (7, 99, 111, 109)
            case WStr => (3, 115, 116, 114)
            case WList => (4, 108, 105, 115)
            case WTuple => (5, 116, 117, 112)
            case WSet => (3, 115, 101, 116)
            case WFrozenSet => (9, 102, 114, 111)
            case WDict => (4, 100, 105, 99)
            case WBytes => (5, 98, 121, 116)
            case WPath => (4, 112, 97, 116)
            case WEnum => (4, 101, 110, 117)
            case WRecord => (6, 114, 101, 99)
            case WException => (9, 101, 120, 99)
            case WListNode => (8, 76, 105, 115)
            case WTreeNode => (8, 84, 114, 101)
            case WClassTrace => (10, 67, 108, 97)
            case WBase64Url => (9, 98, 97, 115)
            case WPosix => (5, 112, 111, 115)
            case WWindows => (7, 119, 105, 110)
            case WDataclass => (9, 100, 97, 116)
            case WNamedTuple => (10, 110, 97, 109)
            case WDate => (4, 100, 97, 116)
            case WTime => (4, 116, 105, 109)
            case WDatetime => (8, 100, 97, 116)
            case WUuid => (4, 117, 117, 105)
            case WFold => (4, 102, 111, 108)
            case WOffsetMinutes => (13, 111, 102, 102)
  {
  }

  lemma SpellInjective(v: Word, w: Word)
    requires Spell(v) == Spell(w)
    ensures v == w
  {
    SpellSignature(v);
    SpellSignature(w);
    hide Spell, Literal;
  }

  /** The first of `words` spelled `t`. */
  function Find(t: Text, words: seq<Word>): Option<Word> {
    if words == [] then None
    else if Spell(words[0]) == t then Some(words[0])
    else Find(t, words[1..])
  }

  lemma {:induction false} FindSound(t: Text, words: seq<Word>, w: Word)
    ensures Find(t, words) == Some(w) <==> w in words && Spell(w) == t
  {
    hide Spell;
    if words != [] {
      FindSound(t, words[1..], w);
      if Spell(words[0]) == t && Spell(w) == t {
        SpellInjective(w, words[0]);
      }
    }
  }

  lemma SpellWellFormed(w: Word)
    ensures WellFormed(Spell(w))
  {
    NoSurrogates(U(Literal(w)));
  }

  /** Words are ordered by the UTF-8 bytes of their spelling, which tell them apart. */
  function Rank(w: Word): seq<int> {
    EncodeUtf8(Spell(w))
  }

  lemma RankInjective(v: Word, w: Word)
    requires Rank(v) == Rank(w)
    ensures v == w
  {
    SpellWellFormed(v);
    SpellWellFormed(w);
    hide Spell, EncodeUtf8;
    CompareIsTotalOrder(Spell(v), Spell(w), Spell(v));
    SpellInjective(v, w);
  }
}
