/** When the encoder writes a value and when it refuses (src/judging/codec/encode.ts:80-500), tag by tag. */
module EncodingRules {
  import opened Wrappers
  import opened Unicode
  import opened Json
  import opened Sorting
  import V = Values
  import opened Encoding
  import F = Forms
  import N = Numerals
  import G = LeafGrammar
  import Base64

  type Value = V.Value

  /** Leaves are written unless their text is not one of their kind. */
  lemma LeavesAreWrittenIff(l: V.Leaf)
    ensures Enc(V.Leaf(l)).Some? <==>
            match l
            case LNull => true
            case LBool(_) => true
            case LInt(_) => true
            case LFloat(t, negativeZero) => N.IsCanonicalFloat(t, negativeZero)
            case LStr(t) => WellFormed(t)
            case LBytes(t) => Base64.Decode(t).Some?
            case LPath(t, windows) => IsRelativePath(t, windows)
            case LDecimal(t) => G.IsDecimalLiteral(t)
            case LDate(t) => G.IsDate(t)
            case LUuid(t) => G.IsUuid(t)
            case LTime(t, offset, _) => G.IsTimeOfDay(t) && (offset.Some? ==> -1439 <= offset.value <= 1439)
            case LDatetime(t, minutes, _) => G.IsDatetime(t) && -1439 <= minutes <= 1439
  {
    hide F.Fill, N.IsCanonicalFloat, WellFormed, Base64.Decode, IsRelativePath, G.IsDecimalLiteral, G.IsDate, G.IsUuid,
      G.IsTimeOfDay, G.IsDatetime;
  }

  /** Every sub-value is written. */
  predicate KidsWritten(s: V.Shape, kids: seq<Value>) {
    V.Fits(s, kids) && EncAll(kids).Some?
  }

  lemma {:induction false} AllWrittenIff(vs: seq<Value>)
    ensures EncAll(vs).Some? <==> forall i | 0 <= i < |vs| :: Enc(vs[i]).Some?
  {
    hide Enc;
    if vs != [] {
      AllWrittenIff(vs[1..]);
      if EncAll(vs).Some? {
        forall i | 0 <= i < |vs| ensures Enc(vs[i]).Some? {
          assert i > 0 ==> vs[i] == vs[1..][i - 1];
        }
      }
      if forall i | 0 <= i < |vs| :: Enc(vs[i]).Some? {
        forall i | 0 <= i < |vs[1..]| ensures Enc(vs[1..][i]).Some? {
          assert vs[1..][i] == vs[i + 1];
        }
      }
    }
  }

  /** A value with a sub-value that is refused, or of the wrong number or kind of sub-values, is refused. */
  lemma RefusalsPropagate(s: V.Shape, kids: seq<Value>)
    requires Enc(V.Node(s, kids)).Some?
    ensures V.Fits(s, kids) && forall i | 0 <= i < |kids| :: Enc(kids[i]).Some?
  {
    AllWrittenIff(kids);
    hide F.Fill, Legal, Arrange, EncAll, V.Fits;
  }

  lemma WrittenIffLegal(s: V.Shape, kids: seq<Value>)
    requires KidsWritten(s, kids) && Stride(s) == 0
    ensures Enc(V.Node(s, kids)).Some? <==> Legal(s, |kids|)
  {
    hide F.Fill, Legal, V.Fits, EncAll;
  }

  /** Sequences and complex numbers. */
  lemma SequencesAreWritten(s: V.Shape, kids: seq<Value>)
    requires KidsWritten(s, kids) && (s.SList? || s.SComplex?)
    ensures Enc(V.Node(s, kids)).Some?
  {
    WrittenIffLegal(s, kids);
  }

  /** Enums and exceptions: two well-formed identity strings. */
  lemma IdentitiesAreWrittenIff(s: V.Shape, kids: seq<Value>)
    requires KidsWritten(s, kids)
    ensures s.SEnum? ==> (Enc(V.Node(s, kids)).Some? <==> WellFormed(s.name) && WellFormed(s.member))
    ensures s.SException? ==> (Enc(V.Node(s, kids)).Some? <==> WellFormed(s.name) && WellFormed(s.message))
  {
    hide Enc, WellFormed;
    if s.SEnum? || s.SException? {
      WrittenIffLegal(s, kids);
    }
  }

  /** Records: a well-formed name, and well-formed field names of which no two are equal. */
  lemma RecordsAreWrittenIff(s: V.Shape, kids: seq<Value>)
    requires KidsWritten(s, kids) && s.SRecord?
    ensures Enc(V.Node(s, kids)).Some? <==>
            && WellFormed(s.name) && (forall i | 0 <= i < |s.fields| :: WellFormed(s.fields[i]))
            && (forall i, j | 0 <= i < |s.fields| && 0 <= j < |s.fields| && i != j :: s.fields[i] != s.fields[j])
  {
    hide Enc, WellFormed;
    WrittenIffLegal(s, kids);
  }

  /** List nodes: the cycle, if any, closes at one of the payloads. */
  lemma ListNodesAreWrittenIff(s: V.Shape, kids: seq<Value>)
    requires KidsWritten(s, kids) && s.SListNode?
    ensures Enc(V.Node(s, kids)).Some? <==> s.cycle.None? || 0 <= s.cycle.value < |kids|
  {
    hide Enc;
    WrittenIffLegal(s, kids);
  }

  /** Class traces: well-formed class and method names. */
  lemma ClassTracesAreWrittenIff(s: V.Shape, kids: seq<Value>)
    requires KidsWritten(s, kids) && s.SClassTrace?
    ensures Enc(V.Node(s, kids)).Some? <==>
            WellFormed(s.name) && forall i | 0 <= i < |s.operations| :: WellFormed(s.operations[i].name)
  {
    hide Enc, WellFormed;
    WrittenIffLegal(s, kids);
  }

  /** Slot `j` holds a child of slot `i`. */
  predicate IsChildSlot(i: nat, j: nat) {
    j == 2 * i + 1 || j == 2 * i + 2
  }

  /** Trees: no absent slot has a present child. */
  lemma TreesAreWrittenIff(s: V.Shape, kids: seq<Value>)
    requires KidsWritten(s, kids) && s.STreeNode?
    ensures Enc(V.Node(s, kids)).Some? <==>
            forall i: nat, j: nat | j < |s.present| && IsChildSlot(i, j) && s.present[j] :: s.present[i]
  {
    hide Enc, V.Fits;
    WrittenIffLegal(s, kids);
    StripKeepsPresent(s.present);
    var slots, kept := s.present, V.Strip(s.present);
    if V.Reachable(kept) {
      forall i: nat, j: nat | j < |slots| && IsChildSlot(i, j) && slots[j] ensures slots[i] {
        assert j < |kept| && kept[j];
      }
    }
    if forall i: nat, j: nat | j < |slots| && IsChildSlot(i, j) && slots[j] :: slots[i] {
      forall i | 0 <= i < |kept| && !kept[i]
        ensures (2 * i + 1 < |kept| ==> !kept[2 * i + 1]) && (2 * i + 2 < |kept| ==> !kept[2 * i + 2])
      {
        assert IsChildSlot(i, 2 * i + 1) && IsChildSlot(i, 2 * i + 2);
      }
    }
  }

  lemma {:induction false} StripKeepsPresent(slots: seq<bool>)
    ensures var kept := V.Strip(slots);
      |kept| <= |slots| && kept == slots[..|kept|] && forall j | |kept| <= j < |slots| :: !slots[j]
    decreases |slots|
  {
    if slots != [] && !slots[|slots| - 1] {
      StripKeepsPresent(slots[..|slots| - 1]);
    }
  }
}
