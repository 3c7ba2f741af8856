/**
 Semantic comparison without tolerance or white-space normalisation
 (src/judging/comparator/semantic.ts). A visit list says what the source compares
 for one value, in order: points, which are compared on the spot, and sub-values,
 which are compared recursively.
 */
module Comparator {
  import opened Wrappers
  import opened Unicode
  import opened Words
  import V = Values
  import opened Encoding
  import L = DecodingLeaves
  import S = DecodingShapes
  import Codec

  type Value = V.Value

  /** `.name` or `.name[index]` */
  datatype Step = Part(name: Word) | Item(name: Word, index: nat)

  type Path = seq<Step>

  datatype Token =
    | Tagged(tag: Word)
    | Content(leaf: V.Leaf)
    | Size(size: nat)
    | Name(name: Text)
    | Names(first: Text, second: Text)
    | Kind(kind: bool, name: Text)
    | Cycle(cycle: Option<int>)
    | Presence(present: bool)
    | Encoded(text: Option<Text>)

  datatype Visit = Point(suffix: Path, token: Token) | Kid(suffix: Path, index: nat)

  function Items(prefix: Path, w: Word, from: nat, n: nat): (r: seq<Visit>)
    ensures |r| == n
  {
    seq(n, i requires 0 <= i < n => Kid(prefix + [Item(w, i)], from + i))
  }

  /** Keys are compared by their canonical bytes, values recursively. */
  function Entries(kids: seq<Value>, i: nat): seq<Visit>
    decreases |kids| - 2 * i
  {
    if 2 * i + 1 >= |kids| then []
    else
      [Point([Item(WEntries, i), Part(WKey)], Encoded(Codec.Encode(kids[2 * i]))),
       Kid([Item(WEntries, i), Part(WValue)], 2 * i + 1)]
      + Entries(kids, i + 1)
  }

  function RecordFields(names: seq<Text>, i: nat): seq<Visit>
    decreases |names| - i
  {
    if i >= |names| then []
    else
      [Point([Item(WFields, i), Part(WName)], Name(names[i])), Kid([Item(WFields, i), Part(WValue)], i)]
      + RecordFields(names, i + 1)
  }

  function Slots(present: seq<bool>, i: nat, from: nat): seq<Visit>
    decreases |present| - i
  {
    if i >= |present| then []
    else
      [Point([Item(WValues, i)], Presence(present[i]))]
      + if present[i] then [Kid([Item(WValues, i)], from)] + Slots(present, i + 1, from + 1)
        else Slots(present, i + 1, from)
  }

  function OneOperation(o: V.Operation, i: nat, from: nat): seq<Visit> {
    var at := [Item(WOperations, i)];
    [Point(at + [Part(WMethod)], Name(o.name)), Point(at + [Part(WArgs)], Size(o.arguments))]
    + (Items(at, WArgs, from, o.arguments)
       + ([Point(at + [Part(WExpected)], Presence(o.expects))]
          + if o.expects then [Kid(at + [Part(WExpected)], from + o.arguments)] else []))
  }

  function Operations(os: seq<V.Operation>, i: nat, from: nat): seq<Visit>
    decreases |os| - i
  {
    if i >= |os| then []
    else OneOperation(os[i], i, from) + Operations(os, i + 1, from + V.OperationArity(os[i]))
  }

  function NodeVisits(v: Value): seq<Visit>
    requires v.Node?
  {
    match v.shape
    case SList(_) => [Point([], Size(|v.kids|))] + Items([], WItems, 0, |v.kids|)
    case SSet(_) => [Point([], Size(|v.kids|))] + Items([], WItems, 0, |v.kids|)
    case SDict => [Point([], Size(|v.kids| / 2))] + Entries(v.kids, 0)
    case SComplex => [Kid([Part(WReal)], 0), Kid([Part(WImag)], 1)]
    case SEnum(name, member) => [Point([], Names(name, member)), Kid([Part(WValue)], 0)]
    case SRecord(namedTuple, name, fields) =>
      [Point([], Kind(namedTuple, name)), Point([], Size(|fields|))] + RecordFields(fields, 0)
    case SException(_, _, _) => [Point([], Encoded(Codec.Encode(v)))]
    case SListNode(cycle) => [Point([], Cycle(cycle)), Point([], Size(|v.kids|))] + Items([], WValues, 0, |v.kids|)
    case STreeNode(present) => [Point([], Size(|present|))] + Slots(present, 0, 0)
    case SClassTrace(name, arguments, operations) =>
      [Point([], Name(name)), Point([Part(WConstructor)], Size(arguments))]
      + (Items([], WConstructor, 0, arguments)
         + ([Point([Part(WOperations)], Size(|operations|))] + Operations(operations, 0, arguments)))
  }

  /** Tags are compared first. */
  function Visits(v: Value): seq<Visit> {
    match v
    case Leaf(l) => [Point([], Tagged(L.LeafTag(l))), Point([], Content(l))]
    case Node(s, _) => [Point([], Tagged(S.NodeTag(s)))] + NodeVisits(v)
  }

  function KidsOf(v: Value): seq<Value> {
    if v.Leaf? then [] else v.kids
  }

  // ---- the comparison --------------------------------------------------------------------------

  /** `semanticMismatch`: the path of the first mismatch, if any. */
  function Mismatch(e: Value, a: Value, path: Path): Option<Path>
    decreases e, 1, 0
  {
    Walk(e, a, 0, path)
  }

  /** The visits from number `k` on, in lock step. */
  function Walk(e: Value, a: Value, k: nat, path: Path): Option<Path>
    decreases e, 0, |Visits(e)| - k
  {
    hide Visits;
    if k >= |Visits(e)| || k >= |Visits(a)| then None
    else
      match (Visits(e)[k], Visits(a)[k])
      case (Point(p, x), Point(_, y)) => if x == y then Walk(e, a, k + 1, path) else Some(path + p)
      case (Kid(p, i), Kid(_, j)) =>
        if i < |KidsOf(e)| && j < |KidsOf(a)| then
          match Mismatch(KidsOf(e)[i], KidsOf(a)[j], path + p)
          case Some(found) => Some(found)
          case None => Walk(e, a, k + 1, path)
        else Walk(e, a, k + 1, path)
      case _ => Some(path)
  }

  // ---- traversal order, without a comparison ------------------------------------------------------

  /** What stands at one position of a value. */
  datatype Probe = Probe(path: Path, token: Token)

  /** All of a value's positions in traversal order. */
  function Trace(v: Value, path: Path): seq<Probe>
    decreases v, 1, 0
  {
    TraceFrom(v, 0, path)
  }

  function TraceFrom(v: Value, k: nat, path: Path): seq<Probe>
    decreases v, 0, |Visits(v)| - k
  {
    if k >= |Visits(v)| then []
    else
      (match Visits(v)[k]
       case Point(p, x) => [Probe(path + p, x)]
       case Kid(p, i) => if i < |KidsOf(v)| then Trace(KidsOf(v)[i], path + p) else [])
      + TraceFrom(v, k + 1, path)
  }
}
