/**
 Canonical values (src/judging/value/model.ts). A value is a leaf or a node: a
 shape, which holds everything except the sub-values, and the sub-values in
 traversal order. One shape stands for one tagged interface of the source:
 a dict's sub-values are key, value, key, value, ...; a record's are its field
 values; a tree's are its present slots; a class trace's are the constructor
 arguments and then each operation's arguments and expected result.
 */
module Values {
  import opened Wrappers
  import opened Unicode

  datatype Leaf =
    | LNull
    | LBool(bit: bool)
    | LInt(n: int)
    | LFloat(text: Text, negativeZero: bool)
    | LStr(text: Text)
    | LBytes(text: Text)
    | LPath(text: Text, windows: bool)
    | LDecimal(text: Text)
    | LDate(text: Text)
    | LUuid(text: Text)
    | LTime(text: Text, offset: Option<int>, fold: bool)
    | LDatetime(text: Text, minutes: int, fold: bool)

  datatype Shape =
    | SList(tuple: bool)
    | SSet(frozen: bool)
    | SDict
    | SComplex
    | SEnum(name: Text, member: Text)
    | SRecord(namedTuple: bool, name: Text, fields: seq<Text>)
    | SException(name: Text, message: Text, detailed: bool)
    | SListNode(cycle: Option<int>)
    | STreeNode(present: seq<bool>)
    | SClassTrace(name: Text, arguments: nat, operations: seq<Operation>)

  datatype Operation = Operation(name: Text, arguments: nat, expects: bool)

  datatype Value = Leaf(leaf: Leaf) | Node(shape: Shape, kids: seq<Value>)

  // ---- arity: what TypeScript's types guarantee -------------------------------------

  function Present(slots: seq<bool>): nat {
    if slots == [] then 0 else (if slots[0] then 1 else 0) + Present(slots[1..])
  }

  function OperationArity(o: Operation): nat {
    o.arguments + if o.expects then 1 else 0
  }

  function OperationsArity(os: seq<Operation>): nat {
    if os == [] then 0 else OperationArity(os[0]) + OperationsArity(os[1..])
  }

  predicate Arity(s: Shape, n: nat) {
    match s
    case SDict => n % 2 == 0
    case SComplex => n == 2
    case SEnum(_, _) => n == 1
    case SRecord(_, _, fields) => n == |fields|
    case SException(_, _, detailed) => n == if detailed then 1 else 0
    case STreeNode(present) => n == Present(present)
    case SClassTrace(_, arguments, operations) => n == arguments + OperationsArity(operations)
    case _ => true
  }

  /** Complex parts are numeric leaves. */
  predicate Numeric(v: Value) {
    v.Leaf? && (v.leaf.LInt? || v.leaf.LFloat? || v.leaf.LDecimal?)
  }

  predicate Fits(s: Shape, kids: seq<Value>) {
    Arity(s, |kids|) && (s.SComplex? ==> Numeric(kids[0]) && Numeric(kids[1]))
  }

  // ---- what a traversal spends ----------------------------------------------------------

  /** Value nodes, as `countNode` tallies them. */
  function Count(v: Value): nat
    decreases v, 1
  {
    1 + if v.Leaf? then 0 else Counts(v.kids)
  }

  function Counts(vs: seq<Value>): nat
    decreases vs, 0
  {
    if vs == [] then 0 else Count(vs[0]) + Counts(vs[1..])
  }

  function Max(a: nat, b: nat): nat {
    if a < b then b else a
  }

  /** The encoder descends without spending a level on enum and exception payloads; the decoder spends one. */
  datatype Side = Encoder | Decoder

  function Level(s: Shape, side: Side): nat {
    if s.SComplex? || (side == Encoder && (s.SEnum? || s.SException?)) then 0 else 1
  }

  function Depth(v: Value, side: Side): nat
    decreases v, 1
  {
    if v.Leaf? then 0 else Level(v.shape, side) + Depths(v.kids, side)
  }

  function Depths(vs: seq<Value>, side: Side): nat
    decreases vs, 0
  {
    if vs == [] then 0 else Max(Depth(vs[0], side), Depths(vs[1..], side))
  }

  lemma {:induction false} DecoderSpendsMore(v: Value)
    ensures Depth(v, Encoder) <= Depth(v, Decoder)
    decreases v, 1
  {
    if v.Node? {
      DecoderSpendsMoreOnAll(v.kids);
    }
  }

  lemma {:induction false} DecoderSpendsMoreOnAll(vs: seq<Value>)
    ensures Depths(vs, Encoder) <= Depths(vs, Decoder)
    decreases vs, 0
  {
    if vs != [] {
      DecoderSpendsMore(vs[0]);
      DecoderSpendsMoreOnAll(vs[1..]);
    }
  }

  const MAX_DEPTH := 256
  const MAX_NODES := 1_000_000

  predicate Within(v: Value, side: Side) {
    Depth(v, side) <= MAX_DEPTH && Count(v) <= MAX_NODES
  }

  // ---- trees: trailing nulls and reachability ----------------------------------------------

  /** Trailing absent slots removed. */
  function Strip(slots: seq<bool>): seq<bool> {
    if slots != [] && !slots[|slots| - 1] then Strip(slots[..|slots| - 1]) else slots
  }

  /** No absent slot has a present child at `2i+1` or `2i+2`. */
  predicate Reachable(slots: seq<bool>) {
    forall i | 0 <= i < |slots| && !slots[i] ::
      (2 * i + 1 < |slots| ==> !slots[2 * i + 1]) && (2 * i + 2 < |slots| ==> !slots[2 * i + 2])
  }

  lemma {:induction false} PresentSplit(a: seq<bool>, b: seq<bool>)
    ensures Present(a + b) == Present(a) + Present(b)
  {
    if a == [] {
      assert a + b == b;
    } else {
      PresentSplit(a[1..], b);
      assert (a + b)[1..] == a[1..] + b;
    }
  }

  lemma {:induction false} StripKeeps(slots: seq<bool>)
    ensures Present(Strip(slots)) == Present(slots) && Strip(Strip(slots)) == Strip(slots)
    ensures |Strip(slots)| <= |slots| && Strip(slots) == slots[..|Strip(slots)|]
    ensures Strip(slots) == [] || Strip(slots)[|Strip(slots)| - 1]
  {
    if slots != [] && !slots[|slots| - 1] {
      var init := slots[..|slots| - 1];
      StripKeeps(init);
      PresentSplit(init, [false]);
      assert slots == init + [false];
      assert init[..|Strip(init)|] == slots[..|Strip(init)|];
    }
  }
}
