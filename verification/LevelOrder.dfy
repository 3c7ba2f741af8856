/**
 Binary trees and their level-order slot lists. `Level` writes a queue of trees
 breadth-first; `Read` is its inverse, reading a queue of positions from slots.
 */
module LevelOrder {
  import opened Wrappers

  /** A payload may itself be Python's None, which a slot list cannot tell from an absent child. */
  datatype Tree<+P> = Nil | Bin(left: Tree<P>, val: Option<P>, right: Tree<P>)

  type Slot<+P> = Option<P>

  // ---- writing -------------------------------------------------------------------------

  function Weight<P>(t: Tree<P>): nat {
    match t
    case Nil => 1
    case Bin(l, _, r) => 1 + Weight(l) + Weight(r)
  }

  function Weights<P>(q: seq<Tree<P>>): nat {
    if q == [] then 0 else Weight(q[0]) + Weights(q[1..])
  }

  lemma {:induction false} WeightsConcat<P>(a: seq<Tree<P>>, b: seq<Tree<P>>)
    ensures Weights(a + b) == Weights(a) + Weights(b)
  {
    if a == [] {
      assert a + b == b;
    } else {
      WeightsConcat(a[1..], b);
      assert (a + b)[1..] == a[1..] + b;
    }
  }

  lemma WeightsStep<P>(q: seq<Tree<P>>)
    requires q != []
    ensures Weights(q[1..]) < Weights(q)
    ensures q[0].Bin? ==> Weights(q[1..] + [q[0].left, q[0].right]) < Weights(q)
  {
    if q[0].Bin? {
      var pair := [q[0].left, q[0].right];
      WeightsConcat(q[1..], pair);
      assert pair[1..] == [q[0].right] && pair[1..][1..] == [];
    }
  }

  /** The slots of a queue of trees, children joining the end of the queue. */
  function Level<P>(q: seq<Tree<P>>): seq<Slot<P>>
    decreases Weights(q)
  {
    if q == [] then []
    else
      WeightsStep(q);
      match q[0]
      case Nil => [None] + Level(q[1..])
      case Bin(l, v, r) => [v] + Level(q[1..] + [l, r])
  }

  function Strip<P>(slots: seq<Slot<P>>): seq<Slot<P>> {
    if slots != [] && slots[|slots| - 1].None? then Strip(slots[..|slots| - 1]) else slots
  }

  /** What `tree_to_canonical` is for. */
  function Slots<P>(t: Tree<P>): seq<Slot<P>> {
    if t.Nil? then [] else Strip(Level([t]))
  }

  // ---- reading --------------------------------------------------------------------------

  /** The trees at `n` queued positions; slots that have run out are absent. */
  function Read<P>(n: nat, slots: seq<Slot<P>>): (r: seq<Tree<P>>)
    ensures |r| == n
    decreases |slots|, n
  {
    if n == 0 then []
    else if slots == [] then [Nil] + Read(n - 1, [])
    else if slots[0].None? then [Nil] + Read(n - 1, slots[1..])
    else
      var rest := Read(n + 1, slots[1..]);
      [Bin(rest[n - 1], slots[0], rest[n])] + rest[..n - 1]
  }

  /** Slots no position is left to consume. */
  function Leftover<P>(n: nat, slots: seq<Slot<P>>): (r: seq<Slot<P>>)
    ensures |r| <= |slots| && r == slots[|slots| - |r|..]
    decreases |slots|
  {
    if n == 0 || slots == [] then slots
    else if slots[0].None? then Leftover(n - 1, slots[1..])
    else Leftover(n + 1, slots[1..])
  }

  predicate AllNone<P>(slots: seq<Slot<P>>) {
    forall i | 0 <= i < |slots| :: slots[i].None?
  }

  /** `validateTree` accepts: every slot past the last position is null. */
  predicate Reachable<P>(slots: seq<Slot<P>>) {
    AllNone(Leftover(1, slots))
  }

  /** No node carries a None payload. */
  predicate Solid<P>(t: Tree<P>) {
    match t
    case Nil => true
    case Bin(l, v, r) => v.Some? && Solid(l) && Solid(r)
  }

  predicate AllSolid<P>(q: seq<Tree<P>>) {
    forall i | 0 <= i < |q| :: Solid(q[i])
  }

  function Nones<P>(n: nat): (r: seq<Slot<P>>)
    ensures |r| == n && AllNone(r)
  {
    seq(n, _ => None)
  }

  // ---- stripping -------------------------------------------------------------------------

  lemma {:induction false} StripNones<P>(slots: seq<Slot<P>>, nones: seq<Slot<P>>)
    requires AllNone(nones)
    ensures Strip(slots + nones) == Strip(slots)
    decreases |nones|
  {
    if nones == [] {
      assert slots + nones == slots;
    } else {
      var init := nones[..|nones| - 1];
      StripNones(slots, init);
      assert (slots + nones)[..|slots + nones| - 1] == slots + init;
    }
  }

  lemma {:induction false} StripSplits<P>(slots: seq<Slot<P>>) returns (nones: seq<Slot<P>>)
    ensures slots == Strip(slots) + nones && AllNone(nones)
  {
    if slots != [] && slots[|slots| - 1].None? {
      var init := StripSplits(slots[..|slots| - 1]);
      nones := init + [None];
      assert slots == slots[..|slots| - 1] + [None];
    } else {
      nones := [];
    }
  }

  lemma {:induction false} StripStops<P>(slots: seq<Slot<P>>)
    ensures Strip(Strip(slots)) == Strip(slots)
  {
    if slots != [] && slots[|slots| - 1].None? {
      StripStops(slots[..|slots| - 1]);
    }
  }

  // ---- reading what was written ------------------------------------------------------------

  lemma {:induction false} ReadPads<P>(n: nat, slots: seq<Slot<P>>, nones: seq<Slot<P>>)
    requires AllNone(nones)
    ensures Read(n, slots + nones) == Read(n, slots)
    decreases |slots|, n, |nones|
  {
    if n == 0 {
    } else if slots == [] {
      assert slots + nones == nones;
      if nones != [] {
        ReadPads(n - 1, [], nones[1..]);
        assert [] + nones[1..] == nones[1..];
      }
    } else {
      assert (slots + nones)[1..] == slots[1..] + nones;
      ReadPads(if slots[0].None? then n - 1 else n + 1, slots[1..], nones);
    }
  }

  /** A queue after its first tree has been written. */
  function Next<P>(q: seq<Tree<P>>): seq<Tree<P>>
    requires q != []
  {
    match q[0]
    case Nil => q[1..]
    case Bin(l, _, r) => q[1..] + [l, r]
  }

  function First<P>(t: Tree<P>): Slot<P> {
    if t.Nil? then None else t.val
  }

  lemma LevelUnfolds<P>(q: seq<Tree<P>>)
    requires q != []
    ensures Level(q) == [First(q[0])] + Level(Next(q)) && Weights(Next(q)) < Weights(q)
  {
    WeightsStep(q);
  }

  /** Positions queued after one slot. */
  function Width<P>(n: nat, slot: Slot<P>): nat
    requires n > 0
  {
    if slot.None? then n - 1 else n + 1
  }

  /** One slot read is one slot written. */
  lemma ReadUnfolds<P>(n: nat, slots: seq<Slot<P>>)
    requires n > 0 && slots != []
    ensures var q := Read(n, slots);
      First(q[0]) == slots[0] && (q[0].Nil? <==> slots[0].None?) && Next(q) == Read(Width(n, slots[0]), slots[1..])
    ensures Leftover(n, slots) == Leftover(Width(n, slots[0]), slots[1..])
  {
    var rest := Read(Width(n, slots[0]), slots[1..]);
    if slots[0].Some? {
      assert rest == rest[..n - 1] + [rest[n - 1], rest[n]];
    }
  }

  /** A queue is determined by its first slot and what follows it. */
  lemma NextInjective<P>(p: seq<Tree<P>>, q: seq<Tree<P>>)
    requires p != [] && q != [] && |p| == |q| && First(p[0]) == First(q[0]) && (p[0].Nil? <==> q[0].Nil?)
    requires Next(p) == Next(q)
    ensures p == q
  {
    var n := |p|;
    if p[0].Bin? {
      assert Next(p)[..n - 1] == p[1..] && Next(q)[..n - 1] == q[1..];
      assert Next(p)[n - 1] == p[0].left && Next(p)[n] == p[0].right;
      assert Next(q)[n - 1] == q[0].left && Next(q)[n] == q[0].right;
    }
    assert p == [p[0]] + p[1..] && q == [q[0]] + q[1..];
  }

  lemma NextSolid<P>(q: seq<Tree<P>>)
    requires q != [] && AllSolid(q)
    ensures AllSolid(Next(q)) && |Next(q)| == Width(|q|, First(q[0])) && (q[0].Nil? <==> First(q[0]).None?)
  {
    assert Solid(q[0]);
  }

  /** Reading back a written queue of trees without None payloads. */
  lemma {:induction false} ReadLevel<P>(q: seq<Tree<P>>)
    requires AllSolid(q)
    ensures Read(|q|, Level(q)) == q
    ensures Leftover(|q|, Level(q)) == []
    decreases Weights(q)
  {
    hide Level, Read, Next, First, AllSolid, Leftover, Width, Weights;
    if q == [] {
      ReadNothing<P>();
    } else {
      LevelUnfolds(q);
      NextSolid(q);
      ReadLevel(Next(q));
      assert Level(q)[1..] == Level(Next(q));
      ReadUnfolds(|q|, Level(q));
      NextInjective(Read(|q|, Level(q)), q);
    }
  }

  lemma ReadNothing<P>()
    ensures Level<P>([]) == [] && Read<P>(0, []) == [] && Leftover<P>(0, []) == []
  {
  }

  // ---- writing what was read ----------------------------------------------------------------

  lemma {:induction false} LevelNils<P>(n: nat)
    ensures Level(Read<P>(n, [])) == Nones(n)
  {
    if n > 0 {
      LevelNils<P>(n - 1);
      assert Read<P>(n, [])[1..] == Read(n - 1, []);
      assert Nones<P>(n) == [None] + Nones(n - 1);
    }
  }

  /** Writing what was read gives the consumed slots, padded with absent ones. */
  lemma {:induction false} LevelRead<P>(n: nat, slots: seq<Slot<P>>) returns (pad: seq<Slot<P>>)
    ensures Level(Read(n, slots)) == slots[..|slots| - |Leftover(n, slots)|] + pad && AllNone(pad)
    decreases |slots|
  {
    hide Level, Read, Leftover;
    if n == 0 {
      ReadNone(slots);
      pad := [];
    } else if slots == [] {
      LevelNils<P>(n);
      pad := Nones(n);
    } else {
      pad := LevelReadStep(n, slots);
    }
  }

  lemma ReadNone<P>(slots: seq<Slot<P>>)
    ensures Level(Read(0, slots)) == [] && Leftover(0, slots) == slots
  {
  }

  lemma {:induction false} LevelReadStep<P>(n: nat, slots: seq<Slot<P>>) returns (pad: seq<Slot<P>>)
    requires n > 0 && slots != []
    ensures Level(Read(n, slots)) == slots[..|slots| - |Leftover(n, slots)|] + pad && AllNone(pad)
    decreases |slots|, 0
  {
    hide Level, Read, Next, First, Leftover, Width;
    pad := LevelRead(Width(n, slots[0]), slots[1..]);
    ReadUnfolds(n, slots);
    LevelUnfolds(Read(n, slots));
    var k := |slots| - |Leftover(n, slots)|;
    assert slots[..k] == [slots[0]] + slots[1..][..k - 1];
  }

  lemma {:induction false} ReadSolid<P>(n: nat, slots: seq<Slot<P>>)
    ensures AllSolid(Read(n, slots))
    decreases |slots|, n
  {
    if n > 0 {
      if slots == [] {
        ReadSolid<P>(n - 1, []);
      } else {
        ReadSolid(if slots[0].None? then n - 1 else n + 1, slots[1..]);
      }
    }
  }

  // ---- the theorems --------------------------------------------------------------------------

  /** What `build_tree` is for. */
  function Build<P>(slots: seq<Slot<P>>): Tree<P> {
    Read(1, slots)[0]
  }

  lemma SlotsAreStripped<P>(t: Tree<P>)
    ensures Slots(t) == Strip(Level([t]))
  {
    if t.Nil? {
      assert Level([t]) == [None] + Level([t][1..]) == [] + [None];
      StripNones<P>([], [None]);
    }
  }

  /** Reading an accepted slot list and writing it again gives the list, trailing nulls stripped. */
  lemma SlotsOfBuild<P>(slots: seq<Slot<P>>)
    requires Reachable(slots)
    ensures Slots(Build(slots)) == Strip(slots)
  {
    hide Level, Read, Strip, Slots, Leftover;
    SlotsAreStripped(Build(slots));
    assert Read(1, slots) == [Build(slots)];
    var pad := LevelRead(1, slots);
    var left := Leftover(1, slots);
    var used := slots[..|slots| - |left|];
    assert slots == used + left;
    StripNones(used, pad);
    StripNones(used, left);
  }

  /** Writing a tree and reading it again gives the tree, exactly when no node carries a None payload. */
  lemma BuildOfSlots<P>(t: Tree<P>)
    ensures Build(Slots(t)) == t <==> Solid(t)
  {
    if Solid(t) {
      if t.Bin? {
        var q := [t];
        ReadLevel(q);
        var nones := StripSplits(Level(q));
        ReadPads(1, Strip(Level(q)), nones);
      }
    }
    ReadSolid(1, Slots(t));
  }

  /** The validator accepts exactly the written forms of trees, up to trailing nulls. */
  lemma ReachableIffWritten<P(!new)>(slots: seq<Slot<P>>)
    ensures Reachable(slots) <==> exists t: Tree<P> :: Solid(t) && Slots(t) == Strip(slots)
  {
    if Reachable(slots) {
      SlotsOfBuild(slots);
      ReadSolid(1, slots);
      assert Solid(Build(slots));
    }
    forall t: Tree<P> | Solid(t) && Slots(t) == Strip(slots) ensures Reachable(slots) {
      var nones := StripSplits(slots);
      if t.Bin? {
        ReadLevel([t]);
        var more := StripSplits(Level([t]));
        LeftoverShorter(1, Strip(slots), more);
        LeftoverPads(1, Strip(slots), nones);
      } else {
        LeftoverPads(1, [], nones);
      }
    }
  }

  /** Padding can only leave more absent slots over. */
  lemma {:induction false} LeftoverPads<P>(n: nat, slots: seq<Slot<P>>, nones: seq<Slot<P>>)
    requires AllNone(nones) && AllNone(Leftover(n, slots))
    ensures AllNone(Leftover(n, slots + nones))
    decreases |slots|, |nones|
  {
    if n == 0 {
    } else if slots == [] {
      assert slots + nones == nones;
      if nones != [] {
        LeftoverPads(n - 1, [], nones[1..]);
        assert [] + nones[1..] == nones[1..];
      }
    } else {
      assert (slots + nones)[1..] == slots[1..] + nones;
      LeftoverPads(if slots[0].None? then n - 1 else n + 1, slots[1..], nones);
    }
  }

  lemma {:induction false} LeftoverShorter<P>(n: nat, slots: seq<Slot<P>>, more: seq<Slot<P>>)
    requires Leftover(n, slots + more) == []
    ensures Leftover(n, slots) == []
    decreases |slots|
  {
    if n > 0 && slots != [] {
      assert (slots + more)[1..] == slots[1..] + more;
      LeftoverShorter(if slots[0].None? then n - 1 else n + 1, slots[1..], more);
    }
  }
}
