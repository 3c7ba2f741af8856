/** The shuffle: a permutation for any choices, and a different one for different choices. */
module FisherYates {
  import opened Wrappers
  import opened Ordering

  function Swap<T>(xs: seq<T>, i: nat, j: nat): (r: seq<T>)
    requires i < |xs| && j < |xs|
    ensures |r| == |xs|
  {
    xs[i := xs[j]][j := xs[i]]
  }

  /** A choice for each index `k`, among the positions up to it. */
  predicate Choices(choices: seq<nat>, n: nat) {
    |choices| == n && forall k | 0 < k < n :: choices[k] <= k
  }

  /** Indices from `i` down to 1 are swapped with their choices. */
  function Shuffle<T>(xs: seq<T>, choices: seq<nat>, i: nat): (r: seq<T>)
    requires Choices(choices, |xs|) && i < |xs|
    ensures |r| == |xs|
    decreases i
  {
    if i == 0 then xs else Shuffle(Swap(xs, i, choices[i]), choices, i - 1)
  }

  function ShuffleAll<T>(xs: seq<T>, choices: seq<nat>): (r: seq<T>)
    requires Choices(choices, |xs|)
  {
    if xs == [] then [] else Shuffle(xs, choices, |xs| - 1)
  }

  // ---- permutation ----------------------------------------------------------------------

  lemma SwapPermutes<T>(xs: seq<T>, i: nat, j: nat)
    requires i < |xs| && j < |xs|
    ensures multiset(Swap(xs, i, j)) == multiset(xs)
  {
  }

  lemma {:induction false} ShufflePermutes<T>(xs: seq<T>, choices: seq<nat>, i: nat)
    requires Choices(choices, |xs|) && i < |xs|
    ensures multiset(Shuffle(xs, choices, i)) == multiset(xs)
    ensures forall k | i < k < |xs| :: Shuffle(xs, choices, i)[k] == xs[k]
    decreases i
  {
    if i > 0 {
      SwapPermutes(xs, i, choices[i]);
      ShufflePermutes(Swap(xs, i, choices[i]), choices, i - 1);
    }
  }

  // ---- each permutation by exactly one sequence of choices -----------------------------------

  predicate Distinct<T(==)>(xs: seq<T>) {
    forall i, j | 0 <= i < j < |xs| :: xs[i] != xs[j]
  }

  lemma SwapDistinct<T>(xs: seq<T>, i: nat, j: nat)
    requires i < |xs| && j < |xs| && Distinct(xs)
    ensures Distinct(Swap(xs, i, j))
  {
  }

  /** Position `i` is settled by the choice for it. */
  lemma Settled<T>(xs: seq<T>, choices: seq<nat>, i: nat)
    requires Choices(choices, |xs|) && 0 < i < |xs|
    ensures Shuffle(xs, choices, i) == Shuffle(Swap(xs, i, choices[i]), choices, i - 1)
    ensures Shuffle(xs, choices, i)[i] == xs[choices[i]]
  {
    ShufflePermutes(Swap(xs, i, choices[i]), choices, i - 1);
  }

  /** The last element tells the first choice, the one before it the second, and so on. */
  lemma {:induction false} ChoicesRecovered<T>(xs: seq<T>, c: seq<nat>, d: seq<nat>, i: nat)
    requires Choices(c, |xs|) && Choices(d, |xs|) && i < |xs| && Distinct(xs)
    requires Shuffle(xs, c, i) == Shuffle(xs, d, i)
    ensures forall k | 0 < k <= i :: c[k] == d[k]
    decreases i
  {
    hide Shuffle, Swap;
    if i > 0 {
      Settled(xs, c, i);
      Settled(xs, d, i);
      DistinctIndex(xs, c[i], d[i]);
      SwapDistinct(xs, i, c[i]);
      ChoicesRecovered(Swap(xs, i, c[i]), c, d, i - 1);
    }
  }

  lemma DistinctIndex<T>(xs: seq<T>, i: nat, j: nat)
    requires Distinct(xs) && i < |xs| && j < |xs| && xs[i] == xs[j]
    ensures i == j
  {
  }

  /** What stays behind when equal ends are dropped. */
  lemma PrefixPermutes<T>(xs: seq<T>, ys: seq<T>, i: nat)
    requires |xs| == |ys| && i < |xs| && multiset(xs) == multiset(ys) && xs[i..] == ys[i..]
    ensures multiset(xs[..i]) == multiset(ys[..i])
  {
    assert xs == xs[..i] + xs[i..] && ys == ys[..i] + ys[i..];
    CancelRight(multiset(xs[..i]), multiset(ys[..i]), multiset(xs[i..]));
  }

  lemma CancelRight<T>(a: multiset<T>, b: multiset<T>, c: multiset<T>)
    requires a + c == b + c
    ensures a == b
  {
    assert a == a + c - c && b == b + c - c;
  }

  /** Choices that turn `xs` into `ys`, agreeing with it above `i` already. */
  lemma {:induction false} ChoicesExist<T>(xs: seq<T>, ys: seq<T>, i: nat) returns (choices: seq<nat>)
    requires |xs| == |ys| && i < |xs| && multiset(xs) == multiset(ys) && xs[i + 1..] == ys[i + 1..]
    ensures Choices(choices, |xs|) && Shuffle(xs, choices, i) == ys
    decreases i
  {
    if i == 0 {
      choices := seq(|xs|, _ => 0);
      OnlyOneLeft(xs, ys);
    } else {
      var j := Located(xs, ys, i);
      var next := Swap(xs, i, j);
      SwapPermutes(xs, i, j);
      assert next[i..] == ys[i..] by {
        assert next[i..] == [ys[i]] + xs[i + 1..];
        assert ys[i..] == [ys[i]] + ys[i + 1..];
      }
      var rest := ChoicesExist(next, ys, i - 1);
      choices := rest[i := j];
      ChoicesAbove(next, rest, choices, i - 1);
    }
  }

  lemma OnlyOneLeft<T>(xs: seq<T>, ys: seq<T>)
    requires |xs| == |ys| && xs != [] && multiset(xs) == multiset(ys) && xs[1..] == ys[1..]
    ensures xs == ys
  {
    assert xs == [xs[0]] + xs[1..] && ys == [ys[0]] + ys[1..];
    assert multiset(xs) == multiset{xs[0]} + multiset(xs[1..]);
    assert multiset(ys) == multiset{ys[0]} + multiset(ys[1..]);
    CancelRight(multiset{xs[0]}, multiset{ys[0]}, multiset(xs[1..]));
    assert xs[0] in multiset{ys[0]};
  }

  /** Where the wanted element of position `i` stands among the first `i + 1`. */
  lemma Located<T>(xs: seq<T>, ys: seq<T>, i: nat) returns (j: nat)
    requires |xs| == |ys| && i < |xs| && multiset(xs) == multiset(ys) && xs[i + 1..] == ys[i + 1..]
    ensures j <= i && xs[j] == ys[i]
  {
    if i + 1 < |xs| {
      PrefixPermutes(xs, ys, i + 1);
    } else {
      assert xs[..i + 1] == xs && ys[..i + 1] == ys;
    }
    assert ys[..i + 1][i] in multiset(xs[..i + 1]);
    j :| 0 <= j < i + 1 && xs[..i + 1][j] == ys[i];
  }

  lemma {:induction false} ChoicesAbove<T>(xs: seq<T>, c: seq<nat>, d: seq<nat>, i: nat)
    requires Choices(c, |xs|) && Choices(d, |xs|) && i < |xs| && forall k | 0 <= k <= i :: c[k] == d[k]
    ensures Shuffle(xs, c, i) == Shuffle(xs, d, i)
    decreases i
  {
    if i > 0 {
      ChoicesAbove(Swap(xs, i, c[i]), c, d, i - 1);
    }
  }

  predicate SameChoices(c: seq<nat>, d: seq<nat>) {
    |c| == |d| && forall k | 0 < k < |c| :: c[k] == d[k]
  }

  /** Every order of distinct implementations comes from exactly one sequence of choices. */
  lemma EachOrderOnce<T(!new)>(xs: seq<T>, ys: seq<T>)
    requires Distinct(xs) && multiset(xs) == multiset(ys)
    ensures exists c :: Choices(c, |xs|) && ShuffleAll(xs, c) == ys
    ensures forall c, d | Choices(c, |xs|) && Choices(d, |xs|) && ShuffleAll(xs, c) == ys == ShuffleAll(xs, d) :: SameChoices(c, d)
  {
    assert |xs| == |multiset(xs)| == |multiset(ys)| == |ys|;
    if xs == [] {
      assert Choices([], 0) && ShuffleAll(xs, []) == ys;
    } else {
      assert xs[|xs|..] == ys[|xs|..];
      var choices := ChoicesExist(xs, ys, |xs| - 1);
      forall c, d | Choices(c, |xs|) && Choices(d, |xs|) && ShuffleAll(xs, c) == ys == ShuffleAll(xs, d) ensures SameChoices(c, d) {
        ChoicesRecovered(xs, c, d, |xs| - 1);
      }
    }
  }

  // ---- the source's loop ------------------------------------------------------------------------

  /** The generator's state before the choice for index `i`. */
  function StateAt(state: Uint64, n: nat, i: nat): Uint64
    requires i < n <= MODULUS
    decreases n - i
  {
    if i == n - 1 then state else StateAfter(StateAt(state, n, i + 1), i + 2)
  }

  /** The choices the generator makes. */
  function Drawn(state: Uint64, n: nat): (choices: seq<nat>)
    requires n <= MODULUS
    ensures Choices(choices, n)
  {
    seq(n, i requires 0 <= i < n => if i == 0 then 0 else IndexAfter(StateAt(state, n, i), i + 1) as nat)
  }

  lemma {:induction false} LaterState(state: Uint64, n: nat, i: nat)
    requires i + 1 < n <= MODULUS
    ensures StateAt(state, n, i) == StateAt(StateAfter(state, n), n - 1, i)
    decreases n - i
  {
    hide StateAfter;
    if i + 2 < n {
      LaterState(state, n, i + 1);
    }
  }

  /** The first index drawn is for the last position, out of `n`; the others are those for one implementation less. */
  lemma DrawnFromTheEnd(state: Uint64, n: nat)
    requires 2 <= n <= MODULUS
    ensures Drawn(state, n) == Drawn(StateAfter(state, n), n - 1) + [IndexAfter(state, n)]
  {
    hide StateAfter, IndexAfter, StateAt;
    var a, b := Drawn(state, n), Drawn(StateAfter(state, n), n - 1);
    forall i | 0 <= i < n - 1 ensures a[i] == b[i] {
      if i > 0 {
        LaterState(state, n, i);
      }
    }
    assert StateAt(state, n, n - 1) == state by { LastState(state, n); }
  }

  lemma LastState(state: Uint64, n: nat)
    requires 0 < n <= MODULUS
    ensures StateAt(state, n, n - 1) == state
  {
  }

  /** The first choice settles the last position; the rest is a shuffle of the others. */
  lemma FirstChoiceIsLast<T>(xs: seq<T>, choices: seq<nat>)
    requires |xs| >= 2 && Choices(choices, |xs|)
    ensures var n := |xs| - 1; ShuffleAll(xs, choices)[n] == xs[choices[n]]
    ensures var n := |xs| - 1;
      ShuffleAll(xs, choices)[..n] == ShuffleAll(xs[choices[n] := xs[n]][..n], choices[..n])
  {
    var n := |xs| - 1;
    Settled(xs, choices, n);
    var swapped := Swap(xs, n, choices[n]);
    PrefixShuffles(swapped, choices, n - 1);
    assert swapped[..n] == xs[choices[n] := xs[n]][..n];
  }

  lemma {:induction false} PrefixShuffles<T>(xs: seq<T>, choices: seq<nat>, i: nat)
    requires xs != [] && Choices(choices, |xs|) && i + 1 < |xs|
    ensures Shuffle(xs, choices, i)[..|xs| - 1] == Shuffle(xs[..|xs| - 1], choices[..|xs| - 1], i)
    decreases i
  {
    if i > 0 {
      PrefixShuffles(Swap(xs, i, choices[i]), choices, i - 1);
      assert Swap(xs, i, choices[i])[..|xs| - 1] == Swap(xs[..|xs| - 1], i, choices[i]);
    }
  }

  lemma AllSettled<T>(xs: seq<T>, choices: seq<nat>)
    requires Choices(choices, |xs|) && xs != []
    ensures Shuffle(xs, choices, 0) == xs
  {
  }

  /** A copy of the implementations, shuffled by the stream of this coordinate pair; the input is left alone. */
  method PairedFisherYatesOrder<T>(implementations: array<T>, orderSeed: int, caseOrdinal: int, ordinal: int)
    returns (r: Result<array<T>, OrdinalError>)
    requires implementations.Length <= MODULUS
    ensures implementations[..] == old(implementations[..])
    ensures match CreateState(orderSeed, caseOrdinal, ordinal)
            case Err(e) => r == Err(e)
            case Ok(start) =>
              && r.Ok? && fresh(r.value)
              && r.value[..] == ShuffleAll(implementations[..], Drawn(start, implementations.Length))
              && multiset(r.value[..]) == multiset(implementations[..])
  {
    hide IndexAfter, StateAfter, CreateState, Shuffle;
    var created := CreateState(orderSeed, caseOrdinal, ordinal);
    if created.Err? { return Err(created.error); }
    var generator := new GeneratorState(created.value);
    var n := implementations.Length;
    ghost var xs, choices := implementations[..], Drawn(generator.value, n);
    var ordered;
    if n == 0 {
      ordered := new T[0];
      assert ordered[..] == [];
      return Ok(ordered);
    }
    ordered := new T[n](i requires 0 <= i < n reads implementations => implementations[i]);
    assert ordered[..] == xs;
    var index := n - 1;
    while index > 0
      invariant 0 <= index < n && fresh(ordered) && fresh(generator) && ordered.Length == n
      invariant generator.value == StateAt(created.value, n, index)
      invariant Shuffle(ordered[..], choices, index) == Shuffle(xs, choices, n - 1)
    {
      ghost var before := ordered[..];
      var swapIndex := generator.NextIndex(index + 1);
      var current := ordered[index];
      ordered[index] := ordered[swapIndex];
      ordered[swapIndex] := current;
      assert ordered[..] == Swap(before, index, choices[index]);
      Settled(before, choices, index);
      index := index - 1;
    }
    AllSettled(ordered[..], choices);
    ShufflePermutes(xs, choices, n - 1);
    return Ok(ordered);
  }
}
