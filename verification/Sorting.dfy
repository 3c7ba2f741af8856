/**
 Sorting by a byte-string key, as the codec sorts object keys, set members and
 dict entries. What matters is not the algorithm but its result: for distinct
 keys the sorted sequence depends only on the multiset of entries.
 */
module Sorting {
  import opened Unicode

  datatype Keyed<+T> = Keyed(key: seq<int>, item: T)

  function Insert<T>(x: Keyed<T>, ks: seq<Keyed<T>>): seq<Keyed<T>> {
    if ks == [] then [x]
    else if Less(ks[0].key, x.key) then [ks[0]] + Insert(x, ks[1..])
    else [x] + ks
  }

  function Sort<T>(ks: seq<Keyed<T>>): (r: seq<Keyed<T>>) {
    if ks == [] then [] else Insert(ks[0], Sort(ks[1..]))
  }

  /** No entry is smaller than one before it. */
  predicate Ascending<T>(ks: seq<Keyed<T>>) {
    forall i, j | 0 <= i < j < |ks| :: !Less(ks[j].key, ks[i].key)
  }

  predicate Strict<T>(ks: seq<Keyed<T>>) {
    forall i, j | 0 <= i < j < |ks| :: Less(ks[i].key, ks[j].key)
  }

  predicate Distinct<T>(ks: seq<Keyed<T>>) {
    forall i, j | 0 <= i < j < |ks| :: ks[i].key != ks[j].key
  }

  /** What the encoder and decoder look at: neighbours only. */
  predicate NeighboursAscend<T>(ks: seq<Keyed<T>>) {
    forall i | 0 < i < |ks| :: Less(ks[i - 1].key, ks[i].key)
  }

  lemma {:induction false} InsertKeeps<T>(x: Keyed<T>, ks: seq<Keyed<T>>)
    ensures multiset(Insert(x, ks)) == multiset{x} + multiset(ks)
    ensures |Insert(x, ks)| == |ks| + 1
  {
    if ks != [] && Less(ks[0].key, x.key) {
      InsertKeeps(x, ks[1..]);
      assert ks == [ks[0]] + ks[1..];
      assert multiset(Insert(x, ks)) == multiset{ks[0]} + multiset(Insert(x, ks[1..]));
    }
  }

  lemma {:induction false} SortKeeps<T>(ks: seq<Keyed<T>>)
    ensures multiset(Sort(ks)) == multiset(ks) && |Sort(ks)| == |ks|
  {
    if ks != [] {
      SortKeeps(ks[1..]);
      InsertKeeps(ks[0], Sort(ks[1..]));
      assert ks == [ks[0]] + ks[1..];
    }
  }

  lemma LessNegates(a: seq<int>, b: seq<int>, c: seq<int>)
    requires !Less(b, a) && !Less(c, b)
    ensures !Less(c, a)
  {
    LessTrichotomy(a, b);
    LessTrichotomy(b, c);
    if Less(c, a) {
      LessTrichotomy(a, c);
      if Less(a, b) {
        LessTransitive(c, a, b);
      }
    }
  }

  lemma {:induction false} InsertAscends<T>(x: Keyed<T>, ks: seq<Keyed<T>>)
    requires Ascending(ks)
    ensures Ascending(Insert(x, ks))
  {
    if ks == [] {
    } else if Less(ks[0].key, x.key) {
      InsertAscends(x, ks[1..]);
      InsertKeeps(x, ks[1..]);
      var r := Insert(x, ks[1..]);
      LessTrichotomy(ks[0].key, x.key);
      forall j | 0 <= j < |r| ensures !Less(r[j].key, ks[0].key) {
        assert r[j] in multiset(r);
        assert r[j] == x || r[j] in ks[1..];
      }
    } else {
      forall j | 0 <= j < |ks| ensures !Less(ks[j].key, x.key) {
        if j > 0 {
          LessNegates(x.key, ks[0].key, ks[j].key);
        }
      }
    }
  }

  lemma {:induction false} SortAscends<T>(ks: seq<Keyed<T>>)
    ensures Ascending(Sort(ks))
  {
    if ks != [] {
      SortAscends(ks[1..]);
      InsertAscends(ks[0], Sort(ks[1..]));
    }
  }

  // ---- strict order ------------------------------------------------------------

  lemma {:induction false} NeighboursSuffice<T>(ks: seq<Keyed<T>>)
    ensures NeighboursAscend(ks) <==> Strict(ks)
  {
    if NeighboursAscend(ks) && |ks| > 1 {
      var n := |ks| - 1;
      NeighboursSuffice(ks[..n]);
      forall i | 0 <= i < n ensures Less(ks[i].key, ks[n].key) {
        if i < n - 1 {
          assert Less(ks[..n][i].key, ks[..n][n - 1].key);
          LessTransitive(ks[i].key, ks[n - 1].key, ks[n].key);
        }
      }
      forall i, j | 0 <= i < j < |ks| ensures Less(ks[i].key, ks[j].key) {
        if j < n {
          assert Less(ks[..n][i].key, ks[..n][j].key);
        }
      }
    }
  }

  lemma StrictIsDistinct<T>(ks: seq<Keyed<T>>)
    requires Ascending(ks)
    ensures Strict(ks) <==> Distinct(ks)
  {
    forall i, j | 0 <= i < j < |ks| ensures Less(ks[i].key, ks[j].key) <==> ks[i].key != ks[j].key {
      LessTrichotomy(ks[i].key, ks[j].key);
    }
  }

  lemma {:induction false} SortSorted<T>(ks: seq<Keyed<T>>)
    requires Strict(ks)
    ensures Sort(ks) == ks
  {
    if ks != [] {
      assert Strict(ks[1..]);
      SortSorted(ks[1..]);
      assert ks == [ks[0]] + ks[1..];
      if |ks| > 1 {
        LessTrichotomy(ks[0].key, ks[1].key);
      }
    }
  }

  // ---- the result depends only on the multiset --------------------------------------

  lemma SmallestIsFirst<T>(a: seq<Keyed<T>>, b: seq<Keyed<T>>)
    requires Strict(a) && Strict(b) && multiset(a) == multiset(b) && a != []
    ensures b != [] && a[0] == b[0]
  {
    assert a[0] in multiset(b);
    assert b[0] in multiset(a);
    var i :| 0 <= i < |b| && b[i] == a[0];
    var j :| 0 <= j < |a| && a[j] == b[0];
    if i > 0 && j > 0 {
      LessTrichotomy(a[0].key, b[0].key);
    }
  }

  lemma {:induction false} StrictUnique<T>(a: seq<Keyed<T>>, b: seq<Keyed<T>>)
    requires Strict(a) && Strict(b) && multiset(a) == multiset(b)
    ensures a == b
  {
    assert |a| == |multiset(a)| == |multiset(b)| == |b|;
    if a != [] {
      SmallestIsFirst(a, b);
      assert a == [a[0]] + a[1..] && b == [b[0]] + b[1..];
      assert multiset(a[1..]) == multiset(a) - multiset{a[0]};
      assert multiset(b[1..]) == multiset(b) - multiset{b[0]};
      StrictUnique(a[1..], b[1..]);
    }
  }

  lemma DistinctPermuted<T>(a: seq<Keyed<T>>, b: seq<Keyed<T>>)
    requires multiset(a) == multiset(b) && Distinct(a)
    ensures Distinct(b)
  {
    forall i, j | 0 <= i < j < |b| ensures b[i].key != b[j].key {
      assert b[i] in multiset(a) && b[j] in multiset(a);
      if b[i] == b[j] {
        TwoOf(b, i, j);
        TwiceIn(a, b[i]);
        assert false;
      } else {
        var p :| 0 <= p < |a| && a[p] == b[i];
        var q :| 0 <= q < |a| && a[q] == b[j];
      }
    }
  }

  lemma TwoOf<T>(b: seq<T>, i: nat, j: nat)
    requires i < j < |b| && b[i] == b[j]
    ensures multiset(b)[b[i]] >= 2
  {
    var rest := b[..j] + b[j + 1..];
    assert b == b[..j] + [b[j]] + b[j + 1..];
    assert rest[i] == b[i];
    assert multiset(b) == multiset(rest) + multiset{b[j]};
    assert b[i] in multiset(rest);
  }

  lemma TwiceIn<T>(a: seq<T>, x: T)
    requires multiset(a)[x] >= 2
    ensures exists p, q :: 0 <= p < q < |a| && a[p] == x == a[q]
  {
    assert x in multiset(a);
    var p :| 0 <= p < |a| && a[p] == x;
    var rest := a[..p] + a[p + 1..];
    assert a == a[..p] + [a[p]] + a[p + 1..];
    assert multiset(a) == multiset(rest) + multiset{x};
    assert x in multiset(rest);
    var q :| 0 <= q < |rest| && rest[q] == x;
    if q < p {
      assert a[q] == x;
    } else {
      assert a[q + 1] == x;
    }
  }

  /** The encoder's duplicate check fails exactly when two entries share a key. */
  lemma SortedStrictIffDistinct<T>(ks: seq<Keyed<T>>)
    ensures NeighboursAscend(Sort(ks)) <==> Distinct(ks)
    ensures Strict(Sort(ks)) <==> Distinct(ks)
  {
    NeighboursSuffice(Sort(ks));
    SortAscends(ks);
    StrictIsDistinct(Sort(ks));
    SortKeeps(ks);
    if Distinct(ks) {
      DistinctPermuted(ks, Sort(ks));
    }
    if Distinct(Sort(ks)) {
      DistinctPermuted(Sort(ks), ks);
    }
  }

  /** Reordering the entries changes neither the outcome of the duplicate check nor the result. */
  lemma SortIgnoresOrder<T>(a: seq<Keyed<T>>, b: seq<Keyed<T>>)
    requires multiset(a) == multiset(b)
    ensures Distinct(a) <==> Distinct(b)
    ensures Distinct(a) ==> Sort(a) == Sort(b)
  {
    if Distinct(a) {
      DistinctPermuted(a, b);
      SortedStrictIffDistinct(a);
      SortedStrictIffDistinct(b);
      SortKeeps(a);
      SortKeeps(b);
      StrictUnique(Sort(a), Sort(b));
    }
    if Distinct(b) {
      DistinctPermuted(b, a);
    }
  }

  // ---- sorting commutes with relabelling ------------------------------------------

  function Relabel<T, V>(f: T -> V, ks: seq<Keyed<T>>): (r: seq<Keyed<V>>)
    ensures |r| == |ks|
    ensures forall i | 0 <= i < |ks| :: r[i] == Keyed(ks[i].key, f(ks[i].item))
  {
    seq(|ks|, i requires 0 <= i < |ks| => Keyed(ks[i].key, f(ks[i].item)))
  }

  lemma {:induction false} InsertRelabel<T, V>(f: T -> V, x: Keyed<T>, ks: seq<Keyed<T>>)
    ensures Insert(Keyed(x.key, f(x.item)), Relabel(f, ks)) == Relabel(f, Insert(x, ks))
  {
    if ks != [] && Less(ks[0].key, x.key) {
      InsertRelabel(f, x, ks[1..]);
      assert Relabel(f, ks)[1..] == Relabel(f, ks[1..]);
      assert Relabel(f, Insert(x, ks)) == [Relabel(f, ks)[0]] + Relabel(f, Insert(x, ks[1..]));
    } else {
      assert Relabel(f, [x] + ks) == [Keyed(x.key, f(x.item))] + Relabel(f, ks);
    }
  }

  lemma {:induction false} SortRelabel<T, V>(f: T -> V, ks: seq<Keyed<T>>)
    ensures Sort(Relabel(f, ks)) == Relabel(f, Sort(ks))
  {
    if ks != [] {
      SortRelabel(f, ks[1..]);
      assert Relabel(f, ks)[1..] == Relabel(f, ks[1..]);
      InsertRelabel(f, ks[0], Sort(ks[1..]));
    }
  }
}
