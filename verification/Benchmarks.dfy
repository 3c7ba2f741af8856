/** The two aggregates built from exact statistics: one series, and a candidate paired with the baseline. */
module Benchmarks {
  import opened Wrappers
  import opened Statistics

  // ---- one series (src/benchmark/statistics.ts:95-134) ----------------------------------

  datatype Sample = Sample(warmup: bool, valid: bool, targetNs: Option<int>, peakMemoryBytes: Option<int>)

  function Measured(samples: seq<Sample>): (r: seq<Sample>)
    ensures |r| <= |samples|
  {
    if samples == [] then []
    else Measured(samples[..|samples| - 1]) + if samples[|samples| - 1].warmup then [] else [samples[|samples| - 1]]
  }

  function ValidOnes(samples: seq<Sample>): (r: seq<Sample>)
    ensures |r| <= |samples| && forall s | s in r :: s.valid && s in samples
  {
    if samples == [] then []
    else ValidOnes(samples[..|samples| - 1]) + if samples[|samples| - 1].valid then [samples[|samples| - 1]] else []
  }

  predicate Usable(s: Sample) {
    s.targetNs.Some? && s.targetNs.value >= 0 && (s.peakMemoryBytes.Some? ==> s.peakMemoryBytes.value >= 0)
  }

  predicate AllUsable(samples: seq<Sample>) {
    forall i | 0 <= i < |samples| :: Usable(samples[i])
  }

  function Durations(samples: seq<Sample>): (r: seq<int>)
    requires AllUsable(samples)
    ensures |r| == |samples| && forall i | 0 <= i < |r| :: Some(r[i]) == samples[i].targetNs && r[i] >= 0
  {
    if samples == [] then []
    else
      assert Usable(samples[|samples| - 1]);
      Durations(samples[..|samples| - 1]) + [samples[|samples| - 1].targetNs.value]
  }

  /** The peak memory of the samples that have one. */
  function Memory(samples: seq<Sample>): seq<int> {
    if samples == [] then []
    else
      var last := samples[|samples| - 1];
      Memory(samples[..|samples| - 1]) + if last.peakMemoryBytes.Some? then [last.peakMemoryBytes.value] else []
  }

  datatype Aggregate = Aggregate(
    count: nat, validCount: nat, failedCount: nat,
    min: Option<int>, median: Option<int>, p90: Option<int>, p95: Option<int>, p99: Option<int>, max: Option<int>,
    mean: Option<int>, deviation: Option<nat>,
    memoryMedian: Option<int>, memoryP95: Option<int>, memoryMax: Option<int>)

  // What is aggregated, said of the samples themselves.

  /** Where the samples of a series count. */
  ghost function MeasuredAt(samples: seq<Sample>): set<int> {
    set i | 0 <= i < |samples| && !samples[i].warmup
  }

  ghost function ValidAt(samples: seq<Sample>): set<int> {
    set i | 0 <= i < |samples| && !samples[i].warmup && samples[i].valid
  }

  /** Each duration as often as a valid measured sample has it. */
  ghost predicate AreDurations(samples: seq<Sample>, durations: seq<int>) {
    forall d :: multiset(durations)[d] ==
                |set i | 0 <= i < |samples| && !samples[i].warmup && samples[i].valid && samples[i].targetNs == Some(d)|
  }

  ghost predicate AreMemory(samples: seq<Sample>, memory: seq<int>) {
    forall m :: multiset(memory)[m] ==
                |set i | 0 <= i < |samples| && !samples[i].warmup && samples[i].valid && samples[i].peakMemoryBytes == Some(m)|
  }

  function Tally(samples: seq<Sample>, p: Sample -> bool): nat {
    if samples == [] then 0
    else Tally(samples[..|samples| - 1], p) + if p(samples[|samples| - 1]) then 1 else 0
  }

  lemma {:induction false} TallyCounts(samples: seq<Sample>, p: Sample -> bool)
    ensures |set i | 0 <= i < |samples| && p(samples[i])| == Tally(samples, p)
  {
    var at := set i | 0 <= i < |samples| && p(samples[i]);
    if samples == [] {
      assert at == {};
    } else {
      var n := |samples| - 1;
      var init := samples[..n];
      TallyCounts(init, p);
      var before := set i | 0 <= i < |init| && p(init[i]);
      assert at == before + if p(samples[n]) then {n} else {};
    }
  }

  lemma MeasuredSnoc(init: seq<Sample>, last: Sample)
    ensures Measured(init + [last]) == Measured(init) + if last.warmup then [] else [last]
  {
    assert (init + [last])[..|init|] == init;
  }

  lemma ValidSnoc(init: seq<Sample>, last: Sample)
    ensures ValidOnes(init + [last]) == ValidOnes(init) + if last.valid then [last] else []
  {
    assert (init + [last])[..|init|] == init;
  }

  lemma KeptSnoc(samples: seq<Sample>)
    requires samples != []
    ensures var last, init := samples[|samples| - 1], samples[..|samples| - 1];
      ValidOnes(Measured(samples)) == ValidOnes(Measured(init)) + if !last.warmup && last.valid then [last] else []
  {
    hide Measured, ValidOnes;
    var last, init := samples[|samples| - 1], samples[..|samples| - 1];
    assert samples == init + [last];
    MeasuredSnoc(init, last);
    if last.warmup {
      assert Measured(init) + [] == Measured(init);
    } else {
      ValidSnoc(Measured(init), last);
    }
  }

  lemma {:induction false} MeasuredTally(samples: seq<Sample>, p: Sample -> bool)
    requires forall s :: p(s) <==> !s.warmup
    ensures |Measured(samples)| == Tally(samples, p)
  {
    if samples != [] {
      MeasuredTally(samples[..|samples| - 1], p);
    }
  }

  lemma {:induction false} ValidTally(samples: seq<Sample>, p: Sample -> bool)
    requires forall s :: p(s) <==> !s.warmup && s.valid
    ensures |ValidOnes(Measured(samples))| == Tally(samples, p)
  {
    if samples != [] {
      hide Measured, ValidOnes;
      ValidTally(samples[..|samples| - 1], p);
      KeptSnoc(samples);
    } else {
      assert Measured(samples) == [] && ValidOnes([]) == [];
    }
  }

  lemma DurationsSnoc(valid: seq<Sample>, s: Sample)
    requires AllUsable(valid + [s])
    ensures AllUsable(valid) && s.targetNs.Some? && Durations(valid + [s]) == Durations(valid) + [s.targetNs.value]
  {
    var all := valid + [s];
    assert Usable(all[|valid|]) && all[..|valid|] == valid;
    forall i | 0 <= i < |valid| ensures Usable(valid[i]) {
      assert Usable(all[i]);
    }
  }

  lemma {:induction false} DurationsTally(samples: seq<Sample>, d: int, p: Sample -> bool)
    requires AllUsable(ValidOnes(Measured(samples)))
    requires forall s :: p(s) <==> !s.warmup && s.valid && s.targetNs == Some(d)
    ensures multiset(Durations(ValidOnes(Measured(samples))))[d] == Tally(samples, p)
  {
    if samples != [] {
      hide Measured, ValidOnes, Durations, Usable, AllUsable;
      var last, init := samples[|samples| - 1], samples[..|samples| - 1];
      KeptSnoc(samples);
      var kept := ValidOnes(Measured(init));
      if !last.warmup && last.valid {
        DurationsSnoc(kept, last);
      } else {
        assert kept + [] == kept;
      }
      DurationsTally(init, d, p);
    } else {
      assert Measured(samples) == [] && ValidOnes([]) == [];
    }
  }

  lemma MemorySnoc(valid: seq<Sample>, s: Sample)
    ensures Memory(valid + [s]) == Memory(valid) + if s.peakMemoryBytes.Some? then [s.peakMemoryBytes.value] else []
  {
    assert (valid + [s])[..|valid|] == valid;
  }

  lemma {:induction false} MemoryTally(samples: seq<Sample>, m: int, p: Sample -> bool)
    requires forall s :: p(s) <==> !s.warmup && s.valid && s.peakMemoryBytes == Some(m)
    ensures multiset(Memory(ValidOnes(Measured(samples))))[m] == Tally(samples, p)
  {
    if samples != [] {
      hide Measured, ValidOnes, Memory;
      var last, init := samples[|samples| - 1], samples[..|samples| - 1];
      KeptSnoc(samples);
      MemoryTally(init, m, p);
      var kept := ValidOnes(Measured(init));
      if !last.warmup && last.valid {
        MemorySnoc(kept, last);
      } else {
        assert kept + [] == kept;
      }
    } else {
      assert Measured(samples) == [] && ValidOnes([]) == [];
    }
  }

  lemma {:induction false} KeptAre(samples: seq<Sample>, s: Sample)
    ensures s in ValidOnes(Measured(samples)) <==>
            exists i | 0 <= i < |samples| :: samples[i] == s && !samples[i].warmup && samples[i].valid
  {
    if samples != [] {
      hide Measured, ValidOnes;
      var last, init := samples[|samples| - 1], samples[..|samples| - 1];
      KeptSnoc(samples);
      KeptAre(init, s);
      if i :| 0 <= i < |samples| && samples[i] == s && !samples[i].warmup && samples[i].valid {
        assert i < |init| ==> init[i] == s;
      }
    }
  }

  lemma UsableIff(samples: seq<Sample>)
    ensures AllUsable(ValidOnes(Measured(samples))) <==>
            forall i | 0 <= i < |samples| && !samples[i].warmup && samples[i].valid :: Usable(samples[i])
  {
    hide Usable, Measured, ValidOnes;
    var kept := ValidOnes(Measured(samples));
    forall i | 0 <= i < |kept|
      ensures exists k | 0 <= k < |samples| :: samples[k] == kept[i] && !samples[k].warmup && samples[k].valid
    {
      KeptAre(samples, kept[i]);
      assert kept[i] in kept;
    }
    forall i | 0 <= i < |samples| && !samples[i].warmup && samples[i].valid ensures samples[i] in kept {
      KeptAre(samples, samples[i]);
    }
  }

  /** The filters of the source select by warm-up and validity, each sample as often as it occurs. */
  lemma FiltersSelect(samples: seq<Sample>)
    ensures |Measured(samples)| == |MeasuredAt(samples)| && |ValidOnes(Measured(samples))| == |ValidAt(samples)|
    ensures AllUsable(ValidOnes(Measured(samples))) ==> AreDurations(samples, Durations(ValidOnes(Measured(samples))))
    ensures AreMemory(samples, Memory(ValidOnes(Measured(samples))))
  {
    hide Measured, ValidOnes, Durations, Memory, Tally, AllUsable;
    var measured := (s: Sample) => !s.warmup;
    var valid := (s: Sample) => !s.warmup && s.valid;
    MeasuredTally(samples, measured);
    ValidTally(samples, valid);
    TallyCounts(samples, measured);
    TallyCounts(samples, valid);
    assert MeasuredAt(samples) == set i | 0 <= i < |samples| && measured(samples[i]);
    assert ValidAt(samples) == set i | 0 <= i < |samples| && valid(samples[i]);
    var kept := ValidOnes(Measured(samples));
    if AllUsable(kept) {
      forall d ensures multiset(Durations(kept))[d] ==
                       |set i | 0 <= i < |samples| && !samples[i].warmup && samples[i].valid && samples[i].targetNs == Some(d)|
      {
        var p := (s: Sample) => !s.warmup && s.valid && s.targetNs == Some(d);
        DurationsTally(samples, d, p);
        TallyCounts(samples, p);
        assert (set i | 0 <= i < |samples| && p(samples[i]))
            == set i | 0 <= i < |samples| && !samples[i].warmup && samples[i].valid && samples[i].targetNs == Some(d);
      }
    }
    forall m ensures multiset(Memory(kept))[m] ==
                     |set i | 0 <= i < |samples| && !samples[i].warmup && samples[i].valid && samples[i].peakMemoryBytes == Some(m)|
    {
      var p := (s: Sample) => !s.warmup && s.valid && s.peakMemoryBytes == Some(m);
      MemoryTally(samples, m, p);
      TallyCounts(samples, p);
      assert (set i | 0 <= i < |samples| && p(samples[i]))
          == set i | 0 <= i < |samples| && !samples[i].warmup && samples[i].valid && samples[i].peakMemoryBytes == Some(m);
    }
  }

  method CheckUsable(valid: seq<Sample>) returns (ok: bool)
    ensures ok <==> AllUsable(valid)
  {
    var i := 0;
    while i < |valid|
      invariant 0 <= i <= |valid| && forall k | 0 <= k < i :: Usable(valid[k])
    {
      if !Usable(valid[i]) { return false; }
      i := i + 1;
    }
    return true;
  }

  /** Fails exactly on a valid measured sample without a usable duration or with negative memory. */
  method CalculateStatistics(samples: seq<Sample>)
    returns (r: Result<Aggregate, RangeError>, ghost durations: seq<int>, ghost memory: seq<int>)
    ensures r.Ok? <==>
            forall i | 0 <= i < |samples| && !samples[i].warmup && samples[i].valid ::
              && samples[i].targetNs.Some? && samples[i].targetNs.value >= 0
              && (samples[i].peakMemoryBytes.Some? ==> samples[i].peakMemoryBytes.value >= 0)
    ensures r.Ok? ==> AreDurations(samples, durations) && AreMemory(samples, memory)
    ensures r.Ok? ==> Describes(r.value, samples, durations, memory)
  {
    hide InclusiveRank, IsDeviation, IntegerMean, AllUsable, Measured, ValidOnes, Durations, Memory, AreDurations, AreMemory,
         MeasuredAt, ValidAt;
    durations, memory := [], [];
    var measured := Measured(samples);
    var valid := ValidOnes(measured);
    UsableIff(samples);
    FiltersSelect(samples);
    var ok := CheckUsable(valid);
    if !ok { return Err(RangeError), [], []; }
    var times, sizes := Durations(valid), Memory(valid);
    var deviation := PopulationStandardDeviation(times);
    r := Ok(Aggregate(
      |measured|, |valid|, |measured| - |valid|,
      InclusiveRank(times, 0), InclusiveRank(times, 50), InclusiveRank(times, 90), InclusiveRank(times, 95),
      InclusiveRank(times, 99), InclusiveRank(times, 100), IntegerMean(times), deviation,
      InclusiveRank(sizes, 50), InclusiveRank(sizes, 95), InclusiveRank(sizes, 100)));
    durations, memory := times, sizes;
  }

  /** What each field of the aggregate is. */
  ghost predicate Describes(a: Aggregate, samples: seq<Sample>, durations: seq<int>, memory: seq<int>) {
    && a.count == |MeasuredAt(samples)| && a.validCount == |ValidAt(samples)| && a.count == a.validCount + a.failedCount
    && a.min == InclusiveRank(durations, 0) && a.median == InclusiveRank(durations, 50)
    && a.p90 == InclusiveRank(durations, 90) && a.p95 == InclusiveRank(durations, 95)
    && a.p99 == InclusiveRank(durations, 99) && a.max == InclusiveRank(durations, 100)
    && a.mean == IntegerMean(durations)
    && (a.deviation.None? <==> durations == [])
    && (a.deviation.Some? ==> IsDeviation(durations, a.deviation.value))
    && a.memoryMedian == InclusiveRank(memory, 50) && a.memoryP95 == InclusiveRank(memory, 95)
    && a.memoryMax == InclusiveRank(memory, 100)
  }

  /** The distribution is in order, and the mean lies within it. */
  lemma AggregateIsOrdered(a: Aggregate, samples: seq<Sample>, durations: seq<int>, memory: seq<int>)
    requires Describes(a, samples, durations, memory) && durations != []
    ensures
      && a.min.Some? && a.median.Some? && a.p90.Some? && a.p95.Some? && a.p99.Some? && a.max.Some? && a.mean.Some?
      && a.min.value <= a.median.value <= a.p90.value <= a.p95.value <= a.p99.value <= a.max.value
      && a.min.value <= a.mean.value <= a.max.value
    ensures memory != [] ==>
              && a.memoryMedian.Some? && a.memoryP95.Some? && a.memoryMax.Some?
              && a.memoryMedian.value <= a.memoryP95.value <= a.memoryMax.value
  {
    hide InclusiveRank, IsDeviation;
    if memory != [] {
      RankIsMonotone(memory, 50, 95);
      RankIsMonotone(memory, 95, 100);
    }
    RankIsMonotone(durations, 0, 50);
    RankIsMonotone(durations, 50, 90);
    RankIsMonotone(durations, 90, 95);
    RankIsMonotone(durations, 95, 99);
    RankIsMonotone(durations, 99, 100);
    MeanIsBetween(durations);
  }

  // ---- paired with the baseline (src/benchmark/statistics.ts:162-230) ------------------------

  const MAX_SAFE_INTEGER := 0x1f_ffff_ffff_ffff

  type Coordinate = (int, int)

  datatype Paired = Paired(caseOrdinal: int, ordinal: int, warmup: bool, valid: bool, targetNs: Option<int>)

  predicate Counts(p: Paired) {
    !p.warmup && p.valid
  }

  predicate Acceptable(p: Paired) {
    && 0 <= p.caseOrdinal <= MAX_SAFE_INTEGER && 0 <= p.ordinal <= MAX_SAFE_INTEGER
    && (Counts(p) ==> p.targetNs.Some? && p.targetNs.value >= 0)
  }

  function At(p: Paired): Coordinate {
    (p.caseOrdinal, p.ordinal)
  }

  /** Every sample is in range and no coordinate counts twice. */
  predicate WellPaired(samples: seq<Paired>) {
    && (forall i | 0 <= i < |samples| :: Acceptable(samples[i]))
    && forall i, j | 0 <= i < j < |samples| && Counts(samples[i]) && Counts(samples[j]) :: At(samples[i]) != At(samples[j])
  }

  /** The counting samples by coordinate: the map, and its keys in insertion order. */
  ghost predicate IsIndex(samples: seq<Paired>, index: map<Coordinate, int>) {
    && (forall i | 0 <= i < |samples| && Counts(samples[i]) ::
          At(samples[i]) in index && Some(index[At(samples[i])]) == samples[i].targetNs)
    && forall c | c in index :: exists i | 0 <= i < |samples| :: Counts(samples[i]) && At(samples[i]) == c
  }

  method SuccessfulMeasuredByCoordinate(samples: seq<Paired>)
    returns (r: Result<(map<Coordinate, int>, seq<Coordinate>), RangeError>)
    ensures r.Ok? <==> WellPaired(samples)
    ensures r.Ok? ==> IsIndex(samples, r.value.0) && Lists(r.value.1, r.value.0)
  {
    var index: map<Coordinate, int> := map[];
    var order: seq<Coordinate> := [];
    var i := 0;
    while i < |samples|
      invariant 0 <= i <= |samples| && WellPaired(samples[..i])
      invariant IsIndex(samples[..i], index) && Lists(order, index)
    {
      hide IsIndex, WellPaired, Lists;
      var sample := samples[i];
      assert samples[..i + 1] == samples[..i] + [sample];
      WellPairedStep(samples[..i], sample, index);
      WellPairedPrefix(samples, i + 1);
      if !Acceptable(sample) { return Err(RangeError); }
      if Counts(sample) {
        if At(sample) in index { return Err(RangeError); }
        ListsStep(order, index, At(sample), sample.targetNs.value);
        index := index[At(sample) := sample.targetNs.value];
        order := order + [At(sample)];
      }
      i := i + 1;
    }
    assert samples[..|samples|] == samples;
    return Ok((index, order));
  }

  ghost predicate Lists(order: seq<Coordinate>, index: map<Coordinate, int>) {
    (forall c :: c in order <==> c in index) && forall i, j | 0 <= i < j < |order| :: order[i] != order[j]
  }

  lemma ListsStep(order: seq<Coordinate>, index: map<Coordinate, int>, c: Coordinate, d: int)
    requires Lists(order, index) && c !in index
    ensures Lists(order + [c], index[c := d])
  {
  }

  lemma WellPairedPrefix(samples: seq<Paired>, n: nat)
    requires n <= |samples|
    ensures WellPaired(samples) ==> WellPaired(samples[..n])
  {
  }

  lemma TakenBefore(samples: seq<Paired>, next: Paired, index: map<Coordinate, int>)
    requires IsIndex(samples, index)
    ensures At(next) in index <==> exists i | 0 <= i < |samples| :: Counts(samples[i]) && At(samples[i]) == At(next)
  {
  }

  lemma PairedTwice(samples: seq<Paired>, next: Paired, i: nat)
    requires i < |samples| && Counts(samples[i]) && Counts(next) && At(samples[i]) == At(next)
    ensures !WellPaired(samples + [next])
  {
    var all := samples + [next];
    assert all[i] == samples[i] && all[|samples|] == next;
  }

  lemma WellPairedStep(samples: seq<Paired>, next: Paired, index: map<Coordinate, int>)
    requires WellPaired(samples) && IsIndex(samples, index)
    ensures WellPaired(samples + [next]) <==> Acceptable(next) && !(Counts(next) && At(next) in index)
    ensures Acceptable(next) && Counts(next) && At(next) !in index ==>
              IsIndex(samples + [next], index[At(next) := next.targetNs.value])
    ensures !Counts(next) ==> IsIndex(samples + [next], index)
  {
    var all := samples + [next];
    assert all[|samples|] == next && forall i | 0 <= i < |samples| :: all[i] == samples[i];
    TakenBefore(samples, next, index);
    if Counts(next) && At(next) in index {
      var i :| 0 <= i < |samples| && Counts(samples[i]) && At(samples[i]) == At(next);
      PairedTwice(samples, next, i);
    }
    if Acceptable(next) && Counts(next) && At(next) !in index {
      IndexGrows(samples, next, index, index[At(next) := next.targetNs.value]);
    }
    if !Counts(next) {
      IndexGrows(samples, next, index, index);
    }
  }

  lemma IndexGrows(samples: seq<Paired>, next: Paired, index: map<Coordinate, int>, grown: map<Coordinate, int>)
    requires IsIndex(samples, index) && (forall c | c in index && (c != At(next) || !Counts(next)) :: c in grown && grown[c] == index[c])
    requires Counts(next) ==> At(next) in grown && Some(grown[At(next)]) == next.targetNs && At(next) !in index
    requires forall c | c in grown :: c in index || (Counts(next) && c == At(next))
    ensures IsIndex(samples + [next], grown)
  {
    var all := samples + [next];
    assert all[|samples|] == next && forall i | 0 <= i < |samples| :: all[i] == samples[i];
    forall c | c in grown ensures exists i | 0 <= i < |all| :: Counts(all[i]) && At(all[i]) == c {
      if c in index {
        var i :| 0 <= i < |samples| && Counts(samples[i]) && At(samples[i]) == c;
        assert Counts(all[i]) && At(all[i]) == c;
      } else {
        assert Counts(all[|samples|]);
      }
    }
  }

  lemma {:induction false} IndexIsUnique(xs: seq<Paired>, ys: seq<Paired>, f: map<Coordinate, int>, g: map<Coordinate, int>)
    requires IsIndex(xs, f) && IsIndex(ys, g) && multiset(xs) == multiset(ys)
    ensures f == g
  {
    forall c ensures c in f ==> c in g && f[c] == g[c] {
      if c in f {
        var i :| 0 <= i < |xs| && Counts(xs[i]) && At(xs[i]) == c;
        assert xs[i] in multiset(ys);
        var j :| 0 <= j < |ys| && ys[j] == xs[i];
      }
    }
    forall c ensures c in g ==> c in f {
      if c in g {
        var j :| 0 <= j < |ys| && Counts(ys[j]) && At(ys[j]) == c;
        assert ys[j] in multiset(xs);
        var i :| 0 <= i < |xs| && xs[i] == ys[j];
      }
    }
  }

  datatype Delta = Delta(pairCount: nat, medianDelta: Option<int>, baselineMedian: Option<int>, ratio: Option<Ratio>)

  datatype Ratio = Ratio(numerator: int, denominator: int)

  /** Deltas and baseline durations at the coordinates both sides have, in the given order. */
  function Deltas(order: seq<Coordinate>, candidate: map<Coordinate, int>, baseline: map<Coordinate, int>): seq<int>
    requires forall c | c in order :: c in candidate
  {
    if order == [] then []
    else
      (if order[0] in baseline then [candidate[order[0]] - baseline[order[0]]] else [])
      + Deltas(order[1..], candidate, baseline)
  }

  function Shared(order: seq<Coordinate>, baseline: map<Coordinate, int>): seq<int> {
    if order == [] then [] else (if order[0] in baseline then [baseline[order[0]]] else []) + Shared(order[1..], baseline)
  }

  function DeltaOf(deltas: seq<int>, durations: seq<int>): Delta {
    var median, base := InclusiveRank(deltas, 50), InclusiveRank(durations, 50);
    Delta(|deltas|, median, base,
          if median.None? || base.None? || base.value == 0 then None
          else Some(Ratio(median.value, base.value)))
  }

  method PairUp(order: seq<Coordinate>, candidate: map<Coordinate, int>, baseline: map<Coordinate, int>)
    returns (deltas: seq<int>, durations: seq<int>)
    requires forall c | c in order :: c in candidate
    ensures deltas == Deltas(order, candidate, baseline) && durations == Shared(order, baseline) && |deltas| == |durations|
  {
    deltas, durations := [], [];
    var i := 0;
    while i < |order|
      invariant 0 <= i <= |order|
      invariant deltas + Deltas(order[i..], candidate, baseline) == Deltas(order, candidate, baseline)
      invariant durations + Shared(order[i..], baseline) == Shared(order, baseline) && |deltas| == |durations|
    {
      var coordinate := order[i];
      assert order[i..][0] == coordinate && order[i..][1..] == order[i + 1..];
      if coordinate in baseline {
        deltas := deltas + [candidate[coordinate] - baseline[coordinate]];
        durations := durations + [baseline[coordinate]];
      }
      i := i + 1;
    }
    assert order[i..] == [];
  }

  // What is paired, said of the samples themselves.

  /** Candidate sample `i` and baseline sample `j` both count, at one coordinate. */
  predicate Pairs(baseline: seq<Paired>, candidate: seq<Paired>, i: int, j: int) {
    && 0 <= i < |candidate| && 0 <= j < |baseline| && Counts(candidate[i]) && Counts(baseline[j])
    && candidate[i].caseOrdinal == baseline[j].caseOrdinal && candidate[i].ordinal == baseline[j].ordinal
  }

  function Nanoseconds(p: Paired): int {
    if p.targetNs.Some? then p.targetNs.value else 0
  }

  /** The pairs with a difference, candidate minus baseline. */
  ghost function DeltaPairs(baseline: seq<Paired>, candidate: seq<Paired>, d: int): set<(int, int)> {
    set i, j | 0 <= i < |candidate| && 0 <= j < |baseline| && Pairs(baseline, candidate, i, j)
               && Nanoseconds(candidate[i]) - Nanoseconds(baseline[j]) == d :: (i, j)
  }

  ghost function BaselinePairs(baseline: seq<Paired>, candidate: seq<Paired>, d: int): set<(int, int)> {
    set i, j | 0 <= i < |candidate| && 0 <= j < |baseline| && Pairs(baseline, candidate, i, j) && Nanoseconds(baseline[j]) == d :: (i, j)
  }

  /** Each difference as often as a pair of samples has it. */
  ghost predicate AreDeltas(baseline: seq<Paired>, candidate: seq<Paired>, deltas: seq<int>) {
    forall d :: multiset(deltas)[d] == |DeltaPairs(baseline, candidate, d)|
  }

  /** Each baseline duration as often as a pair of samples has it. */
  ghost predicate AreBaselines(baseline: seq<Paired>, candidate: seq<Paired>, durations: seq<int>) {
    forall d :: multiset(durations)[d] == |BaselinePairs(baseline, candidate, d)|
  }

  ghost function DeltaAt(order: seq<Coordinate>, g: map<Coordinate, int>, f: map<Coordinate, int>, d: int): set<Coordinate> {
    set c | c in order && c in f && c in g && g[c] - f[c] == d
  }

  ghost function BaseAt(order: seq<Coordinate>, f: map<Coordinate, int>, d: int): set<Coordinate> {
    set c | c in order && c in f && f[c] == d
  }

  lemma {:induction false} DeltasTally(order: seq<Coordinate>, g: map<Coordinate, int>, f: map<Coordinate, int>, d: int)
    requires Known(order, g) && forall i, j | 0 <= i < j < |order| :: order[i] != order[j]
    ensures multiset(Deltas(order, g, f))[d] == |DeltaAt(order, g, f, d)|
    ensures multiset(Shared(order, f))[d] == |BaseAt(order, f, d)|
  {
    hide Deltas, Shared;
    if order == [] {
      NothingPaired(g, f, d);
    } else {
      var c, rest := order[0], order[1..];
      assert order == [c] + rest;
      DeltasTally(rest, g, f, d);
      DeltasCons(c, rest, g, f);
      DeltaStep(c, rest, g, f, d);
      BaseStep(c, rest, f, d);
      hide DeltaAt, BaseAt;
    }
  }

  lemma NothingPaired(g: map<Coordinate, int>, f: map<Coordinate, int>, d: int)
    ensures Deltas([], g, f) == [] && Shared([], f) == [] && DeltaAt([], g, f, d) == {} && BaseAt([], f, d) == {}
  {
  }

  lemma DeltaStep(c: Coordinate, rest: seq<Coordinate>, g: map<Coordinate, int>, f: map<Coordinate, int>, d: int)
    requires c !in rest && c in g
    ensures |DeltaAt([c] + rest, g, f, d)| == multiset(OneDelta(c, g, f))[d] + |DeltaAt(rest, g, f, d)|
  {
    var here := c in f && g[c] - f[c] == d;
    var all, later := DeltaAt([c] + rest, g, f, d), DeltaAt(rest, g, f, d);
    forall x ensures x in all <==> x in later || (here && x == c) {
    }
    CountOneMore(all, later, c, here);
  }

  lemma BaseStep(c: Coordinate, rest: seq<Coordinate>, f: map<Coordinate, int>, d: int)
    requires c !in rest
    ensures |BaseAt([c] + rest, f, d)| == multiset(OneShared(c, f))[d] + |BaseAt(rest, f, d)|
  {
    var here := c in f && f[c] == d;
    var all, later := BaseAt([c] + rest, f, d), BaseAt(rest, f, d);
    forall x ensures x in all <==> x in later || (here && x == c) {
    }
    CountOneMore(all, later, c, here);
  }

  lemma CountOneMore<X>(all: set<X>, later: set<X>, x: X, here: bool)
    requires x !in later && forall y :: y in all <==> y in later || (here && y == x)
    ensures |all| == |later| + if here then 1 else 0
  {
    assert all == later + if here then {x} else {};
  }

  /** A one-to-one correspondence. */
  lemma {:induction false} SameSize<X, Y>(xs: set<X>, ys: set<Y>, h: X -> Y)
    requires forall x | x in xs :: h(x) in ys
    requires forall x, y | x in xs && y in xs && h(x) == h(y) :: x == y
    requires forall y | y in ys :: exists x :: x in xs && h(x) == y
    ensures |xs| == |ys|
  {
    if xs != {} {
      var x :| x in xs;
      SameSize(xs - {x}, ys - {h(x)}, h);
    } else {
      assert ys == {};
    }
  }

  lemma PairOf(baseline: seq<Paired>, candidate: seq<Paired>, f: map<Coordinate, int>, g: map<Coordinate, int>, c: Coordinate)
    returns (i: int, j: int)
    requires IsIndex(baseline, f) && IsIndex(candidate, g) && c in f && c in g
    ensures Pairs(baseline, candidate, i, j) && At(candidate[i]) == c
    ensures Nanoseconds(candidate[i]) == g[c] && Nanoseconds(baseline[j]) == f[c]
  {
    i :| 0 <= i < |candidate| && Counts(candidate[i]) && At(candidate[i]) == c;
    j :| 0 <= j < |baseline| && Counts(baseline[j]) && At(baseline[j]) == c;
  }

  lemma PairIndexed(baseline: seq<Paired>, candidate: seq<Paired>, f: map<Coordinate, int>, g: map<Coordinate, int>, i: int, j: int)
    requires IsIndex(baseline, f) && IsIndex(candidate, g) && Pairs(baseline, candidate, i, j)
    ensures var c := At(candidate[i]);
      c == At(baseline[j]) && c in f && c in g && Nanoseconds(candidate[i]) == g[c] && Nanoseconds(baseline[j]) == f[c]
  {
  }

  lemma PairIsUnique(baseline: seq<Paired>, candidate: seq<Paired>, i: int, j: int, k: int, l: int)
    requires WellPaired(baseline) && WellPaired(candidate)
    requires Pairs(baseline, candidate, i, j) && Pairs(baseline, candidate, k, l) && At(candidate[i]) == At(candidate[k])
    ensures i == k && j == l
  {
  }

  /** Coordinates that pass a test correspond to pairs of samples that do. */
  lemma PairsCounted(baseline: seq<Paired>, candidate: seq<Paired>, f: map<Coordinate, int>, g: map<Coordinate, int>,
                     test: (int, int) -> bool, pairs: set<(int, int)>)
    requires WellPaired(baseline) && WellPaired(candidate) && IsIndex(baseline, f) && IsIndex(candidate, g)
    requires forall p :: p in pairs <==>
               Pairs(baseline, candidate, p.0, p.1) && Tested(baseline, candidate, p.0, p.1, test)
    ensures |pairs| == |set c | c in g && c in f && test(g[c], f[c])|
  {
    hide IsIndex, WellPaired, Pairs, Nanoseconds;
    var coordinates := set c | c in g && c in f && test(g[c], f[c]);
    var h := (p: (int, int)) => if 0 <= p.0 < |candidate| then At(candidate[p.0]) else (0, 0);
    forall p | p in pairs ensures 0 <= p.0 < |candidate| && h(p) in coordinates {
      Within(baseline, candidate, p.0, p.1);
      PairIndexed(baseline, candidate, f, g, p.0, p.1);
    }
    forall p, q | p in pairs && q in pairs && h(p) == h(q) ensures p == q {
      PairIsUnique(baseline, candidate, p.0, p.1, q.0, q.1);
    }
    forall c | c in coordinates ensures exists p :: p in pairs && h(p) == c {
      var i, j := PairOf(baseline, candidate, f, g, c);
      Within(baseline, candidate, i, j);
      assert (i, j) in pairs && h((i, j)) == c;
    }
    SameSize(pairs, coordinates, h);
  }

  predicate Tested(baseline: seq<Paired>, candidate: seq<Paired>, i: int, j: int, test: (int, int) -> bool) {
    0 <= i < |candidate| && 0 <= j < |baseline| && test(Nanoseconds(candidate[i]), Nanoseconds(baseline[j]))
  }

  lemma Within(baseline: seq<Paired>, candidate: seq<Paired>, i: int, j: int)
    requires Pairs(baseline, candidate, i, j)
    ensures 0 <= i < |candidate| && 0 <= j < |baseline|
  {
  }

  /** The two lists hold one entry for each pair of samples, candidate minus baseline. */
  lemma ListsArePairs(baseline: seq<Paired>, candidate: seq<Paired>, f: map<Coordinate, int>, g: map<Coordinate, int>,
                      order: seq<Coordinate>)
    requires WellPaired(baseline) && WellPaired(candidate) && IsIndex(baseline, f) && IsIndex(candidate, g) && Lists(order, g)
    ensures AreDeltas(baseline, candidate, Deltas(order, g, f)) && AreBaselines(baseline, candidate, Shared(order, f))
  {
    hide IsIndex, WellPaired, Pairs, Nanoseconds, Deltas, Shared;
    forall d ensures multiset(Deltas(order, g, f))[d] == |DeltaPairs(baseline, candidate, d)| {
      DeltasTally(order, g, f, d);
      var test := (x: int, y: int) => x - y == d;
      PairsCounted(baseline, candidate, f, g, test, DeltaPairs(baseline, candidate, d));
      assert DeltaAt(order, g, f, d) == set c | c in g && c in f && test(g[c], f[c]);
    }
    forall d ensures multiset(Shared(order, f))[d] == |BaselinePairs(baseline, candidate, d)| {
      DeltasTally(order, g, f, d);
      var test := (x: int, y: int) => y == d;
      PairsCounted(baseline, candidate, f, g, test, BaselinePairs(baseline, candidate, d));
      assert BaseAt(order, f, d) == set c | c in g && c in f && test(g[c], f[c]);
    }
  }

  lemma RankExists(values: seq<int>)
    ensures InclusiveRank(values, 50).Some? <==> values != []
  {
  }

  method CalculatePairedBaselineDelta(baseline: seq<Paired>, candidate: seq<Paired>)
    returns (r: Result<Delta, RangeError>, ghost deltas: seq<int>, ghost durations: seq<int>,
             ghost f: map<Coordinate, int>, ghost g: map<Coordinate, int>, ghost order: seq<Coordinate>)
    ensures r.Ok? <==> WellPaired(baseline) && WellPaired(candidate)
    ensures r.Ok? ==> AreDeltas(baseline, candidate, deltas) && AreBaselines(baseline, candidate, durations)
    ensures r.Ok? ==>
              && r.value.pairCount == |deltas| == |durations|
              && r.value.medianDelta == InclusiveRank(deltas, 50) && r.value.baselineMedian == InclusiveRank(durations, 50)
              && (r.value.ratio.Some? <==> deltas != [] && r.value.baselineMedian.value != 0)
              && (r.value.ratio.Some? ==> r.value.ratio.value.numerator == r.value.medianDelta.value
                                          && r.value.ratio.value.denominator == r.value.baselineMedian.value)
    ensures r.Ok? ==> r.value == DeltaOf(deltas, durations)
    ensures r.Ok? ==> IsIndex(baseline, f) && IsIndex(candidate, g) && Lists(order, g)
    ensures r.Ok? ==> deltas == Deltas(order, g, f) && durations == Shared(order, f)
  {
    hide IsIndex, InclusiveRank, WellPaired, Deltas, Shared, AreDeltas, AreBaselines;
    deltas, durations := [], [];
    f, g, order := map[], map[], [];
    var left := SuccessfulMeasuredByCoordinate(baseline);
    if left.Err? { return Err(RangeError), [], [], f, g, order; }
    var right := SuccessfulMeasuredByCoordinate(candidate);
    if right.Err? { return Err(RangeError), [], [], f, g, order; }
    var differences, bases := PairUp(right.value.1, right.value.0, left.value.0);
    ListsArePairs(baseline, candidate, left.value.0, right.value.0, right.value.1);
    RankExists(differences);
    RankExists(bases);
    return Ok(DeltaOf(differences, bases)), differences, bases, left.value.0, right.value.0, right.value.1;
  }

  // ---- the pairing ignores the order of the samples ---------------------------------------------

  lemma SameElements(xs: seq<Coordinate>, ys: seq<Coordinate>, g: map<Coordinate, int>)
    requires Lists(xs, g) && Lists(ys, g)
    ensures multiset(xs) == multiset(ys)
  {
    forall c ensures multiset(xs)[c] == multiset(ys)[c] {
      OnceEach(xs, c);
      OnceEach(ys, c);
    }
  }

  lemma {:induction false} OnceEach(xs: seq<Coordinate>, c: Coordinate)
    requires forall i, j | 0 <= i < j < |xs| :: xs[i] != xs[j]
    ensures multiset(xs)[c] == if c in xs then 1 else 0
  {
    if xs != [] {
      OnceEach(xs[1..], c);
      assert xs == [xs[0]] + xs[1..];
    }
  }

  predicate Known(xs: seq<Coordinate>, g: map<Coordinate, int>) {
    forall c | c in xs :: c in g
  }

  function OneDelta(c: Coordinate, g: map<Coordinate, int>, f: map<Coordinate, int>): seq<int>
    requires c in g
  {
    if c in f then [g[c] - f[c]] else []
  }

  function OneShared(c: Coordinate, f: map<Coordinate, int>): seq<int> {
    if c in f then [f[c]] else []
  }

  lemma DeltasCons(c: Coordinate, rest: seq<Coordinate>, g: map<Coordinate, int>, f: map<Coordinate, int>)
    requires c in g && Known(rest, g)
    ensures Known([c] + rest, g)
    ensures Deltas([c] + rest, g, f) == OneDelta(c, g, f) + Deltas(rest, g, f)
    ensures Shared([c] + rest, f) == OneShared(c, f) + Shared(rest, f)
  {
    assert ([c] + rest)[1..] == rest;
  }

  lemma DeltasWithout(ys: seq<Coordinate>, k: nat, g: map<Coordinate, int>, f: map<Coordinate, int>)
    requires k < |ys| && Known(ys, g)
    ensures var rest := ys[..k] + ys[k + 1..];
      && multiset(rest) == multiset(ys) - multiset{ys[k]} && Known(rest, g)
      && multiset(Deltas(ys, g, f)) == multiset(OneDelta(ys[k], g, f)) + multiset(Deltas(rest, g, f))
      && multiset(Shared(ys, f)) == multiset(OneShared(ys[k], f)) + multiset(Shared(rest, f))
  {
    hide Deltas, Shared, OneDelta, OneShared;
    var before, after := ys[..k], ys[k + 1..];
    assert ys == before + ([ys[k]] + after);
    assert multiset(before + after) == multiset(ys) - multiset{ys[k]};
    forall c | c in before + after ensures c in g {
      assert c in ys;
    }
    DeltasSplit(before, [ys[k]] + after, g, f);
    DeltasSplit(before, after, g, f);
    DeltasCons(ys[k], after, g, f);
  }

  lemma {:induction false} DeltasPermute(xs: seq<Coordinate>, ys: seq<Coordinate>, g: map<Coordinate, int>, f: map<Coordinate, int>)
    requires multiset(xs) == multiset(ys) && Known(xs, g) && Known(ys, g)
    ensures multiset(Deltas(xs, g, f)) == multiset(Deltas(ys, g, f)) && multiset(Shared(xs, f)) == multiset(Shared(ys, f))
  {
    assert |xs| == |multiset(xs)| == |multiset(ys)| == |ys|;
    if xs != [] {
      hide Deltas, Shared, OneDelta, OneShared, Known;
      assert xs[0] in multiset(ys);
      var k :| 0 <= k < |ys| && ys[k] == xs[0];
      DeltasWithout(xs, 0, g, f);
      DeltasWithout(ys, k, g, f);
      DeltasPermute(xs[..0] + xs[1..], ys[..k] + ys[k + 1..], g, f);
    }
  }

  lemma {:induction false} DeltasSplit(a: seq<Coordinate>, b: seq<Coordinate>, g: map<Coordinate, int>, f: map<Coordinate, int>)
    requires forall c | c in a + b :: c in g
    ensures forall c | c in a || c in b :: c in g
    ensures Deltas(a + b, g, f) == Deltas(a, g, f) + Deltas(b, g, f) && Shared(a + b, f) == Shared(a, f) + Shared(b, f)
  {
    forall c | c in a || c in b ensures c in g {
      assert c in a + b;
    }
    if a == [] {
      assert a + b == b;
    } else {
      assert (a + b)[1..] == a[1..] + b;
      forall c | c in a[1..] + b ensures c in g {
        assert c in a + b;
      }
      DeltasSplit(a[1..], b, g, f);
    }
  }

  /** The result is a function of the two sets of samples, whatever order they are listed in. */
  lemma PairingIgnoresOrder(
    f: map<Coordinate, int>, g: map<Coordinate, int>, order: seq<Coordinate>,
    f': map<Coordinate, int>, g': map<Coordinate, int>, order': seq<Coordinate>,
    baseline: seq<Paired>, candidate: seq<Paired>, baseline': seq<Paired>, candidate': seq<Paired>)
    requires multiset(baseline) == multiset(baseline') && multiset(candidate) == multiset(candidate')
    requires IsIndex(baseline, f) && IsIndex(candidate, g) && Lists(order, g)
    requires IsIndex(baseline', f') && IsIndex(candidate', g') && Lists(order', g')
    ensures DeltaOf(Deltas(order, g, f), Shared(order, f)) == DeltaOf(Deltas(order', g', f'), Shared(order', f'))
  {
    hide IsIndex, InclusiveRank, Deltas, Shared;
    IndexIsUnique(baseline, baseline', f, f');
    IndexIsUnique(candidate, candidate', g, g');
    SameElements(order, order', g);
    DeltasPermute(order, order', g, f);
    var d, d', s, s' := Deltas(order, g, f), Deltas(order', g, f), Shared(order, f), Shared(order', f);
    RankIgnoresOrder(d, d', 50);
    RankIgnoresOrder(s, s', 50);
    assert |d| == |multiset(d)| == |multiset(d')| == |d'|;
  }
}
