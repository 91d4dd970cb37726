/** The counters of every key: sightings recorded, windows merged. */
module HllState {
  import opened Text
  import opened Hll
  import opened HllWindow

  /** What the estimator is given for one key. */
  datatype Estimate = Estimate(registers: seq<nat>, sightings: nat)

  const DEFAULT_PRECISION := 12

  function WindowStart(hour: int): int {
    hour - (WINDOW_HOURS - 1)
  }

  /** The calls of every key after one more sighting under each named key, in order. */
  function Recorded(calls: map<string, seq<Call>>, keys: seq<string>, c: Call): map<string, seq<Call>> {
    if keys == [] then calls
    else
      var before := Recorded(calls, keys[..|keys| - 1], c);
      var key := keys[|keys| - 1];
      if key == "" then before else before[key := (if key in before then before[key] else []) + [c]]
  }

  /** The merged registers and sightings of the buckets of a window. */
  method Merge(buckets: seq<Bucket>, m: nat, lo: int, hi: int) returns (e: Estimate)
    requires Widths(buckets, m)
    ensures |e.registers| == m && e.sightings == Total(buckets, lo, hi)
    ensures forall i :: 0 <= i < m ==> e.registers[i] == Level(buckets, lo, hi, i)
  {
    var registers, sightings := Zeros(m), 0;
    for n := 0 to |buckets|
      invariant |registers| == m && sightings == Total(buckets[..n], lo, hi)
      invariant forall i :: 0 <= i < m ==> registers[i] == Level(buckets[..n], lo, hi, i)
    {
      var b := buckets[n];
      MergeNext(buckets, n, lo, hi, 0);
      forall i: int | 0 <= i < m
        ensures Level(buckets[..n + 1], lo, hi, i) ==
                MaxRank(Level(buckets[..n], lo, hi, i), if InWindow(b.hour, lo, hi) then b.registers[i] else 0) {
        MergeNext(buckets, n, lo, hi, i);
      }
      if b.hour < lo || b.hour > hi { continue; }
      registers := RaiseAll(registers, b.registers);
      sightings := sightings + b.sightings;
    }
    assert buckets[..|buckets|] == buckets;
    e := Estimate(registers, sightings);
  }

  lemma MergeNext(buckets: seq<Bucket>, n: nat, lo: int, hi: int, i: nat)
    requires n < |buckets|
    ensures var b := buckets[n];
            && Total(buckets[..n + 1], lo, hi)
               == Total(buckets[..n], lo, hi) + (if InWindow(b.hour, lo, hi) then b.sightings else 0)
            && Level(buckets[..n + 1], lo, hi, i) ==
               MaxRank(Level(buckets[..n], lo, hi, i),
                       if InWindow(b.hour, lo, hi) && i < |b.registers| then b.registers[i] else 0)
  {
    assert buckets[..n + 1] == buckets[..n] + [buckets[n]];
    Concat(buckets[..n], [buckets[n]], lo, hi, i);
    One(buckets[n], lo, hi, i);
  }

  method RaiseAll(registers: seq<nat>, other: seq<nat>) returns (raised: seq<nat>)
    requires |other| == |registers|
    ensures |raised| == |registers| && forall i :: 0 <= i < |other| ==> raised[i] == MaxRank(registers[i], other[i])
  {
    raised := registers;
    for i := 0 to |other|
      invariant |raised| == |registers|
      invariant forall k :: 0 <= k < |other| ==>
                  raised[k] == if k < i then MaxRank(registers[k], other[k]) else registers[k]
    {
      if other[i] > raised[i] { raised := raised[i := other[i]]; }
    }
  }

  /** A key's series and calls agree. */
  ghost predicate KeySound(s: Series, calls: seq<Call>, p: nat)
  {
    Matches(s, calls, Pow2(p)) && RanksFit(calls, p)
  }

  ghost predicate AllSound(series: map<string, Series>, calls: map<string, seq<Call>>, p: nat) {
    calls.Keys == series.Keys && forall key :: key in series ==> KeySound(series[key], calls[key], p)
  }

  lemma PutSound(series: map<string, Series>, calls: map<string, seq<Call>>, p: nat, key: string, s: Series,
                 c: seq<Call>)
    requires AllSound(series, calls, p) && KeySound(s, c, p)
    ensures AllSound(series[key := s], calls[key := c], p)
  {
  }

  lemma OneRecorded(calls: map<string, seq<Call>>, key: string, c: Call)
    requires key != ""
    ensures Recorded(calls, [key], c) == calls[key := (if key in calls then calls[key] else []) + [c]]
  {
    assert [key][..0] == [];
  }

  lemma SightedSound(s: Series, calls: seq<Call>, p: nat, hour: int, index: nat, rank: nat)
    requires KeySound(s, calls, p) && index < Pow2(p) && rank <= 65 - p
    ensures KeySound(Series(Sighted(s.buckets, Pow2(p), hour, index, rank), s.seen + 1),
                     calls + [Sighting(hour, index, rank)], p)
  {
    SightingMatches(s, calls, Pow2(p), hour, index, rank);
  }

  lemma LookedSound(s: Series, calls: seq<Call>, p: nat, hour: int)
    requires KeySound(s, calls, p)
    ensures KeySound(Series(Pruned(s.buckets, hour), s.seen), calls + [Look(hour)], p)
  {
    LookMatches(s, calls, Pow2(p), hour);
  }

  class Counters {
    var series: map<string, Series>
    const p: nat
    /** Every sighting and estimate so far, by key. */
    ghost var calls: map<string, seq<Call>>

    ghost predicate Valid()
      reads this
    {
      ValidPrecision(p) && "" !in series && AllSound(series, calls, p)
    }

    constructor (precision: int)
      ensures Valid() && series == map[] && calls == map[]
      ensures 4 <= precision <= 18 ==> p == precision
      ensures precision < 4 || precision > 18 ==> p == 12
      ensures p == if ValidPrecision(precision) then precision else DEFAULT_PRECISION
    {
      p := if ValidPrecision(precision) then precision else DEFAULT_PRECISION;
      series, calls := map[], map[];
    }

    /** hash is None for an empty identity. */
    method Observe(hash: Option<Hash>, unix: int, keys: seq<string>)
      requires Valid()
      modifies this
      ensures Valid()
      ensures hash.None? ==> series == old(series) && calls == old(calls)
      ensures hash.Some? ==> exists index, rank ::
        HasRank(Remaining(hash.value, p), p, rank) && index == Index(hash.value, p)
        && calls == Recorded(old(calls), keys, Sighting(HourNumber(unix), index, rank))
    {
      if hash.None? { return; }
      var index, rank := Slot(hash.value, p);
      var hour := HourNumber(unix);
      ghost var c := Sighting(hour, index, rank);
      for i := 0 to |keys|
        invariant Valid() && calls == Recorded(old(calls), keys[..i], c)
      {
        assert keys[..i + 1][..i] == keys[..i];
        if keys[i] != "" { Sight(keys[i], hour, index, rank); }
      }
      assert keys[..|keys|] == keys;
    }

    method Sight(key: string, hour: int, index: nat, rank: nat)
      requires Valid() && key != "" && index < Pow2(p) && rank <= 65 - p
      modifies this
      ensures Valid() && calls == Recorded(old(calls), [key], Sighting(hour, index, rank))
    {
      var s := if key in series then series[key] else Series([], 0);
      ghost var was := if key in calls then calls[key] else [];
      NothingMatches(Pow2(p));
      SightedSound(s, was, p, hour, index, rank);
      var now := Series(Sighted(s.buckets, Pow2(p), hour, index, rank), s.seen + 1);
      PutSound(series, calls, p, key, now, was + [Sighting(hour, index, rank)]);
      OneRecorded(calls, key, Sighting(hour, index, rank));
      series, calls := series[key := now], calls[key := was + [Sighting(hour, index, rank)]];
    }

    /** The last 168 hours of every key, from its retained sightings. */
    method Estimates(unix: int) returns (estimates: map<string, Estimate>)
      requires Valid()
      modifies this
      ensures Valid() && calls == AllLooked(old(calls), HourNumber(unix))
      ensures estimates == Expected(old(calls), HourNumber(unix), Pow2(p))
    {
      var hour := HourNumber(unix);
      estimates := map[];
      var todo := series.Keys;
      ghost var was := calls;
      HalfwayStarts(was, hour, Pow2(p));
      while todo != {}
        invariant Valid() && Halfway(was, todo, hour, Pow2(p), calls, estimates)
        decreases todo
      {
        var key :| key in todo;
        HalfwayNext(was, todo, hour, Pow2(p), calls, estimates, key);
        var e := EstimateOf(key, hour);
        estimates := estimates[key := e];
        todo := todo - {key};
      }
      HalfwayEnds(was, hour, Pow2(p), calls, estimates);
    }

    method EstimateOf(key: string, hour: int) returns (e: Estimate)
      requires Valid() && key in series
      modifies this
      ensures Valid() && calls == old(calls)[key := old(calls)[key] + [Look(hour)]]
      ensures e == EstimateFor(old(calls)[key], hour, Pow2(p))
    {
      LookedSound(series[key], calls[key], p, hour);
      var kept := Pruned(series[key].buckets, hour);
      e := Merge(kept, Pow2(p), WindowStart(hour), hour);
      MergedRetained(e, kept, calls[key], hour, Pow2(p), series[key].seen);
      var now := Series(kept, series[key].seen);
      PutSound(series, calls, p, key, now, calls[key] + [Look(hour)]);
      series, calls := series[key := now], calls[key := calls[key] + [Look(hour)]];
    }
  }

  /** What the retained sightings of one key's window amount to. */
  function EstimateFor(calls: seq<Call>, hour: int, m: nat): Estimate {
    Estimate(seq(m, i requires 0 <= i < m => RetainedHighest(calls, WindowStart(hour), hour, i)),
             RetainedIn(calls, WindowStart(hour), hour))
  }

  function Expected(calls: map<string, seq<Call>>, hour: int, m: nat): map<string, Estimate> {
    map key | key in calls :: EstimateFor(calls[key], hour, m)
  }

  function AllLooked(calls: map<string, seq<Call>>, hour: int): map<string, seq<Call>> {
    map key | key in calls :: calls[key] + [Look(hour)]
  }

  /** The keys still to do are as they were; the others are estimated. */
  ghost predicate Halfway(was: map<string, seq<Call>>, todo: set<string>, hour: int, m: nat,
                          calls: map<string, seq<Call>>, estimates: map<string, Estimate>) {
    && todo <= was.Keys
    && calls == (map key | key in was :: if key in todo then was[key] else was[key] + [Look(hour)])
    && estimates == map key | key in was && key !in todo :: EstimateFor(was[key], hour, m)
  }

  lemma HalfwayStarts(was: map<string, seq<Call>>, hour: int, m: nat)
    ensures Halfway(was, was.Keys, hour, m, was, map[])
  {
  }

  lemma HalfwayEnds(was: map<string, seq<Call>>, hour: int, m: nat, calls: map<string, seq<Call>>,
                    estimates: map<string, Estimate>)
    requires Halfway(was, {}, hour, m, calls, estimates)
    ensures calls == AllLooked(was, hour) && estimates == Expected(was, hour, m)
  {
  }

  lemma HalfwayNext(was: map<string, seq<Call>>, todo: set<string>, hour: int, m: nat,
                    calls: map<string, seq<Call>>, estimates: map<string, Estimate>, key: string)
    requires Halfway(was, todo, hour, m, calls, estimates) && key in todo
    ensures key in calls && calls[key] == was[key]
    ensures Halfway(was, todo - {key}, hour, m, calls[key := was[key] + [Look(hour)]],
                    estimates[key := EstimateFor(was[key], hour, m)])
  {
  }

  lemma MergedRetained(e: Estimate, kept: seq<Bucket>, calls: seq<Call>, hour: int, m: nat, seen: nat)
    requires Matches(Series(kept, seen), calls + [Look(hour)], m) && |e.registers| == m
    requires e.sightings == Total(kept, WindowStart(hour), hour)
    requires forall i :: 0 <= i < m ==> e.registers[i] == Level(kept, WindowStart(hour), hour, i)
    ensures e == EstimateFor(calls, hour, m)
  {
    OneMoreCall(calls, Look(hour), WindowStart(hour), hour, 0);
    forall i: int | 0 <= i < m ensures e.registers[i] == RetainedHighest(calls, WindowStart(hour), hour, i) {
      OneMoreCall(calls, Look(hour), WindowStart(hour), hour, i);
    }
  }

  /** An estimate counts every sighting of its window if and only if no call pruned one, and then every register is
      the highest rank of them all. */
  lemma EstimateIsFullExactly(calls: seq<Call>, hour: int, m: nat)
    ensures var e := EstimateFor(calls, hour, m); var lo := WindowStart(hour);
            && (e.sightings == AllIn(calls, lo, hour) <==> NoneLost(calls, lo, hour))
            && (NoneLost(calls, lo, hour) ==>
                  forall i :: 0 <= i < m ==> e.registers[i] == HighestIn(calls, lo, hour, i))
  {
    var lo := WindowStart(hour);
    CountExactly(calls, lo, hour);
    if NoneLost(calls, lo, hour) {
      forall i: int | 0 <= i < m ensures RetainedHighest(calls, lo, hour, i) == HighestIn(calls, lo, hour, i) {
        HighestExactly(calls, lo, hour, i);
      }
    }
  }

  lemma NothingMatches(m: nat)
    ensures Matches(Series([], 0), [], m)
  {
  }

  /** An hour holds the 3600 seconds from its start; before 1970 from its end. */
  lemma HourContains(unix: int)
    ensures unix >= 0 ==> 3600 * HourNumber(unix) <= unix < 3600 * (HourNumber(unix) + 1)
    ensures unix < 0 ==> 3600 * (HourNumber(unix) - 1) < unix <= 3600 * HourNumber(unix)
  {
  }

  /** A call keeps the sightings of its own hour and the 168 before it, and no older ones. */
  lemma KeptForAWeek(hour: int, index: nat, rank: nat, later: int)
    ensures RetainedIn([Sighting(hour, index, rank), Look(later)], hour, hour)
            == if hour >= later - 168 then 1 else 0
  {
    var calls := [Sighting(hour, index, rank), Look(later)];
    assert calls[..1] == [Sighting(hour, index, rank)] && calls[..1][..0] == [];
    assert RetainedIn(calls[..1], Max(hour, Cutoff(later)), hour)
      == RetainedIn([], Max(Max(hour, Cutoff(later)), Cutoff(hour)), hour)
         + if InWindow(hour, Max(hour, Cutoff(later)), hour) then 1 else 0;
  }

  lemma HoursFollowTime(a: int, b: int)
    requires a <= b
    ensures HourNumber(a) <= HourNumber(b)
  {
  }

  /** The calls were made at these instants, in nondecreasing order, up to a last one. */
  predicate MadeAt(calls: seq<Call>, times: seq<int>, last: int) {
    && |times| == |calls|
    && (forall i :: 0 <= i < |calls| ==> calls[i].hour == HourNumber(times[i]))
    && (forall i, j :: 0 <= i < j < |times| ==> times[i] <= times[j])
    && (times != [] ==> times[|times| - 1] <= last)
  }

  /** With nondecreasing times an estimate sees every sighting of its last 168 hours, and the state stays restorable. */
  lemma MonotoneEstimatesAreFull(calls: seq<Call>, times: seq<int>, unix: int, p: nat, s: Series)
    requires ValidPrecision(p) && MadeAt(calls, times, unix)
    requires Matches(s, calls, Pow2(p)) && RanksFit(calls, p)
    ensures var hour := HourNumber(unix); var e := EstimateFor(calls, hour, Pow2(p)); var lo := hour - 167;
            && e.sightings == AllIn(calls, lo, hour) && Restorable(s, p)
            && forall i :: 0 <= i < Pow2(p) ==> e.registers[i] == HighestIn(calls, lo, hour, i)
  {
    var hour := HourNumber(unix);
    forall i, j | 0 <= i < j < |calls| ensures calls[i].hour <= calls[j].hour {
      HoursFollowTime(times[i], times[j]);
    }
    if calls != [] { HoursFollowTime(times[|times| - 1], unix); }
    MonotoneLosesNone(calls, hour);
    EstimateIsFullExactly(calls, hour, Pow2(p));
    ReachableIsRestorable(s, calls, p);
  }

  /** An hour that goes back loses sightings: one seen at hour 0, then an estimate at hour 169, then one at hour 0. */
  lemma GoingBackLosesSightings()
    ensures var calls := [Sighting(0, 0, 1), Look(169)];
            RetainedIn(calls, WindowStart(0), 0) == 0 && AllIn(calls, WindowStart(0), 0) == 1
  {
    var calls := [Sighting(0, 0, 1), Look(169)];
    assert calls[..1] == [Sighting(0, 0, 1)] && calls[..1][..0] == [];
    assert [Sighting(0, 0, 1)][..0] == [];
  }
}
