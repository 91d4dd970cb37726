/** Hourly buckets against the raw calls: a window of the buckets equals one pass over the sightings it covers. */
module HllWindow {
  import opened Hll

  datatype Bucket = Bucket(hour: int, registers: seq<nat>, sightings: nat)

  datatype Series = Series(buckets: seq<Bucket>, seen: nat)

  /** What happens to one key's series: a sighting, or an estimate. Both prune at their hour. */
  datatype Call = Sighting(hour: int, index: nat, rank: nat) | Look(hour: int)

  /** Whole hours since the epoch, truncated toward zero. */
  function HourNumber(unix: int): int {
    if unix >= 0 then unix / 3600 else -((-unix) / 3600)
  }

  function Max(a: int, b: int): int {
    if a < b then b else a
  }

  function MaxRank(a: nat, b: nat): nat {
    if a < b then b else a
  }

  // ----- buckets -----

  predicate Ordered(buckets: seq<Bucket>) {
    forall i, j :: 0 <= i < j < |buckets| ==> buckets[i].hour < buckets[j].hour
  }

  /** The first bucket at or after an hour. */
  function Search(buckets: seq<Bucket>, hour: int): (i: nat)
    ensures i <= |buckets|
    ensures i < |buckets| ==> buckets[i].hour >= hour
    ensures forall j :: 0 <= j < i ==> buckets[j].hour < hour
  {
    if buckets == [] || buckets[0].hour >= hour then 0 else 1 + Search(buckets[1..], hour)
  }

  function Cutoff(hour: int): int {
    hour - (RETAINED_HOURS - 1)
  }

  function Pruned(buckets: seq<Bucket>, hour: int): seq<Bucket> {
    buckets[Search(buckets, Cutoff(hour))..]
  }

  function Zeros(m: nat): seq<nat> {
    seq(m, i => 0)
  }

  function Raised(b: Bucket, index: nat, rank: nat): Bucket
    requires index < |b.registers|
  {
    b.(registers := if rank > b.registers[index] then b.registers[index := rank] else b.registers,
       sightings := b.sightings + 1)
  }

  /** The buckets with one for the hour. */
  function WithHour(buckets: seq<Bucket>, hour: int, m: nat): seq<Bucket> {
    var i := Search(buckets, hour);
    if i == |buckets| || buckets[i].hour != hour then buckets[..i] + [Bucket(hour, Zeros(m), 0)] + buckets[i..]
    else buckets
  }

  predicate Widths(buckets: seq<Bucket>, m: nat) {
    forall i :: 0 <= i < |buckets| ==> |buckets[i].registers| == m
  }

  function Sighted(buckets: seq<Bucket>, m: nat, hour: int, index: nat, rank: nat): seq<Bucket>
    requires Widths(buckets, m) && index < m
  {
    var all := WithHour(Pruned(buckets, hour), hour, m);
    var i := Search(all, hour);
    if i < |all| && |all[i].registers| == m then all[i := Raised(all[i], index, rank)] else all
  }

  // ----- what a window of buckets holds -----

  predicate InWindow(hour: int, lo: int, hi: int) {
    lo <= hour <= hi
  }

  function Total(buckets: seq<Bucket>, lo: int, hi: int): nat {
    if buckets == [] then 0
    else (if InWindow(buckets[0].hour, lo, hi) then buckets[0].sightings else 0) + Total(buckets[1..], lo, hi)
  }

  function Level(buckets: seq<Bucket>, lo: int, hi: int, index: nat): nat {
    if buckets == [] then 0
    else
      MaxRank(if InWindow(buckets[0].hour, lo, hi) && index < |buckets[0].registers| then buckets[0].registers[index]
              else 0,
              Level(buckets[1..], lo, hi, index))
  }

  // ----- one pass over the calls -----

  /** Every sighting in the window. */
  function AllIn(calls: seq<Call>, lo: int, hi: int): nat {
    if calls == [] then 0
    else
      var c := calls[|calls| - 1];
      AllIn(calls[..|calls| - 1], lo, hi) + if c.Sighting? && InWindow(c.hour, lo, hi) then 1 else 0
  }

  function HighestIn(calls: seq<Call>, lo: int, hi: int, index: nat): nat {
    if calls == [] then 0
    else
      var c := calls[|calls| - 1];
      MaxRank(HighestIn(calls[..|calls| - 1], lo, hi, index),
              if c.Sighting? && InWindow(c.hour, lo, hi) && c.index == index then c.rank else 0)
  }

  /** The same, without the sightings that a later call pruned. */
  function RetainedIn(calls: seq<Call>, lo: int, hi: int): nat {
    if calls == [] then 0
    else
      var c := calls[|calls| - 1];
      RetainedIn(calls[..|calls| - 1], Max(lo, Cutoff(c.hour)), hi)
      + if c.Sighting? && InWindow(c.hour, lo, hi) then 1 else 0
  }

  function RetainedHighest(calls: seq<Call>, lo: int, hi: int, index: nat): nat {
    if calls == [] then 0
    else
      var c := calls[|calls| - 1];
      MaxRank(RetainedHighest(calls[..|calls| - 1], Max(lo, Cutoff(c.hour)), hi, index),
              if c.Sighting? && InWindow(c.hour, lo, hi) && c.index == index then c.rank else 0)
  }

  /** No call after a sighting of the window pruned its hour away. */
  predicate NoneLost(calls: seq<Call>, lo: int, hi: int) {
    forall i, j :: 0 <= i < j < |calls| && calls[i].Sighting? && InWindow(calls[i].hour, lo, hi) ==>
        Cutoff(calls[j].hour) <= calls[i].hour
  }

  // ----- the invariant over any calls at all -----

  ghost predicate Matches(s: Series, calls: seq<Call>, m: nat) {
    && Ordered(s.buckets) && Widths(s.buckets, m) && Counted(s.buckets)
    && (forall lo, hi :: Total(s.buckets, lo, hi) == RetainedIn(calls, lo, hi))
    && (forall lo, hi, index :: 0 <= index < m ==>
          Level(s.buckets, lo, hi, index) == RetainedHighest(calls, lo, hi, index))
    && s.seen == AllSeen(calls)
  }

  predicate Counted(buckets: seq<Bucket>) {
    forall i :: 0 <= i < |buckets| ==> buckets[i].sightings > 0
  }

  function AllSeen(calls: seq<Call>): nat {
    if calls == [] then 0 else AllSeen(calls[..|calls| - 1]) + if calls[|calls| - 1].Sighting? then 1 else 0
  }

  lemma OrderedTail(buckets: seq<Bucket>, k: nat)
    requires Ordered(buckets) && k <= |buckets|
    ensures Ordered(buckets[k..])
  {
  }

  lemma {:induction false} PrunedWindow(buckets: seq<Bucket>, cut: int, lo: int, hi: int, index: nat)
    requires Ordered(buckets)
    ensures var kept := buckets[Search(buckets, cut)..];
            && Total(kept, lo, hi) == Total(buckets, Max(lo, cut), hi)
            && Level(kept, lo, hi, index) == Level(buckets, Max(lo, cut), hi, index)
  {
    if buckets != [] {
      OrderedTail(buckets, 1);
      if buckets[0].hour < cut {
        PrunedWindow(buckets[1..], cut, lo, hi, index);
        assert buckets[Search(buckets, cut)..] == buckets[1..][Search(buckets[1..], cut)..];
      } else {
        assert buckets[0..] == buckets;
        NothingCut(buckets, cut, lo, hi, index);
      }
    }
  }

  lemma {:induction false} NothingCut(buckets: seq<Bucket>, cut: int, lo: int, hi: int, index: nat)
    requires forall i :: 0 <= i < |buckets| ==> buckets[i].hour >= cut
    ensures Total(buckets, lo, hi) == Total(buckets, Max(lo, cut), hi)
    ensures Level(buckets, lo, hi, index) == Level(buckets, Max(lo, cut), hi, index)
  {
    if buckets != [] { NothingCut(buckets[1..], cut, lo, hi, index); }
  }

  lemma {:induction false} Concat(a: seq<Bucket>, b: seq<Bucket>, lo: int, hi: int, index: nat)
    ensures Total(a + b, lo, hi) == Total(a, lo, hi) + Total(b, lo, hi)
    ensures Level(a + b, lo, hi, index) == MaxRank(Level(a, lo, hi, index), Level(b, lo, hi, index))
  {
    if a == [] {
      assert a + b == b;
    } else {
      Concat(a[1..], b, lo, hi, index);
      assert (a + b)[1..] == a[1..] + b;
    }
  }

  lemma One(b: Bucket, lo: int, hi: int, index: nat)
    ensures Total([b], lo, hi) == (if InWindow(b.hour, lo, hi) then b.sightings else 0)
    ensures Level([b], lo, hi, index)
            == (if InWindow(b.hour, lo, hi) && index < |b.registers| then b.registers[index] else 0)
  {
    assert [b][1..] == [];
  }

  lemma FreshHour(buckets: seq<Bucket>, hour: int, m: nat, lo: int, hi: int, index: nat)
    ensures Total(WithHour(buckets, hour, m), lo, hi) == Total(buckets, lo, hi)
    ensures Level(WithHour(buckets, hour, m), lo, hi, index) == Level(buckets, lo, hi, index)
  {
    var i := Search(buckets, hour);
    var b := Bucket(hour, Zeros(m), 0);
    assert buckets == buckets[..i] + buckets[i..];
    Concat(buckets[..i], buckets[i..], lo, hi, index);
    Concat(buckets[..i] + [b], buckets[i..], lo, hi, index);
    Concat(buckets[..i], [b], lo, hi, index);
    One(b, lo, hi, index);
  }

  /** The place of an hour, which now has a bucket. */
  lemma HourPresent(buckets: seq<Bucket>, hour: int, m: nat)
    requires Ordered(buckets) && Widths(buckets, m)
    ensures var all := WithHour(buckets, hour, m); var i := Search(all, hour);
            Ordered(all) && Widths(all, m) && i < |all| && all[i].hour == hour
            && forall k :: 0 <= k < |all| && k != i ==> all[k] in buckets
  {
    var i := Search(buckets, hour);
    var all := WithHour(buckets, hour, m);
    if i == |buckets| || buckets[i].hour != hour {
      InsertedOrdered(buckets, i, Bucket(hour, Zeros(m), 0));
      assert all[i].hour == hour;
      SearchIs(all, hour, i);
      assert forall k :: 0 <= k < i ==> all[k] == buckets[k];
      assert forall k :: i < k < |all| ==> all[k] == buckets[k - 1];
    }
  }

  lemma InsertedOrdered(buckets: seq<Bucket>, i: nat, b: Bucket)
    requires Ordered(buckets) && i <= |buckets|
    requires (forall j :: 0 <= j < i ==> buckets[j].hour < b.hour) && (i < |buckets| ==> b.hour < buckets[i].hour)
    ensures Ordered(buckets[..i] + [b] + buckets[i..])
  {
    var all := buckets[..i] + [b] + buckets[i..];
    forall j, k | 0 <= j < k < |all| ensures all[j].hour < all[k].hour {
      if k == i { assert all[j] == buckets[j]; }
      else if j == i { assert all[k] == buckets[k - 1]; }
      else {
        assert all[j] == buckets[if j < i then j else j - 1];
        assert all[k] == buckets[if k < i then k else k - 1];
      }
    }
  }

  lemma SearchIs(buckets: seq<Bucket>, hour: int, i: nat)
    requires Ordered(buckets) && i < |buckets| && buckets[i].hour == hour
    ensures Search(buckets, hour) == i
  {
  }

  lemma RaisedWindow(buckets: seq<Bucket>, i: nat, index: nat, rank: nat, lo: int, hi: int, at: nat)
    requires i < |buckets| && index < |buckets[i].registers|
    ensures var hour := buckets[i].hour; var r := buckets[i := Raised(buckets[i], index, rank)];
            && Total(r, lo, hi) == Total(buckets, lo, hi) + (if InWindow(hour, lo, hi) then 1 else 0)
            && Level(r, lo, hi, at) == MaxRank(Level(buckets, lo, hi, at),
                                               if InWindow(hour, lo, hi) && at == index then rank else 0)
  {
    var b := buckets[i];
    var n := Raised(b, index, rank);
    var front, back := buckets[..i], buckets[i + 1..];
    assert buckets == front + [b] + back && buckets[i := n] == front + [n] + back;
    Concat(front + [b], back, lo, hi, at);
    Concat(front, [b], lo, hi, at);
    Concat(front + [n], back, lo, hi, at);
    Concat(front, [n], lo, hi, at);
    One(b, lo, hi, at);
    One(n, lo, hi, at);
  }

  /** A sighting adds itself to what pruning at its hour leaves. */
  lemma SightedWindow(buckets: seq<Bucket>, m: nat, hour: int, index: nat, rank: nat, lo: int, hi: int, at: nat)
    requires Ordered(buckets) && Widths(buckets, m) && index < m
    ensures var s := Sighted(buckets, m, hour, index, rank);
            && Total(s, lo, hi) == Total(buckets, Max(lo, Cutoff(hour)), hi) + (if InWindow(hour, lo, hi) then 1 else 0)
            && Level(s, lo, hi, at) == MaxRank(Level(buckets, Max(lo, Cutoff(hour)), hi, at),
                                               if InWindow(hour, lo, hi) && at == index then rank else 0)
  {
    var kept := Pruned(buckets, hour);
    OrderedTail(buckets, Search(buckets, Cutoff(hour)));
    PrunedWindow(buckets, Cutoff(hour), lo, hi, at);
    FreshHour(kept, hour, m, lo, hi, at);
    HourPresent(kept, hour, m);
    var all := WithHour(kept, hour, m);
    RaisedWindow(all, Search(all, hour), index, rank, lo, hi, at);
  }

  lemma RaisedShape(all: seq<Bucket>, i: nat, m: nat, index: nat, rank: nat)
    requires Ordered(all) && Widths(all, m) && i < |all| && index < m
    requires forall k :: 0 <= k < |all| && k != i ==> all[k].sightings > 0
    ensures var s := all[i := Raised(all[i], index, rank)]; Ordered(s) && Widths(s, m) && Counted(s)
  {
  }

  lemma SightedShape(buckets: seq<Bucket>, m: nat, hour: int, index: nat, rank: nat)
    requires Ordered(buckets) && Widths(buckets, m) && Counted(buckets) && index < m
    ensures var s := Sighted(buckets, m, hour, index, rank); Ordered(s) && Widths(s, m) && Counted(s)
  {
    var kept := Pruned(buckets, hour);
    OrderedTail(buckets, Search(buckets, Cutoff(hour)));
    assert Counted(kept);
    HourPresent(kept, hour, m);
    var all := WithHour(kept, hour, m);
    forall k | 0 <= k < |all| && k != Search(all, hour) ensures all[k].sightings > 0 {
      assert all[k] in kept;
    }
    RaisedShape(all, Search(all, hour), m, index, rank);
  }

  /** What one more call makes of the passes over all calls. */
  lemma OneMoreCall(calls: seq<Call>, c: Call, lo: int, hi: int, index: nat)
    ensures AllSeen(calls + [c]) == AllSeen(calls) + (if c.Sighting? then 1 else 0)
    ensures AllIn(calls + [c], lo, hi)
            == AllIn(calls, lo, hi) + (if c.Sighting? && InWindow(c.hour, lo, hi) then 1 else 0)
    ensures RetainedIn(calls + [c], lo, hi) ==
            RetainedIn(calls, Max(lo, Cutoff(c.hour)), hi) + (if c.Sighting? && InWindow(c.hour, lo, hi) then 1 else 0)
    ensures RetainedHighest(calls + [c], lo, hi, index) ==
            MaxRank(RetainedHighest(calls, Max(lo, Cutoff(c.hour)), hi, index),
                    if c.Sighting? && InWindow(c.hour, lo, hi) && c.index == index then c.rank else 0)
  {
    var now := calls + [c];
    assert now[..|now| - 1] == calls && now[|now| - 1] == c;
  }

  /** A sighting keeps the invariant, at any hour. */
  lemma SightingMatches(s: Series, calls: seq<Call>, m: nat, hour: int, index: nat, rank: nat)
    requires Matches(s, calls, m) && index < m
    ensures Matches(Series(Sighted(s.buckets, m, hour, index, rank), s.seen + 1),
                    calls + [Sighting(hour, index, rank)], m)
  {
    var now := Sighted(s.buckets, m, hour, index, rank);
    var after := calls + [Sighting(hour, index, rank)];
    SightedShape(s.buckets, m, hour, index, rank);
    OneMoreCall(calls, Sighting(hour, index, rank), 0, 0, 0);
    SightingTotals(s, calls, m, hour, index, rank);
    SightingLevels(s, calls, m, hour, index, rank);
  }

  lemma SightingTotals(s: Series, calls: seq<Call>, m: nat, hour: int, index: nat, rank: nat)
    requires Ordered(s.buckets) && Widths(s.buckets, m) && index < m
    requires forall lo, hi :: Total(s.buckets, lo, hi) == RetainedIn(calls, lo, hi)
    ensures var now, after := Sighted(s.buckets, m, hour, index, rank), calls + [Sighting(hour, index, rank)];
            forall lo, hi :: Total(now, lo, hi) == RetainedIn(after, lo, hi)
  {
    var now, after := Sighted(s.buckets, m, hour, index, rank), calls + [Sighting(hour, index, rank)];
    forall lo, hi ensures Total(now, lo, hi) == RetainedIn(after, lo, hi) {
      SightedWindow(s.buckets, m, hour, index, rank, lo, hi, 0);
      OneMoreCall(calls, Sighting(hour, index, rank), lo, hi, 0);
    }
  }

  lemma SightingLevels(s: Series, calls: seq<Call>, m: nat, hour: int, index: nat, rank: nat)
    requires Ordered(s.buckets) && Widths(s.buckets, m) && index < m
    requires forall lo, hi, at :: 0 <= at < m ==> Level(s.buckets, lo, hi, at) == RetainedHighest(calls, lo, hi, at)
    ensures var now, after := Sighted(s.buckets, m, hour, index, rank), calls + [Sighting(hour, index, rank)];
            forall lo, hi, at :: 0 <= at < m ==> Level(now, lo, hi, at) == RetainedHighest(after, lo, hi, at)
  {
    var now, after := Sighted(s.buckets, m, hour, index, rank), calls + [Sighting(hour, index, rank)];
    forall lo, hi, at: int | 0 <= at < m ensures Level(now, lo, hi, at) == RetainedHighest(after, lo, hi, at) {
      SightedWindow(s.buckets, m, hour, index, rank, lo, hi, at);
      OneMoreCall(calls, Sighting(hour, index, rank), lo, hi, at);
    }
  }

  lemma LookMatches(s: Series, calls: seq<Call>, m: nat, hour: int)
    requires Matches(s, calls, m)
    ensures Matches(Series(Pruned(s.buckets, hour), s.seen), calls + [Look(hour)], m)
  {
    var now := Pruned(s.buckets, hour);
    var after := calls + [Look(hour)];
    OrderedTail(s.buckets, Search(s.buckets, Cutoff(hour)));
    OneMoreCall(calls, Look(hour), 0, 0, 0);
    forall lo, hi ensures Total(now, lo, hi) == RetainedIn(after, lo, hi) {
      PrunedWindow(s.buckets, Cutoff(hour), lo, hi, 0);
      OneMoreCall(calls, Look(hour), lo, hi, 0);
    }
    forall lo, hi, at: int | 0 <= at < m ensures Level(now, lo, hi, at) == RetainedHighest(after, lo, hi, at) {
      PrunedWindow(s.buckets, Cutoff(hour), lo, hi, at);
      OneMoreCall(calls, Look(hour), lo, hi, at);
    }
  }

  // ----- when the retained sightings are all of them -----

  lemma {:induction false} RetainedBound(calls: seq<Call>, lo: int, lower: int, hi: int)
    requires lo <= lower
    ensures RetainedIn(calls, lower, hi) <= AllIn(calls, lo, hi)
    ensures RetainedIn(calls, lower, hi) == AllIn(calls, lo, hi) ==> NoneIn(calls, lo, lower, hi)
    decreases |calls|
  {
    if calls != [] {
      var front, c := calls[..|calls| - 1], calls[|calls| - 1];
      RetainedBound(front, lo, Max(lower, Cutoff(c.hour)), hi);
      assert calls == front + [c];
      assert forall i :: 0 <= i < |front| ==> calls[i] == front[i];
    }
  }

  /** No sighting of the window is before lower. */
  predicate NoneIn(calls: seq<Call>, lo: int, lower: int, hi: int) {
    forall i :: 0 <= i < |calls| && calls[i].Sighting? && InWindow(calls[i].hour, lo, hi) ==> calls[i].hour >= lower
  }

  /** The retained count of a window is the full count if and only if no call pruned a sighting of it. */
  lemma {:induction false} CountExactly(calls: seq<Call>, lo: int, hi: int)
    ensures RetainedIn(calls, lo, hi) <= AllIn(calls, lo, hi)
    ensures RetainedIn(calls, lo, hi) == AllIn(calls, lo, hi) <==> NoneLost(calls, lo, hi)
    decreases |calls|
  {
    RetainedBound(calls, lo, lo, hi);
    if calls != [] {
      var front, c := calls[..|calls| - 1], calls[|calls| - 1];
      assert forall i :: 0 <= i < |front| ==> calls[i] == front[i];
      CountExactly(front, lo, hi);
      var lower := Max(lo, Cutoff(c.hour));
      RetainedBound(front, lo, lower, hi);
      LostStays(front, lo, lower, hi);
      NarrowLoses(front, lo, lower, hi);
      assert NoneLost(calls, lo, hi) <==> NoneLost(front, lo, hi) && NoneIn(front, lo, lower, hi) by {
        assert NoneLost(calls, lo, hi) ==> NoneIn(front, lo, lower, hi) by {
          assert calls[|front|] == c;
        }
      }
    }
  }

  /** A narrower window with the same sightings counts the same. */
  lemma {:induction false} LostStays(calls: seq<Call>, lo: int, lower: int, hi: int)
    requires lo <= lower
    ensures RetainedIn(calls, lower, hi) <= RetainedIn(calls, lo, hi)
    ensures NoneIn(calls, lo, lower, hi) ==> RetainedIn(calls, lower, hi) == RetainedIn(calls, lo, hi)
    decreases |calls|
  {
    if calls != [] {
      var front, c := calls[..|calls| - 1], calls[|calls| - 1];
      assert forall i :: 0 <= i < |front| ==> calls[i] == front[i];
      LostStays(front, Max(lo, Cutoff(c.hour)), Max(lower, Cutoff(c.hour)), hi);
      assert NoneIn(calls, lo, lower, hi) ==> NoneIn(front, Max(lo, Cutoff(c.hour)), Max(lower, Cutoff(c.hour)), hi);
    }
  }

  lemma NarrowLoses(calls: seq<Call>, lo: int, lower: int, hi: int)
    requires lo <= lower
    ensures RetainedIn(calls, lower, hi) == AllIn(calls, lo, hi) ==> RetainedIn(calls, lo, hi) == AllIn(calls, lo, hi)
  {
    LostStays(calls, lo, lower, hi);
    RetainedBound(calls, lo, lo, hi);
  }

  lemma {:induction false} HighestNarrow(calls: seq<Call>, lo: int, lower: int, hi: int, index: nat)
    requires lo <= lower && NoneIn(calls, lo, lower, hi)
    ensures RetainedHighest(calls, lower, hi, index) == RetainedHighest(calls, lo, hi, index)
    decreases |calls|
  {
    if calls != [] {
      var front, c := calls[..|calls| - 1], calls[|calls| - 1];
      assert forall i :: 0 <= i < |front| ==> calls[i] == front[i];
      HighestNarrow(front, Max(lo, Cutoff(c.hour)), Max(lower, Cutoff(c.hour)), hi, index);
    }
  }

  /** With no sighting of the window lost, the retained maximum is the full one. */
  lemma {:induction false} HighestExactly(calls: seq<Call>, lo: int, hi: int, index: nat)
    requires NoneLost(calls, lo, hi)
    ensures RetainedHighest(calls, lo, hi, index) == HighestIn(calls, lo, hi, index)
    decreases |calls|
  {
    if calls != [] {
      var front, c := calls[..|calls| - 1], calls[|calls| - 1];
      assert forall i :: 0 <= i < |front| ==> calls[i] == front[i];
      HighestExactly(front, lo, hi, index);
      assert NoneIn(front, lo, Max(lo, Cutoff(c.hour)), hi) by {
        assert calls[|front|] == c;
      }
      HighestNarrow(front, lo, Max(lo, Cutoff(c.hour)), hi, index);
    }
  }

  // ----- nondecreasing hours -----

  predicate Monotone(calls: seq<Call>) {
    forall i, j :: 0 <= i < j < |calls| ==> calls[i].hour <= calls[j].hour
  }

  lemma MonotoneLosesNone(calls: seq<Call>, hour: int)
    requires Monotone(calls) && (calls != [] ==> calls[|calls| - 1].hour <= hour)
    ensures NoneLost(calls, hour - (WINDOW_HOURS - 1), hour)
  {
    forall i, j | 0 <= i < j < |calls| && calls[i].Sighting? && InWindow(calls[i].hour, hour - (WINDOW_HOURS - 1), hour)
      ensures Cutoff(calls[j].hour) <= calls[i].hour {
      assert calls[j].hour <= calls[|calls| - 1].hour;
    }
  }

  lemma {:induction false} HoursSpread(buckets: seq<Bucket>, i: nat)
    requires Ordered(buckets) && i < |buckets|
    ensures buckets[i].hour >= buckets[0].hour + i
  {
    if i > 0 { HoursSpread(buckets, i - 1); }
  }

  lemma {:induction false} TotalOfHour(buckets: seq<Bucket>, i: nat)
    requires i < |buckets|
    ensures Total(buckets, buckets[i].hour, buckets[i].hour) >= buckets[i].sightings
  {
    if i > 0 { TotalOfHour(buckets[1..], i - 1); }
  }

  lemma {:induction false} SomeSighting(calls: seq<Call>, lo: int, hi: int) returns (i: nat)
    requires RetainedIn(calls, lo, hi) > 0
    ensures i < |calls| && calls[i].Sighting? && InWindow(calls[i].hour, lo, hi)
    ensures calls[i].hour >= Cutoff(calls[|calls| - 1].hour)
    decreases |calls|
  {
    var front, c := calls[..|calls| - 1], calls[|calls| - 1];
    if c.Sighting? && InWindow(c.hour, lo, hi) { i := |calls| - 1; } else {
      i := SomeSighting(front, Max(lo, Cutoff(c.hour)), hi);
    }
  }

  /** What restoring a saved series checks. */
  predicate Restorable(s: Series, p: nat)
    requires ValidPrecision(p)
  {
    && |s.buckets| <= RETAINED_HOURS && Widths(s.buckets, Pow2(p)) && Ordered(s.buckets)
    && forall i, j :: 0 <= i < |s.buckets| && 0 <= j < |s.buckets[i].registers| ==> s.buckets[i].registers[j] <= 65 - p
  }

  predicate RanksFit(calls: seq<Call>, p: int) {
    forall i :: 0 <= i < |calls| && calls[i].Sighting? ==> calls[i].rank <= 65 - p
  }

  lemma {:induction false} HighestFits(calls: seq<Call>, lo: int, hi: int, index: nat, p: int)
    requires RanksFit(calls, p) && p <= 65
    ensures RetainedHighest(calls, lo, hi, index) <= 65 - p
    decreases |calls|
  {
    if calls != [] {
      var front, c := calls[..|calls| - 1], calls[|calls| - 1];
      assert forall i :: 0 <= i < |front| ==> calls[i] == front[i];
      HighestFits(front, Max(lo, Cutoff(c.hour)), hi, index, p);
    }
  }

  lemma {:induction false} LevelCovers(buckets: seq<Bucket>, i: nat, j: nat)
    requires i < |buckets| && j < |buckets[i].registers|
    ensures Level(buckets, buckets[i].hour, buckets[i].hour, j) >= buckets[i].registers[j]
  {
    if i > 0 { LevelCovers(buckets[1..], i - 1, j); }
  }

  /** With nondecreasing hours there are at most 169 buckets, strictly ordered, and every register is a rank a slot
      can have: a saved series passes every structural check when it is restored. */
  lemma ReachableIsRestorable(s: Series, calls: seq<Call>, p: nat)
    requires ValidPrecision(p) && Matches(s, calls, Pow2(p)) && Monotone(calls) && RanksFit(calls, p)
    ensures Restorable(s, p)
    ensures |s.buckets| <= 169 && forall i, j :: 0 <= i < j < |s.buckets| ==> s.buckets[i].hour < s.buckets[j].hour
    ensures forall i :: 0 <= i < |s.buckets| ==>
              |s.buckets[i].registers| == Pow2(p)
              && forall j :: 0 <= j < |s.buckets[i].registers| ==> s.buckets[i].registers[j] + p <= 65
  {
    if s.buckets != [] {
      var last := |s.buckets| - 1;
      TotalOfHour(s.buckets, 0);
      var first := SomeSighting(calls, s.buckets[0].hour, s.buckets[0].hour);
      TotalOfHour(s.buckets, last);
      var final := SomeSighting(calls, s.buckets[last].hour, s.buckets[last].hour);
      assert calls[final].hour <= calls[|calls| - 1].hour;
      HoursSpread(s.buckets, last);
    }
    forall i, j | 0 <= i < |s.buckets| && 0 <= j < |s.buckets[i].registers|
      ensures s.buckets[i].registers[j] <= 65 - p {
      LevelCovers(s.buckets, i, j);
      HighestFits(calls, s.buckets[i].hour, s.buckets[i].hour, j, p);
    }
  }
}
