/** Sharing a number of slots among pools: one floor slot each, the rest by largest remainder. Shares are exact
    quotients remaining * (size - floor) / free; with the common divisor free a remainder is compared by its
    numerator. */
module Apportion {
  import opened Heap
  import opened Sorting
  import opened Sums
  import opened Collections
  import opened Arithmetic

  // ----- floors -----

  function Eligible(eligible: seq<bool>, i: nat): nat
    requires i <= |eligible|
  {
    if i == 0 then 0 else Eligible(eligible, i - 1) + if eligible[i - 1] then 1 else 0
  }

  /** One slot for each eligible pool, in order, as far as the limit goes. */
  function Floor(eligible: seq<bool>, limit: nat, i: nat): nat
    requires i < |eligible|
  {
    if eligible[i] && Eligible(eligible, i) < limit then 1 else 0
  }

  method Floors(eligible: seq<bool>, limit: nat) returns (slots: seq<int>, remaining: nat)
    ensures |slots| == |eligible| && forall i :: 0 <= i < |eligible| ==> slots[i] == Floor(eligible, limit, i)
    ensures remaining == limit - Sum(slots)
  {
    slots, remaining := [], limit;
    while |slots| < |eligible|
      invariant |slots| <= |eligible| && remaining == limit - Sum(slots)
      invariant forall i :: 0 <= i < |slots| ==> slots[i] == Floor(eligible, limit, i)
      invariant Sum(slots) == if Eligible(eligible, |slots|) < limit then Eligible(eligible, |slots|) else limit
    {
      if remaining == 0 || !eligible[|slots|] {
        SumSnoc(slots, 0);
        slots := slots + [0];
      } else {
        SumSnoc(slots, 1);
        slots, remaining := slots + [1], remaining - 1;
      }
    }
  }

  // ----- shares -----

  /** The whole part of a pool's exact share. */
  function Whole(remaining: nat, extra: nat, free: nat): nat
    requires free > 0
  {
    remaining * extra / free
  }

  /** The numerator of its remainder. */
  function Left(remaining: nat, extra: nat, free: nat): nat
    requires free > 0
  {
    remaining * extra % free
  }

  /** A share below the pool leaves room for one more unless it is exact. */
  lemma ShareFits(remaining: nat, extra: nat, free: nat)
    requires remaining < free
    ensures Whole(remaining, extra, free) <= extra
    ensures Left(remaining, extra, free) > 0 ==> Whole(remaining, extra, free) < extra
    ensures Whole(remaining, extra, free) * free + Left(remaining, extra, free) == remaining * extra
  {
    var whole, left := Whole(remaining, extra, free), Left(remaining, extra, free);
    assert whole * free + left == remaining * extra;
    assert remaining * extra <= free * extra by { Times(remaining, free, extra); }
    if whole > extra { Times(extra, whole, free); assert false; }
    if whole == extra { assert remaining * extra + extra <= free * extra by { Times(remaining + 1, free, extra); } }
  }

  function Extras(sizes: seq<int>, floors: seq<int>): seq<int>
    requires |sizes| == |floors|
  {
    seq(|sizes|, i requires 0 <= i < |sizes| => sizes[i] - floors[i])
  }

  lemma {:induction false} SumExtras(sizes: seq<int>, floors: seq<int>)
    requires |sizes| == |floors|
    ensures Sum(Extras(sizes, floors)) == Sum(sizes) - Sum(floors)
    decreases |sizes|
  {
    if sizes != [] {
      var n := |sizes| - 1;
      SumExtras(sizes[..n], floors[..n]);
      assert Extras(sizes, floors)[..n] == Extras(sizes[..n], floors[..n]);
    }
  }

  function Wholes(remaining: nat, extras: seq<int>, free: nat): seq<int>
    requires free > 0 && NonNegative(extras)
  {
    seq(|extras|, i requires 0 <= i < |extras| => Whole(remaining, extras[i], free))
  }

  function Lefts(remaining: nat, extras: seq<int>, free: nat): seq<int>
    requires free > 0 && NonNegative(extras)
  {
    seq(|extras|, i requires 0 <= i < |extras| => Left(remaining, extras[i], free))
  }

  lemma {:induction false} SharesAddUp(remaining: nat, extras: seq<int>, free: nat)
    requires free > 0 && NonNegative(extras)
    ensures Sum(Wholes(remaining, extras, free)) * free + Sum(Lefts(remaining, extras, free)) == remaining * Sum(extras)
    decreases |extras|
  {
    if extras != [] {
      var n := |extras| - 1;
      var front := extras[..n];
      SharesAddUp(remaining, front, free);
      assert Wholes(remaining, extras, free)[..n] == Wholes(remaining, front, free);
      assert Lefts(remaining, extras, free)[..n] == Lefts(remaining, front, free);
      var w, l := Sum(Wholes(remaining, front, free)), Sum(Lefts(remaining, front, free));
      var x, y := Whole(remaining, extras[n], free), Left(remaining, extras[n], free);
      assert x * free + y == remaining * extras[n];
      AddShare(w, x, l, y, free, remaining, Sum(front), extras[n]);
    }
  }

  lemma AddShare(w: int, x: int, l: int, y: int, free: int, remaining: int, sum: int, extra: int)
    requires w * free + l == remaining * sum && x * free + y == remaining * extra
    ensures (w + x) * free + (l + y) == remaining * (sum + extra)
  {
    assert (w + x) * free == w * free + x * free;
    assert remaining * (sum + extra) == remaining * sum + remaining * extra;
  }

  lemma LeftsBelow(remaining: nat, extras: seq<int>, free: nat)
    requires free > 0 && NonNegative(extras)
    ensures var l := Lefts(remaining, extras, free); NonNegative(l) && forall i :: 0 <= i < |l| ==> l[i] < free
  {
  }

  lemma Distribute(a: int, b: int, c: nat)
    ensures (a - b) * c == a * c - b * c
  {
  }

  /** Fewer slots are left over than pools have a remainder. */
  lemma FewerLeftThanRemainders(remaining: nat, extras: seq<int>, free: nat)
    requires free > 0 && NonNegative(extras) && Sum(extras) == free
    ensures var over := remaining - Sum(Wholes(remaining, extras, free));
            0 <= over <= Positive(Lefts(remaining, extras, free)) <= |extras|
  {
    var wholes, l := Sum(Wholes(remaining, extras, free)), Lefts(remaining, extras, free);
    SharesAddUp(remaining, extras, free);
    LeftsBelow(remaining, extras, free);
    PositiveBound(l, free);
    Distribute(remaining, wholes, free);
    Between(remaining - wholes, Positive(l), free, Sum(l));
  }

  lemma Between(over: int, positive: nat, free: nat, lefts: int)
    requires free > 0 && over * free == lefts && 0 <= lefts <= positive * free
    ensures 0 <= over <= positive
  {
    if over < 0 { Times(over, -1, free); }
    if over > positive { Times(positive, over, free); }
  }

  // ----- largest remainders -----

  function At<T>(s: seq<T>, i: int, other: T): T {
    if 0 <= i < |s| then s[i] else other
  }

  predicate RankedBefore(lefts: seq<int>, names: seq<string>, a: int, b: int) {
    || At(lefts, a, -1) > At(lefts, b, -1)
    || (At(lefts, a, -1) == At(lefts, b, -1) && NameLess(At(names, a, ""), At(names, b, "")))
  }

  function Ranking(lefts: seq<int>, names: seq<string>): (int, int) -> bool {
    (a, b) => RankedBefore(lefts, names, a, b)
  }

  function Indices(n: nat): seq<int> {
    seq(n, i => i)
  }

  /** Pools by falling remainder, then by name. */
  function Ranked(lefts: seq<int>, names: seq<string>): seq<int> {
    Sort(Ranking(lefts, names), Indices(|lefts|))
  }

  /** A permutation of the pools. */
  predicate Permutes(ranked: seq<int>, n: nat) {
    && |ranked| == n
    && (forall i :: 0 <= i < n ==> 0 <= ranked[i] < n)
    && (forall i, j :: 0 <= i < j < n ==> ranked[i] != ranked[j])
    && (forall p :: 0 <= p < n ==> p in ranked)
  }

  predicate Within(slots: seq<int>, sizes: seq<int>) {
    |slots| == |sizes| && forall p :: 0 <= p < |slots| ==> slots[p] <= sizes[p]
  }

  predicate AllFull(slots: seq<int>, sizes: seq<int>)
    requires |slots| == |sizes|
  {
    forall p :: 0 <= p < |slots| ==> slots[p] >= sizes[p]
  }

  /** One more slot for each of the first k ranked pools. */
  predicate Bumped(from: seq<int>, to: seq<int>, ranked: seq<int>, k: int) {
    && 0 <= k <= |ranked| && |from| == |to|
    && forall p :: 0 <= p < |from| ==> to[p] == from[p] + if p in ranked[..k] then 1 else 0
  }

  predicate RoomForFirst(slots: seq<int>, sizes: seq<int>, ranked: seq<int>, k: int)
    requires Within(slots, sizes) && Permutes(ranked, |slots|)
  {
    0 <= k <= |ranked| && forall i :: 0 <= i < k ==> slots[ranked[i]] < sizes[ranked[i]]
  }

  /** Steps from i to o around n places. */
  function Gap(i: int, o: int, n: int): int {
    if i <= o then o - i else o - i + n
  }

  lemma Around(i: int, n: int)
    requires 0 <= i < n
    ensures (i + 1) % n == if i + 1 < n then i + 1 else 0
  {
  }

  /** Place o of the ranking has room, unless no place has. */
  predicate IsOpen(slots: seq<int>, sizes: seq<int>, ranked: seq<int>, o: int)
    requires Within(slots, sizes) && Permutes(ranked, |slots|)
  {
    AllFull(slots, sizes) || (0 <= o < |ranked| && slots[ranked[o]] < sizes[ranked[o]])
  }

  lemma OpenPool(slots: seq<int>, sizes: seq<int>, ranked: seq<int>) returns (o: int)
    requires Within(slots, sizes) && Permutes(ranked, |slots|)
    ensures IsOpen(slots, sizes, ranked, o)
  {
    o := 0;
    if p :| 0 <= p < |slots| && slots[p] < sizes[p] {
      assert p in ranked;
      o :| 0 <= o < |ranked| && ranked[o] == p;
    }
  }

  /** Passing a full place comes one step closer to the open one. */
  lemma TurnsCloser(slots: seq<int>, sizes: seq<int>, ranked: seq<int>, o: int, i: int)
    requires Within(slots, sizes) && Permutes(ranked, |slots|) && IsOpen(slots, sizes, ranked, o) && 0 <= i < |ranked|
    ensures !AllFull(slots, sizes) && slots[ranked[i]] >= sizes[ranked[i]] ==>
              0 <= Gap((i + 1) % |ranked|, o, |ranked|) < Gap(i, o, |ranked|)
  {
    Around(i, |ranked|);
  }

  lemma BumpNext(from: seq<int>, to: seq<int>, ranked: seq<int>, k: nat)
    requires Permutes(ranked, |from|) && k < |ranked| && Bumped(from, to, ranked, k)
    ensures to[ranked[k]] == from[ranked[k]]
    ensures Bumped(from, to[ranked[k] := to[ranked[k]] + 1], ranked, k + 1)
  {
    assert ranked[..k + 1] == ranked[..k] + [ranked[k]];
    assert ranked[k] !in ranked[..k];
  }

  /** Where the remainder loop stands: used slots given, the next turn being place i of the ranking. */
  predicate Handing(start: seq<int>, slots: seq<int>, sizes: seq<int>, ranked: seq<int>, limit: int, used: int, i: int)
    requires Within(start, sizes) && Permutes(ranked, |start|)
  {
    && Within(slots, sizes) && Within(start, slots) && used == Sum(slots) <= limit && 0 <= i < |ranked|
    && (RoomForFirst(start, sizes, ranked, limit - Sum(start)) ==> (
          Bumped(start, slots, ranked, used - Sum(start)) && (used < limit ==> i == used - Sum(start))))
  }

  /** While the first pools have room, the one whose turn it is has. */
  lemma RoomAtTurn(start: seq<int>, slots: seq<int>, sizes: seq<int>, ranked: seq<int>, limit: int, used: int, i: int)
    requires Within(start, sizes) && Permutes(ranked, |start|)
    requires Handing(start, slots, sizes, ranked, limit, used, i) && used < limit
    ensures RoomForFirst(start, sizes, ranked, limit - Sum(start)) ==> (
              slots[ranked[i]] == start[ranked[i]] < sizes[ranked[i]]
              && Bumped(start, slots[ranked[i] := slots[ranked[i]] + 1], ranked, i + 1))
  {
    if RoomForFirst(start, sizes, ranked, limit - Sum(start)) { BumpNext(start, slots, ranked, i); }
  }

  lemma GiveOne(start: seq<int>, slots: seq<int>, sizes: seq<int>, ranked: seq<int>, limit: int, used: int, i: int)
    requires Within(start, sizes) && Permutes(ranked, |start|)
    requires Handing(start, slots, sizes, ranked, limit, used, i) && used < limit && slots[ranked[i]] < sizes[ranked[i]]
    ensures Handing(start, slots[ranked[i] := slots[ranked[i]] + 1], sizes, ranked, limit, used + 1, (i + 1) % |ranked|)
  {
    SumUpdate(slots, ranked[i], slots[ranked[i]] + 1);
    Around(i, |ranked|);
    RoomAtTurn(start, slots, sizes, ranked, limit, used, i);
  }

  lemma PassFull(start: seq<int>, slots: seq<int>, sizes: seq<int>, ranked: seq<int>, limit: int, used: int, i: int)
    requires Within(start, sizes) && Permutes(ranked, |start|)
    requires Handing(start, slots, sizes, ranked, limit, used, i) && used < limit
    requires slots[ranked[i]] >= sizes[ranked[i]]
    ensures !RoomForFirst(start, sizes, ranked, limit - Sum(start))
    ensures Handing(start, slots, sizes, ranked, limit, used, (i + 1) % |ranked|)
  {
    Around(i, |ranked|);
    RoomAtTurn(start, slots, sizes, ranked, limit, used, i);
  }

  /** The remainder loop: round the ranking, one slot at a time to pools that are not full. It ends with every slot
      given or every pool full; when the first pools of the ranking have room, those get the slots. */
  /** When every pool is full, nobody is left out. */
  lemma FullIsEveryone(slots: seq<int>, sizes: seq<int>)
    requires Within(slots, sizes)
    ensures AllFull(slots, sizes) <==> slots == sizes
  {
  }

  method HandOut(start: seq<int>, sizes: seq<int>, ranked: seq<int>, limit: int) returns (slots: seq<int>)
    requires Within(start, sizes) && Permutes(ranked, |start|) && |start| > 0 && Sum(start) <= limit
    ensures Within(slots, sizes) && Within(start, slots)
    ensures Sum(slots) == limit || (Sum(slots) < limit && AllFull(slots, sizes))
    ensures RoomForFirst(start, sizes, ranked, limit - Sum(start)) ==> Bumped(start, slots, ranked, limit - Sum(start))
  {
    slots := start;
    var used, i := Sum(start), 0;
    assert Bumped(start, slots, ranked, 0);
    ghost var o := OpenPool(slots, sizes, ranked);
    while used < limit
      invariant Handing(start, slots, sizes, ranked, limit, used, i) && IsOpen(slots, sizes, ranked, o)
      decreases limit - used, Gap(i, o, |ranked|)
    {
      TurnsCloser(slots, sizes, ranked, o, i);
      var c := ranked[i];
      if slots[c] >= sizes[c] {
        PassFull(start, slots, sizes, ranked, limit, used, i);
        if AllFull(slots, sizes) { break; }
        i := (i + 1) % |ranked|;
        continue;
      }
      GiveOne(start, slots, sizes, ranked, limit, used, i);
      slots, used := slots[c := slots[c] + 1], used + 1;
      o := OpenPool(slots, sizes, ranked);
      i := (i + 1) % |ranked|;
    }
  }

  // ----- the whole apportionment -----

  lemma RankedPermutes(lefts: seq<int>, names: seq<string>)
    requires |names| == |lefts|
    ensures Permutes(Ranked(lefts, names), |lefts|)
  {
    var n := |lefts|;
    var r := Ranked(lefts, names);
    SortContent(Ranking(lefts, names), Indices(n));
    forall p ensures p in r <==> 0 <= p < n {
      assert p in r <==> p in multiset(r);
      assert p in multiset(Indices(n)) <==> p in Indices(n);
      if 0 <= p < n { assert Indices(n)[p] == p; }
    }
    forall i | 0 <= i < n ensures 0 <= r[i] < n { assert r[i] in r; }
    forall i, j | 0 <= i < j < n ensures r[i] != r[j] {
      IndicesOnce(n, r[i]);
      Twice(r, i, j);
    }
  }

  lemma {:induction false} IndicesOnce(n: nat, p: int)
    ensures multiset(Indices(n))[p] <= 1 && (p >= n ==> multiset(Indices(n))[p] == 0)
  {
    if n > 0 {
      IndicesOnce(n - 1, p);
      assert Indices(n) == Indices(n - 1) + [n - 1];
    } else {
      assert Indices(0) == [];
    }
  }

  lemma RankingIsWeak(lefts: seq<int>, names: seq<string>)
    ensures WeakOrder(Ranking(lefts, names))
  {
    var less := Ranking(lefts, names);
    forall a, b | less(a, b) ensures !less(b, a) {
      NameLessTotal(At(names, a, ""), At(names, b, ""));
    }
    forall a, b, c | !less(a, b) && !less(b, c) ensures !less(a, c) {
      if At(lefts, a, -1) == At(lefts, b, -1) == At(lefts, c, -1) {
        NameLessTransitive(At(names, a, ""), At(names, b, ""), At(names, c, ""));
      }
    }
  }

  /** No pool outranks one before it. */
  lemma RankedAscends(lefts: seq<int>, names: seq<string>)
    ensures forall i, j :: 0 <= i < j < |Ranked(lefts, names)| ==>
        !RankedBefore(lefts, names, Ranked(lefts, names)[j], Ranked(lefts, names)[i])
  {
    RankingIsWeak(lefts, names);
    SortAscends(Ranking(lefts, names), Indices(|lefts|));
  }

  function PositiveSet(s: seq<int>): set<int> {
    set p | 0 <= p < |s| && s[p] > 0
  }

  lemma {:induction false} PositiveCount(s: seq<int>)
    ensures |PositiveSet(s)| == Positive(s)
    decreases |s|
  {
    if s != [] {
      var n := |s| - 1;
      PositiveCount(s[..n]);
      assert PositiveSet(s) == PositiveSet(s[..n]) + if s[n] > 0 then {n} else {};
    } else {
      assert PositiveSet(s) == {};
    }
  }

  lemma {:induction false} FewFirst(ranked: seq<int>)
    ensures |set p | p in ranked| <= |ranked|
  {
    var all := set p | p in ranked;
    if ranked == [] {
      assert all == {};
    } else {
      var front, last := ranked[..|ranked| - 1], ranked[|ranked| - 1];
      FewFirst(front);
      assert all == (set p | p in front) + {last};
    }
  }

  /** Where no remainder is left in the ranking, all positive ones came before. */
  lemma PositiveCameBefore(lefts: seq<int>, names: seq<string>, k: nat, p: int)
    requires |names| == |lefts| && NonNegative(lefts) && k < |lefts|
    requires Permutes(Ranked(lefts, names), |lefts|) && p in PositiveSet(lefts) && lefts[Ranked(lefts, names)[k]] == 0
    ensures p in Ranked(lefts, names)[..k]
  {
    var r := Ranked(lefts, names);
    RankedAscends(lefts, names);
    assert p in r;
    var i :| 0 <= i < |r| && r[i] == p;
    assert i <= k;
  }

  /** The first pools of the ranking, as many as there are positive remainders, have one. */
  lemma FirstHaveRemainder(lefts: seq<int>, names: seq<string>, k: nat)
    requires |names| == |lefts| && NonNegative(lefts) && k < Positive(lefts) <= |lefts|
    requires Permutes(Ranked(lefts, names), |lefts|)
    ensures lefts[Ranked(lefts, names)[k]] > 0
  {
    var r := Ranked(lefts, names);
    if lefts[r[k]] == 0 {
      forall p | p in PositiveSet(lefts) ensures p in r[..k] {
        PositiveCameBefore(lefts, names, k, p);
      }
      PositiveCount(lefts);
      FewFirst(r[..k]);
      Subset(PositiveSet(lefts), set p | p in r[..k]);
    }
  }

  function FloorsOf(eligible: seq<bool>, limit: nat): seq<int> {
    seq(|eligible|, i requires 0 <= i < |eligible| => Floor(eligible, limit, i))
  }

  /** The quota rule: every pool gets its floor and its exact share of the rest, rounded down or up; shares are
      rounded up only when they are not whole, and larger remainders first. */
  predicate Quota(sizes: seq<int>, floors: seq<int>, names: seq<string>, limit: nat, slots: seq<int>)
    requires |sizes| == |floors| == |names|
  {
    var extras, remaining, free := Extras(sizes, floors), limit - Sum(floors), Sum(sizes) - Sum(floors);
    && |slots| == |sizes| && remaining >= 0 && free > 0 && NonNegative(extras)
    && (forall i :: 0 <= i < |sizes| ==> RoundedShare(slots[i] - floors[i], remaining, extras[i], free))
    && (forall i, j :: 0 <= i < |sizes| && 0 <= j < |sizes| && RoundedUp(slots, floors, remaining, extras, free, i)
                       && !RoundedUp(slots, floors, remaining, extras, free, j) ==>
                       !RankedBefore(Lefts(remaining, extras, free), names, j, i))
  }

  predicate RoundedShare(got: int, remaining: nat, extra: nat, free: nat)
    requires free > 0
  {
    got == Whole(remaining, extra, free)
    || (got == Whole(remaining, extra, free) + 1 && Left(remaining, extra, free) > 0)
  }

  predicate RoundedUp(slots: seq<int>, floors: seq<int>, remaining: nat, extras: seq<int>, free: nat, i: int)
    requires free > 0 && NonNegative(extras) && |slots| == |floors| == |extras| && 0 <= i < |slots|
  {
    slots[i] - floors[i] > Whole(remaining, extras[i], free)
  }

  lemma QuotaOf(sizes: seq<int>, floors: seq<int>, names: seq<string>, limit: nat, slots: seq<int>, k: nat)
    requires |sizes| == |floors| == |names| && Quota(sizes, floors, names, limit, slots) && k < |sizes|
    ensures Sum(floors) <= limit && Sum(floors) < Sum(sizes) && floors[k] <= sizes[k]
    ensures RoundedShare(slots[k] - floors[k], limit - Sum(floors), sizes[k] - floors[k], Sum(sizes) - Sum(floors))
  {
    assert Extras(sizes, floors)[k] == sizes[k] - floors[k];
  }

  /** A share rounded down or up is less than one slot away from the exact quotient. */
  lemma WithinOneOfExact(got: int, remaining: nat, extra: nat, free: nat)
    requires free > 0 && RoundedShare(got, remaining, extra, free)
    ensures got * free < remaining * extra + free && remaining * extra < got * free + free
  {
    var whole, left := Whole(remaining, extra, free), Left(remaining, extra, free);
    assert whole * free + left == remaining * extra;
    assert (whole + 1) * free == whole * free + free;
  }

  /** A share counts as rounded up exactly when it is above the exact quotient. */
  lemma RoundedUpExactly(slots: seq<int>, floors: seq<int>, remaining: nat, extras: seq<int>, free: nat, i: nat)
    requires free > 0 && NonNegative(extras) && |slots| == |floors| == |extras| && i < |slots|
    requires RoundedShare(slots[i] - floors[i], remaining, extras[i], free)
    ensures RoundedUp(slots, floors, remaining, extras, free, i) <==>
              (slots[i] - floors[i]) * free > remaining * extras[i]
  {
    var whole, left := Whole(remaining, extras[i], free), Left(remaining, extras[i], free);
    assert whole * free + left == remaining * extras[i];
    assert (whole + 1) * free == whole * free + free;
  }

  lemma FloorsFit(sizes: seq<int>, eligible: seq<bool>, limit: nat)
    requires |eligible| == |sizes| && (forall i :: 0 <= i < |sizes| ==> sizes[i] >= 1) && limit < Sum(sizes)
    requires Sum(FloorsOf(eligible, limit)) <= limit
    ensures var floors := FloorsOf(eligible, limit);
            && Within(floors, sizes) && NonNegative(Extras(sizes, floors))
            && Sum(Extras(sizes, floors)) == Sum(sizes) - Sum(floors) > limit - Sum(floors)
  {
    SumExtras(sizes, FloorsOf(eligible, limit));
  }

  /** Floors, whole shares, and what is left over by largest remainder. */
  method ShareOut(sizes: seq<int>, eligible: seq<bool>, names: seq<string>, limit: nat) returns (slots: seq<int>)
    requires |eligible| == |sizes| == |names| && (forall i :: 0 <= i < |sizes| ==> sizes[i] >= 1) && limit < Sum(sizes)
    ensures Sum(slots) == limit && Within(slots, sizes)
    ensures Quota(sizes, FloorsOf(eligible, limit), names, limit, slots)
  {
    var floors, remaining := Floors(eligible, limit);
    assert floors == FloorsOf(eligible, limit);
    FloorsFit(sizes, eligible, limit);
    slots := ShareRest(sizes, floors, Extras(sizes, floors), names, remaining, limit);
  }

  method ShareRest(sizes: seq<int>, floors: seq<int>, extras: seq<int>, names: seq<string>, remaining: nat,
                   limit: nat) returns (slots: seq<int>)
    requires |sizes| == |floors| == |names| && |sizes| > 0 && NonNegative(extras) && extras == Extras(sizes, floors)
    requires Sum(extras) > remaining && remaining == limit - Sum(floors)
    ensures Sum(slots) == limit && Within(slots, sizes) && Quota(sizes, floors, names, limit, slots)
  {
    var free := Sum(extras);
    var start := WholeShares(sizes, floors, extras, remaining, free);
    var ranked := Ranked(Lefts(remaining, extras, free), names);
    ReadyToHandOut(sizes, floors, extras, names, remaining, free, limit);
    slots := HandOut(start, sizes, ranked, limit);
    BumpedSum(start, slots, ranked, limit - Sum(start));
    Shared(sizes, floors, extras, names, remaining, free, limit, slots);
  }

  /** As many slots as were to be handed out, since the ranking had that many open pools. */
  lemma {:induction false} BumpedSum(start: seq<int>, slots: seq<int>, ranked: seq<int>, k: nat)
    requires Permutes(ranked, |start|) && Bumped(start, slots, ranked, k)
    ensures Sum(slots) == Sum(start) + k
    decreases k
  {
    if k == 0 {
      assert slots == start;
    } else {
      var c := ranked[k - 1];
      assert ranked[..k] == ranked[..k - 1] + [c];
      assert c !in ranked[..k - 1];
      var before := slots[c := start[c]];
      forall p | 0 <= p < |start| ensures before[p] == start[p] + if p in ranked[..k - 1] then 1 else 0 {
        assert p in ranked[..k] <==> p in ranked[..k - 1] || p == c;
      }
      BumpedSum(start, before, ranked, k - 1);
      SumUpdate(slots, c, start[c]);
    }
  }

  method WholeShares(sizes: seq<int>, floors: seq<int>, extras: seq<int>, remaining: nat, free: nat)
    returns (slots: seq<int>)
    requires |sizes| == |floors| && NonNegative(extras) && extras == Extras(sizes, floors) && free > 0
    requires remaining < free
    ensures slots == Plus(floors, Wholes(remaining, extras, free))
  {
    slots := [];
    while |slots| < |sizes|
      invariant |slots| <= |sizes| && slots == Plus(floors, Wholes(remaining, extras, free))[..|slots|]
    {
      var i := |slots|;
      var whole := Whole(remaining, extras[i], free);
      ShareFits(remaining, extras[i], free);
      slots := slots + [floors[i] + if whole < extras[i] then whole else extras[i]];
    }
  }

  lemma ReadyToHandOut(sizes: seq<int>, floors: seq<int>, extras: seq<int>, names: seq<string>, remaining: nat,
                       free: nat, limit: nat)
    requires |sizes| == |floors| == |names| && |sizes| > 0 && NonNegative(extras) && extras == Extras(sizes, floors)
    requires free == Sum(extras) > remaining && remaining == limit - Sum(floors)
    ensures var start, lefts := Plus(floors, Wholes(remaining, extras, free)), Lefts(remaining, extras, free);
            && Within(start, sizes) && Sum(start) <= limit && Permutes(Ranked(lefts, names), |start|)
            && RoomForFirst(start, sizes, Ranked(lefts, names), limit - Sum(start))
            && forall k :: 0 <= k < limit - Sum(start) ==> lefts[Ranked(lefts, names)[k]] > 0
  {
    var wholes, lefts := Wholes(remaining, extras, free), Lefts(remaining, extras, free);
    var start := Plus(floors, wholes);
    SumPlus(floors, wholes);
    FewerLeftThanRemainders(remaining, extras, free);
    RankedPermutes(lefts, names);
    LeftsBelow(remaining, extras, free);
    forall i | 0 <= i < |sizes| ensures start[i] <= sizes[i] && (lefts[i] > 0 ==> start[i] < sizes[i]) {
      ShareFits(remaining, extras[i], free);
    }
    forall k | 0 <= k < limit - Sum(start) ensures lefts[Ranked(lefts, names)[k]] > 0 {
      FirstHaveRemainder(lefts, names, k);
    }
  }

  lemma Shared(sizes: seq<int>, floors: seq<int>, extras: seq<int>, names: seq<string>, remaining: nat, free: nat,
               limit: nat, slots: seq<int>)
    requires |sizes| == |floors| == |names| && |sizes| > 0 && NonNegative(extras) && extras == Extras(sizes, floors)
    requires free == Sum(extras) > remaining && remaining == limit - Sum(floors)
    requires var start, lefts := Plus(floors, Wholes(remaining, extras, free)), Lefts(remaining, extras, free);
             Permutes(Ranked(lefts, names), |start|) && Bumped(start, slots, Ranked(lefts, names), limit - Sum(start))
             && forall k :: 0 <= k < limit - Sum(start) ==> lefts[Ranked(lefts, names)[k]] > 0
    ensures Quota(sizes, floors, names, limit, slots)
  {
    var lefts := Lefts(remaining, extras, free);
    var r, k := Ranked(lefts, names), limit - Sum(Plus(floors, Wholes(remaining, extras, free)));
    SumExtras(sizes, floors);
    forall i | 0 <= i < |sizes| ensures RoundedShare(slots[i] - floors[i], remaining, extras[i], free) {
      assert i in r[..k] ==> lefts[i] > 0;
    }
    forall i, j | 0 <= i < |sizes| && 0 <= j < |sizes| && RoundedUp(slots, floors, remaining, extras, free, i)
                  && !RoundedUp(slots, floors, remaining, extras, free, j)
      ensures !RankedBefore(lefts, names, j, i) {
      FirstOutrank(lefts, names, k, i, j);
    }
  }

  lemma FirstOutrank(lefts: seq<int>, names: seq<string>, k: nat, i: nat, j: nat)
    requires Permutes(Ranked(lefts, names), |lefts|) && k <= |lefts| && j < |lefts|
    requires i in Ranked(lefts, names)[..k] && j !in Ranked(lefts, names)[..k]
    ensures !RankedBefore(lefts, names, j, i)
  {
    var r := Ranked(lefts, names);
    RankedAscends(lefts, names);
    assert j in r;
    var a :| 0 <= a < k && r[a] == i;
    var b :| 0 <= b < |r| && r[b] == j;
    assert b >= k;
  }
}
