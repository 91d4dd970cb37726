/** The execution fork ids that place a node on a network: those of a window of time, and those of schedules that
    still run a cancelled fork. */
module ElMembership {
  import opened Text
  import opened Collections
  import opened ElSchedule

  // ----- the membership window -----

  function HashAt(blocks: seq<Uint64>, times: seq<Uint64>, at: int): Hash {
    IdFrom(blocks, times, at).hash
  }

  const LOOKBACK: int := 730 * 24 * 3600
  const AHEAD: int := 365 * 24 * 3600

  function WindowStart(genesis: Uint64, now: int): int {
    if now - LOOKBACK > genesis then now - LOOKBACK else genesis
  }

  /** The hash at the window's start and at each boundary among the first n forks inside it. */
  predicate Gathered(blocks: seq<Uint64>, times: seq<Uint64>, forks: seq<Fork>, n: int, start: int, end: int, h: Hash)
    requires n <= |forks|
  {
    || h == HashAt(blocks, times, start)
    || exists k :: 0 <= k < n && start <= AsInt64(forks[k].time) <= end && h == HashAt(blocks, times, forks[k].time)
  }

  lemma GatheredIsWindow(blocks: seq<Uint64>, forks: seq<Fork>, genesis: Uint64, start: int, end: int, h: Hash)
    requires 0 <= start <= end <= MAX_INT64
    ensures var times := IdTimes(forks, genesis);
            Gathered(blocks, times, forks, |forks|, start, end, h) <==>
            exists s :: start <= s <= end && h == HashAt(blocks, times, s)
  {
    var times := IdTimes(forks, genesis);
    if s :| start <= s <= end && h == HashAt(blocks, times, s) {
      var since := IdSince(blocks, times, start, s);
      if since != start {
        var f :| f in forks && f.time > genesis && f.time == since;
        var k :| 0 <= k < |forks| && forks[k] == f;
        assert AsInt64(forks[k].time) == since;
      }
    }
    if Gathered(blocks, times, forks, |forks|, start, end, h) && h != HashAt(blocks, times, start) {
      var k :| 0 <= k < |forks| && start <= AsInt64(forks[k].time) <= end && h == HashAt(blocks, times, forks[k].time);
      assert AsInt64(forks[k].time) == forks[k].time;
    }
  }

  lemma GatheredNext(blocks: seq<Uint64>, times: seq<Uint64>, forks: seq<Fork>, n: nat, start: int, end: int, h: Hash)
    requires n < |forks|
    ensures Gathered(blocks, times, forks, n + 1, start, end, h) <==>
            Gathered(blocks, times, forks, n, start, end, h)
            || (start <= AsInt64(forks[n].time) <= end && h == HashAt(blocks, times, forks[n].time))
  {
  }

  method Gather(blocks: seq<Uint64>, times: seq<Uint64>, forks: seq<Fork>, start: int, end: int)
    returns (hashes: set<Hash>)
    requires Increasing(times)
    ensures forall h :: h in hashes <==> Gathered(blocks, times, forks, |forks|, start, end, h)
  {
    hashes := {HashAt(blocks, times, start)};
    for i := 0 to |forks|
      invariant forall h :: h in hashes <==> Gathered(blocks, times, forks, i, start, end, h)
    {
      ghost var before := hashes;
      var t := AsInt64(forks[i].time);
      if start <= t <= end {
        var id := ForkIdFrom(blocks, times, forks[i].time);
        hashes := hashes + {id.hash};
      }
      forall h ensures h in hashes <==> Gathered(blocks, times, forks, i + 1, start, end, h) {
        assert h in before <==> Gathered(blocks, times, forks, i, start, end, h);
        GatheredNext(blocks, times, forks, i, start, end, h);
      }
    }
  }

  /** The canonical half of gatherHashes: exactly the fork hashes over every second of the window. */
  method GatherHashes(blocks: seq<Uint64>, forks: seq<Fork>, genesis: Uint64, now: int) returns (hashes: set<Hash>)
    requires genesis <= MAX_INT64 && now + AHEAD <= MAX_INT64
    ensures forall h :: h in hashes <==>
      exists s :: WindowStart(genesis, now) <= s <= now + AHEAD && h == HashAt(blocks, IdTimes(forks, genesis), s)
  {
    hashes := {};
    var start: int := genesis;
    if now - LOOKBACK > start { start := now - LOOKBACK; }
    var end := now + AHEAD;
    if start > end {
      return;
    }
    hashes := Gather(blocks, IdTimes(forks, genesis), forks, start, end);
    forall h ensures h in hashes <==> exists s :: start <= s <= end && h == HashAt(blocks, IdTimes(forks, genesis), s) {
      GatheredIsWindow(blocks, forks, genesis, start, end, h);
    }
  }

  // ----- ids of nodes that still run a cancelled fork -----

  datatype TimedHash = TimedHash(time: Uint64, hash: Hash)

  /** withCancelledTime: the canonical list with one cancelled activation back in. */
  function WithCancelled(forks: seq<Fork>, genesis: Uint64, cancelled: Uint64): seq<Uint64> {
    Ascending(Times(forks, genesis) + (if cancelled > genesis then {cancelled} else {}))
  }

  /** The fork hash a cancelled fork would have replaced: the canonical one of the second before it. */
  function PreHash(blocks: seq<Uint64>, canonical: seq<Fork>, genesis: Uint64, cancelled: Uint64): Hash
    requires cancelled > 0
  {
    HashAt(blocks, IdTimes(canonical, genesis), cancelled - 1)
  }

  /** The fork hash it would have brought. */
  function PostHash(blocks: seq<Uint64>, canonical: seq<Fork>, genesis: Uint64, cancelled: Uint64): Hash {
    HashAt(blocks, WithCancelled(canonical, genesis, cancelled), cancelled)
  }

  /** The two hashes recorded with a cancelled fork. */
  function Recorded(blocks: seq<Uint64>, canonical: seq<Fork>, genesis: Uint64, cancelled: Uint64): (Hash, Hash)
    requires cancelled > 0
  {
    (PreHash(blocks, canonical, genesis, cancelled), PostHash(blocks, canonical, genesis, cancelled))
  }

  /** indexCancellations' first loop. */
  method RecordHashes(blocks: seq<Uint64>, canonical: seq<Fork>, cancelled: seq<Uint64>, genesis: Uint64)
    returns (hashes: seq<(Hash, Hash)>)
    requires forall i :: 0 <= i < |cancelled| ==> cancelled[i] > 0
    ensures |hashes| == |cancelled|
    ensures forall i :: 0 <= i < |cancelled| ==> hashes[i] == Recorded(blocks, canonical, genesis, cancelled[i])
  {
    hashes := [];
    var times := IdTimes(canonical, genesis);
    for i := 0 to |cancelled|
      invariant |hashes| == i
      invariant forall j :: 0 <= j < i ==> hashes[j] == Recorded(blocks, canonical, genesis, cancelled[j])
    {
      var one := RecordOne(blocks, times, WithCancelled(canonical, genesis, cancelled[i]), cancelled[i]);
      hashes := hashes + [one];
    }
  }

  method RecordOne(blocks: seq<Uint64>, times: seq<Uint64>, shadow: seq<Uint64>, cancelled: Uint64)
    returns (hashes: (Hash, Hash))
    requires cancelled > 0
    ensures hashes == (HashAt(blocks, times, cancelled - 1), HashAt(blocks, shadow, cancelled))
  {
    var pre := HashFrom(blocks, times, cancelled - 1);
    var post := HashFrom(blocks, shadow, cancelled);
    hashes := (pre, post);
  }

  method HashFrom(blocks: seq<Uint64>, times: seq<Uint64>, at: Uint64) returns (hash: Hash)
    ensures hash == HashAt(blocks, times, at)
  {
    var id := ForkIdFrom(blocks, times, at);
    hash := id.hash;
  }

  /** Just before a cancelled fork's time the schedule that kept it has passed the same activations as the canonical
      one, and so has its hash. */
  lemma CancelledPreHash(canonical: seq<Fork>, genesis: Uint64, c: Uint64)
    requires genesis < c
    ensures Passed(WithCancelled(canonical, genesis, c), c - 1) == Passed(IdTimes(canonical, genesis), c - 1)
  {
    SamePassed(Times(canonical, genesis) + {c}, Times(canonical, genesis), c - 1);
  }

  lemma SamePassed(a: set<Uint64>, b: set<Uint64>, at: int)
    requires forall x :: x <= at ==> (x in a <==> x in b)
    ensures Passed(Ascending(a), at) == Passed(Ascending(b), at)
  {
    PassedOf(a, at);
    PassedOf(b, at);
    assert (set x | x in a && x <= at) == set x | x in b && x <= at;
  }

  lemma SameHash(blocks: seq<Uint64>, a: seq<Uint64>, b: seq<Uint64>, at: int)
    requires Passed(a, at) == Passed(b, at)
    ensures HashAt(blocks, a, at) == HashAt(blocks, b, at)
  {
  }

  /** From then on it has an id that the canonical schedule has at no instant, its forks by block being behind. */
  lemma CancelledPostHash(blocks: seq<Uint64>, canonical: seq<Fork>, genesis: Uint64, c: Uint64, at: int)
    requires genesis < c && c !in Times(canonical, genesis) && Passed(blocks, FORK_HEAD_BLOCK) == blocks
    ensures HashAt(blocks, IdTimes(canonical, genesis), at) != PostHash(blocks, canonical, genesis, c)
  {
    var times, shadow := IdTimes(canonical, genesis), WithCancelled(canonical, genesis, c);
    PassedIsPrefix(times, at);
    PassedHas(shadow, c, c);
    SuffixDiffers(blocks, Passed(times, at), Passed(shadow, c), c);
  }

  lemma SuffixDiffers(blocks: seq<Uint64>, a: seq<Uint64>, b: seq<Uint64>, c: Uint64)
    requires c in b && c !in a
    ensures blocks + a != blocks + b
  {
    assert (blocks + a)[|blocks|..] == a && (blocks + b)[|blocks|..] == b;
  }

  /** A canonical id at some instant, or an indexed one. */
  ghost predicate Known(blocks: seq<Uint64>, times: seq<Uint64>, index: seq<TimedHash>, h: Hash) {
    (exists s: Uint64 :: h == HashAt(blocks, times, s)) || (exists i :: 0 <= i < |index| && index[i].hash == h)
  }

  /** The add closure: an id the canonical schedule has at the same instant is not indexed, nor is one twice. */
  method AddHash(blocks: seq<Uint64>, times: seq<Uint64>, index: seq<TimedHash>, h: Hash, at: Uint64)
    returns (index': seq<TimedHash>)
    ensures index <= index' && Known(blocks, times, index', h)
    ensures forall x :: Known(blocks, times, index, x) ==> Known(blocks, times, index', x)
  {
    var canonical := ForkIdFrom(blocks, times, at);
    var seen := exists i :: 0 <= i < |index| && index[i].hash == h;
    index' := index;
    if h != canonical.hash && !seen {
      index' := index + [TimedHash(at, h)];
      assert index'[|index|].hash == h;
    } else if h == canonical.hash {
      assert h == HashAt(blocks, times, at);
    }
    forall x | Known(blocks, times, index, x) ensures Known(blocks, times, index', x) {
      if i :| 0 <= i < |index| && index[i].hash == x { assert index'[i].hash == x; }
    }
  }

  /** Lists that agree up to an instant have the same hash there. */
  lemma AgreeingLists(blocks: seq<Uint64>, a: set<Uint64>, b: set<Uint64>, at: int)
    requires forall x :: x <= at ==> (x in a <==> x in b)
    ensures HashAt(blocks, Ascending(a), at) == HashAt(blocks, Ascending(b), at)
  {
    SamePassed(a, b, at);
    SameHash(blocks, Ascending(a), Ascending(b), at);
  }

  /** Every id of another list is known, if the two agree below first and its later activations are known. */
  lemma AllKnown(blocks: seq<Uint64>, canonical: set<Uint64>, other: set<Uint64>, index: seq<TimedHash>,
                 first: Uint64, at: Uint64)
    requires first > 0 && forall x :: x < first ==> (x in canonical <==> x in other)
    requires forall x :: x in other && x >= first ==>
      Known(blocks, Ascending(canonical), index, HashAt(blocks, Ascending(other), x))
    ensures Known(blocks, Ascending(canonical), index, HashAt(blocks, Ascending(other), at))
  {
    var since: int := IdSince(blocks, Ascending(other), 0, at);
    if since < first {
      AgreeingLists(blocks, canonical, other, since);
      var s: Uint64 := since;
      assert HashAt(blocks, Ascending(other), at) == HashAt(blocks, Ascending(canonical), s);
    }
  }

  lemma KnownGrows(blocks: seq<Uint64>, times: seq<Uint64>, index: seq<TimedHash>, more: seq<TimedHash>, h: Hash)
    requires index <= more && Known(blocks, times, index, h)
    ensures Known(blocks, times, more, h)
  {
    if i :| 0 <= i < |index| && index[i].hash == h { assert more[i].hash == h; }
  }

  /** Every hash the list has at an activation of the first n forks, from on, is known. */
  ghost predicate Indexed(blocks: seq<Uint64>, times: seq<Uint64>, list: seq<Uint64>, forks: seq<Fork>, n: int,
                          from: Uint64, index: seq<TimedHash>)
    requires n <= |forks|
  {
    forall k :: 0 <= k < n && forks[k].time >= from ==> Known(blocks, times, index, HashAt(blocks, list, forks[k].time))
  }

  /** Adds the list's hash at each fork's activation, from on. */
  method IndexList(blocks: seq<Uint64>, times: seq<Uint64>, list: seq<Uint64>, forks: seq<Fork>, from: Uint64,
                   index: seq<TimedHash>)
    returns (index': seq<TimedHash>)
    ensures index <= index' && Indexed(blocks, times, list, forks, |forks|, from, index')
  {
    index' := index;
    for i := 0 to |forks|
      invariant index <= index' && Indexed(blocks, times, list, forks, i, from, index')
    {
      if forks[i].time >= from {
        ghost var before := index';
        index' := AddHash(blocks, times, index', HashAt(blocks, list, forks[i].time), forks[i].time);
        forall k | 0 <= k < i && forks[k].time >= from
          ensures Known(blocks, times, index', HashAt(blocks, list, forks[k].time))
        {
          KnownGrows(blocks, times, before, index', HashAt(blocks, list, forks[k].time));
        }
      }
    }
  }

  function Least(s: seq<Uint64>): (m: Uint64)
    requires s != []
    ensures m in s && forall x :: x in s ==> m <= x
  {
    if |s| == 1 then s[0]
    else
      var rest := Least(s[1..]);
      assert forall x :: x in s ==> x == s[0] || x in s[1..];
      if s[0] <= rest then s[0] else rest
  }

  /** Every id of a schedule is canonical at some instant or indexed. */
  ghost predicate Covered(blocks: seq<Uint64>, times: seq<Uint64>, list: seq<Uint64>, index: seq<TimedHash>) {
    forall t: Uint64 :: Known(blocks, times, index, HashAt(blocks, list, t))
  }

  lemma CoveredGrows(blocks: seq<Uint64>, times: seq<Uint64>, list: seq<Uint64>, index: seq<TimedHash>,
                     more: seq<TimedHash>)
    requires index <= more && Covered(blocks, times, list, index)
    ensures Covered(blocks, times, list, more)
  {
    forall t: Uint64 ensures Known(blocks, times, more, HashAt(blocks, list, t)) {
      KnownGrows(blocks, times, index, more, HashAt(blocks, list, t));
    }
  }

  lemma IndexedIsCovered(blocks: seq<Uint64>, canonical: set<Uint64>, other: set<Uint64>, forks: seq<Fork>,
                         index: seq<TimedHash>, first: Uint64)
    requires first > 0 && forall x :: x < first ==> (x in canonical <==> x in other)
    requires Indexed(blocks, Ascending(canonical), Ascending(other), forks, |forks|, first, index)
    requires forall x :: x in other && x >= first ==>
      (exists k :: 0 <= k < |forks| && forks[k].time == x)
      || Known(blocks, Ascending(canonical), index, HashAt(blocks, Ascending(other), x))
    ensures Covered(blocks, Ascending(canonical), Ascending(other), index)
  {
    forall t: Uint64 ensures Known(blocks, Ascending(canonical), index, HashAt(blocks, Ascending(other), t)) {
      AllKnown(blocks, canonical, other, index, first, t);
    }
  }

  /** indexCancellations: every id of the compiled schedule, which a node that ran all cancelled forks has, and of
      every schedule that kept just one, is canonical at some instant or in the index. */
  method IndexCancellations(blocks: seq<Uint64>, original: seq<Fork>, canonical: seq<Fork>, cancelled: seq<Uint64>,
                            genesis: Uint64)
    returns (index: seq<TimedHash>)
    requires forall c :: c in cancelled ==> c > 0
    requires forall f :: f in canonical ==> f in original
    requires forall f :: f in original ==> f in canonical || f.time in cancelled
    ensures Covered(blocks, IdTimes(canonical, genesis), IdTimes(original, genesis), index)
    ensures CoveredFor(blocks, canonical, cancelled, genesis, index)
  {
    var times, all := IdTimes(canonical, genesis), IdTimes(original, genesis);
    if cancelled == [] {
      assert Times(original, genesis) == Times(canonical, genesis);
      return [];
    }
    var first := Least(cancelled);
    index := IndexList(blocks, times, all, original, first, []);
    OriginalCovered(blocks, original, canonical, cancelled, genesis, index, first);
    for i := 0 to |cancelled|
      invariant Covered(blocks, times, all, index) && CoveredFor(blocks, canonical, cancelled[..i], genesis, index)
    {
      assert cancelled[i] in cancelled;
      var more := IndexOne(blocks, canonical, cancelled[i], genesis, index);
      CoveredGrows(blocks, times, all, index, more);
      CoveredForGrows(blocks, canonical, cancelled[..i], genesis, index, more, cancelled[i]);
      assert cancelled[..i + 1] == cancelled[..i] + [cancelled[i]];
      index := more;
    }
    assert cancelled[..|cancelled|] == cancelled;
  }

  ghost predicate CoveredFor(blocks: seq<Uint64>, canonical: seq<Fork>, cancelled: seq<Uint64>, genesis: Uint64,
                             index: seq<TimedHash>) {
    forall c: Uint64 :: c in cancelled ==>
      Covered(blocks, IdTimes(canonical, genesis), WithCancelled(canonical, genesis, c), index)
  }

  lemma CoveredForGrows(blocks: seq<Uint64>, canonical: seq<Fork>, cancelled: seq<Uint64>, genesis: Uint64,
                        index: seq<TimedHash>, more: seq<TimedHash>, last: Uint64)
    requires index <= more && CoveredFor(blocks, canonical, cancelled, genesis, index)
    requires Covered(blocks, IdTimes(canonical, genesis), WithCancelled(canonical, genesis, last), more)
    ensures CoveredFor(blocks, canonical, cancelled + [last], genesis, more)
  {
    forall c: Uint64 | c in cancelled
      ensures Covered(blocks, IdTimes(canonical, genesis), WithCancelled(canonical, genesis, c), more)
    {
      CoveredGrows(blocks, IdTimes(canonical, genesis), WithCancelled(canonical, genesis, c), index, more);
    }
  }

  lemma OriginalCovered(blocks: seq<Uint64>, original: seq<Fork>, canonical: seq<Fork>, cancelled: seq<Uint64>,
                        genesis: Uint64, index: seq<TimedHash>, first: Uint64)
    requires first > 0 && forall c :: c in cancelled ==> c >= first
    requires forall f :: f in canonical ==> f in original
    requires forall f :: f in original ==> f in canonical || f.time in cancelled
    requires Indexed(blocks, IdTimes(canonical, genesis), IdTimes(original, genesis), original, |original|, first,
                     index)
    ensures Covered(blocks, IdTimes(canonical, genesis), IdTimes(original, genesis), index)
  {
    var kept, all := Times(canonical, genesis), Times(original, genesis);
    forall x | x in all && x < first ensures x in kept {
      var f :| f in original && f.time > genesis && f.time == x;
    }
    forall x | x in all && x >= first ensures exists k :: 0 <= k < |original| && original[k].time == x {
      var f :| f in original && f.time > genesis && f.time == x;
      var k :| 0 <= k < |original| && original[k] == f;
    }
    IndexedIsCovered(blocks, kept, all, original, index, first);
  }

  /** One cancellation's schedule. A canonical fork at the cancelled instant itself adds nothing new. */
  method IndexOne(blocks: seq<Uint64>, canonical: seq<Fork>, c: Uint64, genesis: Uint64, index: seq<TimedHash>)
    returns (index': seq<TimedHash>)
    requires c > 0
    ensures index <= index'
    ensures Covered(blocks, IdTimes(canonical, genesis), WithCancelled(canonical, genesis, c), index')
  {
    var times, shadow := IdTimes(canonical, genesis), WithCancelled(canonical, genesis, c);
    var first := AddHash(blocks, times, index, HashAt(blocks, shadow, c), c);
    index' := IndexList(blocks, times, shadow, canonical, c, first);
    KnownGrows(blocks, times, first, index', HashAt(blocks, shadow, c));
    var kept := Times(canonical, genesis);
    var other := kept + (if c > genesis then {c} else {});
    forall x | x in other && x >= c && x != c ensures exists k :: 0 <= k < |canonical| && canonical[k].time == x {
      var f :| f in canonical && f.time > genesis && f.time == x;
      var k :| 0 <= k < |canonical| && canonical[k] == f;
    }
    IndexedIsCovered(blocks, kept, other, canonical, index', c);
  }
}
