/** The execution fork schedule: EIP-2124 fork ids ("Specification" section), and the caches over them.

    A fork hash is named by what enters the checksum: the block and time forks passed. Only that equal
    inputs give equal hashes is used. */
module ElSchedule {
  import opened Text
  import opened Collections

  datatype Fork = Fork(name: string, time: Uint64)

  type Hash = seq<Uint64>

  datatype ForkId = ForkId(hash: Hash, next: Uint64)

  /** A conversion to int64 wraps. */
  function AsInt64(x: Uint64): int {
    if x <= MAX_INT64 then x else x - 0x1_0000_0000_0000_0000
  }

  // ----- fork lists -----

  predicate Increasing(s: seq<Uint64>) {
    forall i, j :: 0 <= i < j < |s| ==> s[i] < s[j]
  }

  lemma {:induction false} LeastExists(s: set<Uint64>)
    requires s != {}
    ensures exists m: Uint64 :: m in s && forall x :: x in s ==> m <= x
    decreases |s|
  {
    var a: Uint64 :| a in s;
    var rest := s - {a};
    if rest == {} {
      assert s == {a};
    } else {
      LeastExists(rest);
      var m: Uint64 :| m in rest && forall x :: x in rest ==> m <= x;
      var least: Uint64 := if a <= m then a else m;
      assert forall x :: x in s ==> x == a || x in rest;
      assert least in s && forall x :: x in s ==> least <= x;
    }
  }

  /** The distinct elements in ascending order: sort followed by compact. */
  function Ascending(s: set<Uint64>): (r: seq<Uint64>)
    ensures Increasing(r) && forall x :: x in r <==> x in s
    decreases |s|
  {
    if s == {} then []
    else
      LeastExists(s);
      var m: Uint64 :| m in s && forall x :: x in s ==> m <= x;
      var rest := Ascending(s - {m});
      LeastFirst(m, rest, s);
      [m] + rest
  }

  lemma LeastFirst(m: Uint64, rest: seq<Uint64>, s: set<Uint64>)
    requires m in s && (forall x :: x in s ==> m <= x)
    requires Increasing(rest) && forall x :: x in rest <==> x in s - {m}
    ensures Increasing([m] + rest) && forall x :: x in [m] + rest <==> x in s
  {
    forall j | 0 <= j < |rest| ensures m < rest[j] { assert rest[j] in rest; }
    forall x | x in s ensures x in [m] + rest {
      if x != m { assert x in rest; }
    }
  }

  function Times(forks: seq<Fork>, genesis: Uint64): set<Uint64> {
    set f | f in forks && f.time > genesis :: f.time
  }

  /** idForkTimes: the distinct activation times after genesis. */
  function IdTimes(forks: seq<Fork>, genesis: Uint64): seq<Uint64> {
    Ascending(Times(forks, genesis))
  }

  // ----- the fork id -----

  function Passed(forks: seq<Uint64>, at: int): seq<Uint64> {
    if forks == [] || forks[0] > at then [] else [forks[0]] + Passed(forks[1..], at)
  }

  lemma {:induction false} PassedIsPrefix(forks: seq<Uint64>, at: int)
    ensures |Passed(forks, at)| <= |forks| && Passed(forks, at) == forks[..|Passed(forks, at)|]
    ensures |Passed(forks, at)| < |forks| ==> forks[|Passed(forks, at)|] > at
    ensures forall x :: x in Passed(forks, at) ==> x <= at
  {
    if forks != [] && forks[0] <= at { PassedIsPrefix(forks[1..], at); }
  }

  function IdFrom(blocks: seq<Uint64>, times: seq<Uint64>, at: int): ForkId {
    var b := Passed(blocks, FORK_HEAD_BLOCK);
    PassedIsPrefix(blocks, FORK_HEAD_BLOCK);
    if |b| < |blocks| then ForkId(b, blocks[|b|])
    else
      var t := Passed(times, at);
      PassedIsPrefix(times, at);
      ForkId(b + t, if |t| < |times| then times[|t|] else 0)
  }

  /** forkIDFrom. */
  method ForkIdFrom(blocks: seq<Uint64>, times: seq<Uint64>, at: Uint64) returns (id: ForkId)
    ensures id == IdFrom(blocks, times, at)
  {
    PassedIsPrefix(blocks, FORK_HEAD_BLOCK);
    PassedIsPrefix(times, at);
    var sum: Hash := [];
    for i := 0 to |blocks|
      invariant sum == blocks[..i] && i <= |Passed(blocks, FORK_HEAD_BLOCK)|
    {
      assert i < |Passed(blocks, FORK_HEAD_BLOCK)| ==>
        Passed(blocks, FORK_HEAD_BLOCK)[i] == blocks[i] && blocks[i] in Passed(blocks, FORK_HEAD_BLOCK);
      if blocks[i] > FORK_HEAD_BLOCK {
        return ForkId(sum, blocks[i]);
      }
      sum := sum + [blocks[i]];
    }
    ghost var base := sum;
    for i := 0 to |times|
      invariant sum == base + times[..i] && i <= |Passed(times, at)|
    {
      assert i < |Passed(times, at)| ==> Passed(times, at)[i] == times[i] && times[i] in Passed(times, at);
      if times[i] > at {
        return ForkId(sum, times[i]);
      }
      sum := sum + [times[i]];
    }
    id := ForkId(sum, 0);
  }

  lemma {:induction false} PassedStable(forks: seq<Uint64>, a: int, b: int)
    requires a <= b && forall x :: x in forks ==> x <= a || x > b
    ensures Passed(forks, a) == Passed(forks, b)
  {
    if forks != [] {
      assert forks[0] in forks;
      if forks[0] <= a {
        assert forall x :: x in forks[1..] ==> x in forks;
        PassedStable(forks[1..], a, b);
      }
    }
  }

  lemma IdStable(blocks: seq<Uint64>, times: seq<Uint64>, a: int, b: int)
    requires a <= b && forall x :: x in times ==> x <= a || x > b
    ensures IdFrom(blocks, times, a) == IdFrom(blocks, times, b)
  {
    PassedStable(times, a, b);
  }

  /** The id at an instant is the one at the last activation before it, if there is one since start. */
  lemma IdSince(blocks: seq<Uint64>, times: seq<Uint64>, start: int, at: int) returns (since: int)
    requires Increasing(times) && start <= at
    ensures start <= since <= at && IdFrom(blocks, times, since) == IdFrom(blocks, times, at)
    ensures since == start || since in times
  {
    var t := Passed(times, at);
    PassedIsPrefix(times, at);
    if t != [] && t[|t| - 1] > start {
      since := t[|t| - 1];
      assert t[|t| - 1] in times;
      assert since in t;
    } else {
      since := start;
    }
    forall x | x in times ensures x <= since || x > at {
      var k :| 0 <= k < |times| && times[k] == x;
      if k < |t| && t != [] { assert times[k] <= times[|t| - 1]; }
      if |t| < |times| && k > |t| { assert times[k] > times[|t|]; }
    }
    IdStable(blocks, times, since, at);
  }

  lemma {:induction false} PassedHas(forks: seq<Uint64>, at: int, x: Uint64)
    requires Increasing(forks) && x in forks && x <= at
    ensures x in Passed(forks, at)
  {
    var k :| 0 <= k < |forks| && forks[k] == x;
    if k > 0 {
      assert forks[0] < forks[k] && forks[1..][k - 1] == x;
      PassedHas(forks[1..], at, x);
    }
  }

  /** What is passed of a list is the list of what is passed. */
  lemma PassedOf(s: set<Uint64>, at: int)
    ensures Passed(Ascending(s), at) == Ascending(set x | x in s && x <= at)
  {
    var a, b := Passed(Ascending(s), at), Ascending(set x | x in s && x <= at);
    var all := Ascending(s);
    PassedIsPrefix(all, at);
    forall x | x in b ensures x in a { PassedHas(all, at, x); }
    SameIncreasing(a, b);
  }

  lemma {:induction false} SameIncreasing(a: seq<Uint64>, b: seq<Uint64>)
    requires Increasing(a) && Increasing(b) && forall x :: x in a <==> x in b
    ensures a == b
  {
    EmptyOrMember(a);
    EmptyOrMember(b);
    if a != [] && b != [] {
      assert a[0] in b && b[0] in a;
      assert a[0] == b[0];
      forall x | x in a[1..] ensures x in b[1..] {
        assert x in a;
        var k :| 0 <= k < |a[1..]| && a[1..][k] == x;
        assert a[0] < a[k + 1];
      }
      forall x | x in b[1..] ensures x in a[1..] {
        assert x in b;
        var k :| 0 <= k < |b[1..]| && b[1..][k] == x;
        assert b[0] < b[k + 1];
      }
      SameIncreasing(a[1..], b[1..]);
    }
  }

  // ----- the era memo -----

  /** forkEraAt: the latest activation at or before unix, 0 for none. */
  function Era(forks: seq<Fork>, unix: int): int {
    if forks == [] then 0
    else
      var rest, t := Era(forks[..|forks| - 1], unix), AsInt64(forks[|forks| - 1].time);
      if t <= unix && t > rest then t else rest
  }

  method ForkEraAt(forks: seq<Fork>, unix: int) returns (era: int)
    ensures era == Era(forks, unix)
  {
    era := 0;
    for i := 0 to |forks|
      invariant era == Era(forks[..i], unix)
    {
      assert forks[..i + 1][..i] == forks[..i];
      var t := AsInt64(forks[i].time);
      if t <= unix && t > era { era := t; }
    }
    assert forks[..|forks|] == forks;
  }

  lemma {:induction false} EraIsLatest(forks: seq<Fork>, unix: int)
    requires unix >= 0
    ensures 0 <= Era(forks, unix) <= unix
    ensures forall f :: f in forks && AsInt64(f.time) <= unix ==> AsInt64(f.time) <= Era(forks, unix)
  {
    if forks != [] {
      EraIsLatest(forks[..|forks| - 1], unix);
      assert forall f :: f in forks ==> f in forks[..|forks| - 1] || f == forks[|forks| - 1];
    }
  }

  /** Instants of one era have one fork id, Next included. */
  lemma EraDeterminesId(blocks: seq<Uint64>, forks: seq<Fork>, genesis: Uint64, a: int, b: int)
    requires 0 <= a <= MAX_INT64 && 0 <= b <= MAX_INT64 && Era(forks, a) == Era(forks, b)
    ensures IdFrom(blocks, IdTimes(forks, genesis), a) == IdFrom(blocks, IdTimes(forks, genesis), b)
  {
    var lo, hi := if a <= b then a else b, if a <= b then b else a;
    EraIsLatest(forks, lo);
    EraIsLatest(forks, hi);
    IdStable(blocks, IdTimes(forks, genesis), lo, hi);
  }

  /** The memo of CurrentForkIDAt. */
  class ForkMemo {
    const blocks: seq<Uint64>
    const forks: seq<Fork>
    const genesis: Uint64
    var memo: Option<(int, ForkId)>

    constructor (blocks: seq<Uint64>, forks: seq<Fork>, genesis: Uint64)
      ensures Valid() && this.blocks == blocks && this.forks == forks && this.genesis == genesis
    {
      this.blocks, this.forks, this.genesis, memo := blocks, forks, genesis, None;
    }

    /** A memoized id is the id at every instant of its era, whichever of two racing writers stored it. */
    ghost predicate Valid() reads this {
      memo.Some? ==> forall unix :: 0 <= unix <= MAX_INT64 && Era(forks, unix) == memo.value.0 ==>
        memo.value.1 == IdFrom(blocks, IdTimes(forks, genesis), unix)
    }

    /** currentForkIDAt clamps instants before 1970. */
    method CurrentForkIdAt(unix: int) returns (id: ForkId)
      requires Valid() && unix <= MAX_INT64
      modifies this
      ensures Valid() && id == IdFrom(blocks, IdTimes(forks, genesis), if unix > 0 then unix else 0)
    {
      var at := if unix > 0 then unix else 0;
      var era := ForkEraAt(forks, at);
      if memo.Some? && memo.value.0 == era {
        return memo.value.1;
      }
      id := ForkIdFrom(blocks, IdTimes(forks, genesis), at);
      forall u | 0 <= u <= MAX_INT64 && Era(forks, u) == era
        ensures id == IdFrom(blocks, IdTimes(forks, genesis), u)
      {
        EraDeterminesId(blocks, forks, genesis, at, u);
      }
      memo := Some((era, id));
    }
  }
}
