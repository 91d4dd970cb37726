/** The fork-era token that keys cached responses, and how long a response may be reused. */
module EraToken {
  import opened Text
  import CL = ClSchedule
  import EL = ElSchedule

  const SECOND: int := 1_000_000_000

  /** One network as the token reads it. Every registered network has a consensus schedule. */
  datatype Network = Network(name: string, blocks: seq<Uint64>, elForks: seq<EL.Fork>, genesis: Uint64, cl: CL.Schedule,
                             cancelled: seq<int>)

  /** One network's part of the token. passed lists the cancelled activations already behind. */
  datatype Part = Part(name: string, el: EL.Hash, cl: CL.Digest, passed: seq<int>)

  /** Instants are nanoseconds since 1970; Unix seconds round down. */
  function Unix(at: int): int {
    at / SECOND
  }

  function ELHash(n: Network, unix: int): EL.Hash {
    EL.IdFrom(n.blocks, EL.IdTimes(n.elForks, n.genesis), if unix > 0 then unix else 0).hash
  }

  function PassedCancellations(cancelled: seq<int>, at: int): seq<int> {
    if cancelled == [] then []
    else (if cancelled[0] * SECOND <= at then [cancelled[0]] else []) + PassedCancellations(cancelled[1..], at)
  }

  function PartAt(n: Network, at: int): Option<Part>
    requires CL.Ticks(n.cl)
  {
    var state := CL.StateAt(n.cl, CL.EpochAt(n.cl, Unix(at)));
    if state.None? then None
    else Some(Part(n.name, ELHash(n, Unix(at)), state.value.digest, PassedCancellations(n.cancelled, at)))
  }

  /** A network in force: schedules in order, Fulu covered. */
  predicate Sound(n: Network) {
    CL.Ticks(n.cl) && CL.Ordered(n.cl) && CL.FuluCovered(n.cl)
  }

  predicate AllSound(networks: seq<Network>) {
    forall i :: 0 <= i < |networks| ==> Sound(networks[i])
  }

  /** The token of the networks, in order; None where the source reports an error. */
  function TokenAt(networks: seq<Network>, at: int): Option<seq<Part>>
    requires AllSound(networks)
  {
    if networks == [] then Some([])
    else
      var part, rest := PartAt(networks[0], at), TokenAt(networks[1..], at);
      if part.None? || rest.None? then None else Some([part.value] + rest.value)
  }

  /** The earlier of a transition and a later instant found so far. */
  function Earlier(next: Option<int>, at: int, second: int): Option<int> {
    if second * SECOND > at && (next.None? || second < next.value) then Some(second) else next
  }

  /** Nothing one network's part depends on changes at a second in (at, before). */
  predicate QuietUntil(n: Network, at: int, before: Option<int>)
    requires Sound(n)
  {
    var epoch := CL.EpochAt(n.cl, Unix(at));
    var next := CL.NextEpoch(n.cl, epoch);
    && (next != MAX_UINT64 ==> before.Some? && before.value <= CL.TimeAtEpoch(n.cl, next))
    && (forall f :: f in n.elForks && EL.AsInt64(f.time) * SECOND > at ==>
          before.Some? && before.value <= EL.AsInt64(f.time))
    && (forall c :: c in n.cancelled && c * SECOND > at ==> before.Some? && before.value <= c)
  }

  /** a is no later than b. */
  predicate NoLater(a: Option<int>, b: Option<int>) {
    b.Some? ==> a.Some? && a.value <= b.value
  }

  lemma QuietShrinks(n: Network, at: int, a: Option<int>, b: Option<int>)
    requires Sound(n) && NoLater(a, b) && QuietUntil(n, at, b)
    ensures QuietUntil(n, at, a)
  {
  }

  /** The computed next epoch begins after the instant it was computed for. */
  lemma NextEpochIsAhead(n: Network, at: int)
    requires Sound(n) && Unix(at) < MAX_INT64
    ensures var next := CL.NextEpoch(n.cl, CL.EpochAt(n.cl, Unix(at))); CL.TimeAtEpoch(n.cl, next) * SECOND > at
  {
    var e := CL.EpochAt(n.cl, Unix(at));
    EpochFits(n.cl, Unix(at));
    CL.NextIsNext(n.cl, e);
    CL.EpochTimeGalois(n.cl, Unix(at), CL.NextEpoch(n.cl, e));
  }

  lemma EpochFits(c: CL.Schedule, unix: int)
    requires CL.Ticks(c) && unix <= MAX_INT64
    ensures CL.EpochAt(c, unix) <= MAX_INT64
  {
    if unix > 0 && unix > c.genesis {
      var s := CL.EpochSeconds(c).value;
      CL.DivisionBound(unix - c.genesis, s, MAX_INT64 + 1);
      assert (MAX_INT64 + 1) * s >= MAX_INT64 + 1;
    }
  }

  /** The earliest of a transition found so far and the listed seconds ahead. */
  method EarliestOf(seconds: seq<int>, at: int, next: Option<int>) returns (next': Option<int>)
    requires next.Some? ==> next.value * SECOND > at
    ensures next'.Some? ==> next'.value * SECOND > at
    ensures NoLater(next', next) && forall s :: s in seconds && s * SECOND > at ==> NoLater(next', Some(s))
    ensures next' == next || (next'.Some? && next'.value in seconds)
  {
    next' := next;
    for i := 0 to |seconds|
      invariant next'.Some? ==> next'.value * SECOND > at
      invariant NoLater(next', next)
      invariant forall k :: 0 <= k < i && seconds[k] * SECOND > at ==> NoLater(next', Some(seconds[k]))
      invariant next' == next || (next'.Some? && next'.value in seconds)
    {
      next' := Earlier(next', at, seconds[i]);
    }
  }

  function ForkSeconds(n: Network): seq<int> {
    seq(|n.elForks|, i requires 0 <= i < |n.elForks| => EL.AsInt64(n.elForks[i].time))
  }

  /** The second is one at which the network's part may change: its next epoch's start, a cancelled activation or an
      execution fork. */
  predicate Transits(n: Network, at: int, second: int)
    requires Sound(n)
  {
    var nextEpoch := CL.NextEpoch(n.cl, CL.EpochAt(n.cl, Unix(at)));
    || (nextEpoch != MAX_UINT64 && second == CL.TimeAtEpoch(n.cl, nextEpoch))
    || second in n.cancelled
    || second in ForkSeconds(n)
  }

  /** One network's transitions: its next epoch, its cancelled activations, its execution forks. */
  method NetworkTransition(n: Network, at: int, next: Option<int>) returns (next': Option<int>)
    requires Sound(n) && Unix(at) < MAX_INT64
    requires next.Some? ==> next.value * SECOND > at
    ensures next'.Some? ==> next'.value * SECOND > at
    ensures NoLater(next', next) && QuietUntil(n, at, next')
    ensures next' == next || (next'.Some? && Transits(n, at, next'.value))
  {
    var nextEpoch := CL.NextEpoch(n.cl, CL.EpochAt(n.cl, Unix(at)));
    NextEpochIsAhead(n, at);
    next' := next;
    if nextEpoch != MAX_UINT64 {
      next' := Earlier(next', at, CL.TimeAtEpoch(n.cl, nextEpoch));
    }
    next' := EarliestOf(n.cancelled, at, next');
    next' := EarliestOf(ForkSeconds(n), at, next');
    forall f | f in n.elForks && EL.AsInt64(f.time) * SECOND > at ensures NoLater(next', Some(EL.AsInt64(f.time))) {
      var i :| 0 <= i < |n.elForks| && n.elForks[i] == f;
      assert ForkSeconds(n)[i] == EL.AsInt64(f.time);
    }
  }

  predicate AllQuiet(networks: seq<Network>, at: int, next: Option<int>)
    requires AllSound(networks)
  {
    forall i :: 0 <= i < |networks| ==> QuietUntil(networks[i], at, next)
  }

  lemma AllQuietGrows(networks: seq<Network>, k: nat, at: int, next: Option<int>, earlier: Option<int>)
    requires AllSound(networks) && k < |networks| && AllQuiet(networks[..k], at, next)
    requires NoLater(earlier, next) && QuietUntil(networks[k], at, earlier)
    ensures AllQuiet(networks[..k + 1], at, earlier)
  {
    forall i | 0 <= i < k ensures QuietUntil(networks[i], at, earlier) {
      assert networks[..k][i] == networks[i];
      QuietShrinks(networks[i], at, earlier, next);
    }
  }

  function Prepend(parts: seq<Part>, rest: Option<seq<Part>>): Option<seq<Part>> {
    if rest.None? then None else Some(parts + rest.value)
  }

  lemma TokenStep(networks: seq<Network>, k: nat, at: int, parts: seq<Part>)
    requires AllSound(networks) && k < |networks|
    ensures var part := PartAt(networks[k], at); var here := Prepend(parts, TokenAt(networks[k..], at));
            if part.None? then here == None else here == Prepend(parts + [part.value], TokenAt(networks[k + 1..], at))
  {
    assert networks[k..][0] == networks[k] && networks[k..][1..] == networks[k + 1..];
    var part, rest := PartAt(networks[k], at), TokenAt(networks[k + 1..], at);
    if part.Some? && rest.Some? {
      assert parts + ([part.value] + rest.value) == parts + [part.value] + rest.value;
    }
  }

  lemma TokenStart(networks: seq<Network>, at: int)
    requires AllSound(networks)
    ensures networks[0..] == networks && Prepend([], TokenAt(networks, at)) == TokenAt(networks, at)
  {
    var t := TokenAt(networks, at);
    assert t.Some? ==> [] + t.value == t.value;
  }

  /** A given instant is a transition of one of the networks. */
  predicate SomeTransits(networks: seq<Network>, at: int, next: Option<int>)
    requires AllSound(networks)
  {
    next.Some? ==> exists i :: 0 <= i < |networks| && Transits(networks[i], at, next.value)
  }

  lemma SomeTransitsGrows(networks: seq<Network>, k: nat, at: int, next: Option<int>, earlier: Option<int>)
    requires AllSound(networks) && k < |networks| && SomeTransits(networks[..k], at, next)
    requires earlier == next || (earlier.Some? && Transits(networks[k], at, earlier.value))
    ensures SomeTransits(networks[..k + 1], at, earlier)
  {
    assert networks[..k + 1][k] == networks[k];
    if earlier == next && next.Some? {
      var i :| 0 <= i < k && Transits(networks[..k][i], at, next.value);
      assert networks[..k + 1][i] == networks[..k][i];
    }
  }

  /** ForkEraTokenAt: the token and the earliest scheduled transition, in Unix seconds: one of the transitions of the
      networks, and none ahead is before it. */
  method ForkEraTokenAt(networks: seq<Network>, at: int) returns (token: Option<seq<Part>>, next: Option<int>)
    requires Unix(at) < MAX_INT64
    requires AllSound(networks)
    ensures token == TokenAt(networks, at)
    ensures next.Some? ==> next.value * SECOND > at
    ensures token.Some? ==> AllQuiet(networks, at, next)
    ensures SomeTransits(networks, at, next)
  {
    next := None;
    var parts := [];
    TokenStart(networks, at);
    for i := 0 to |networks|
      invariant next.Some? ==> next.value * SECOND > at
      invariant AllQuiet(networks[..i], at, next)
      invariant SomeTransits(networks[..i], at, next)
      invariant TokenAt(networks, at) == Prepend(parts, TokenAt(networks[i..], at))
    {
      TokenStep(networks, i, at, parts);
      var part := PartAt(networks[i], at);
      if part.None? {
        return None, None;
      }
      parts := parts + [part.value];
      var earlier := NetworkTransition(networks[i], at, next);
      AllQuietGrows(networks, i, at, next, earlier);
      SomeTransitsGrows(networks, i, at, next, earlier);
      next := earlier;
    }
    assert networks[..|networks|] == networks && networks[|networks|..] == [] && parts + [] == parts;
    token := Some(parts);
  }

  // ----- the token is constant until the transition -----

  lemma {:induction false} FirstForkStable(forks: seq<CL.Fork>, a: nat, b: nat)
    requires a <= b && forall i :: 0 <= i < |forks| ==> forks[i].epoch <= a || forks[i].epoch > b
    ensures CL.FirstForkAfter(forks, a) == CL.FirstForkAfter(forks, b)
  {
    if forks != [] { FirstForkStable(forks[1..], a, b); }
  }

  lemma {:induction false} FirstBlobStable(blobs: seq<CL.Blob>, cancelled: set<Uint64>, a: nat, b: nat, limit: nat)
    requires a <= b
    requires forall i :: 0 <= i < |blobs| ==> blobs[i].epoch in cancelled || blobs[i].epoch <= a || blobs[i].epoch > b
    ensures CL.FirstBlobBetween(blobs, cancelled, a, limit) == CL.FirstBlobBetween(blobs, cancelled, b, limit)
  {
    if blobs != [] { FirstBlobStable(blobs[1..], cancelled, a, b, limit); }
  }

  lemma StateStable(c: CL.Schedule, a: nat, b: nat)
    requires CL.Ticks(c) && CL.Ordered(c) && CL.FuluCovered(c) && a <= b < CL.NextEpoch(c, a)
    ensures CL.StateAt(c, a) == CL.StateAt(c, b)
  {
    CL.DigestStable(c, a, b);
    CL.NextIsNext(c, a);
    FirstForkStable(c.forks, a, b);
    var fork := CL.FirstForkAfter(c.forks, a);
    FirstBlobStable(c.blobs, c.cancelledBPOs, a, b, if fork.Some? then fork.value.epoch else MAX_UINT64);
  }

  lemma {:induction false} PassedStable(cancelled: seq<int>, a: int, b: int)
    requires a <= b && forall c :: c in cancelled ==> c * SECOND <= a || c * SECOND > b
    ensures PassedCancellations(cancelled, a) == PassedCancellations(cancelled, b)
  {
    if cancelled != [] {
      assert cancelled[0] in cancelled;
      assert forall c :: c in cancelled[1..] ==> c in cancelled;
      PassedStable(cancelled[1..], a, b);
    }
  }

  lemma EpochMonotone(c: CL.Schedule, a: int, b: int)
    requires CL.Ticks(c) && a <= b
    ensures CL.EpochAt(c, a) <= CL.EpochAt(c, b)
  {
    if a > 0 && a > c.genesis {
      CL.DivisionBound(b - c.genesis, CL.EpochSeconds(c).value, CL.EpochAt(c, a));
      CL.DivisionBound(a - c.genesis, CL.EpochSeconds(c).value, CL.EpochAt(c, a));
    }
  }

  predicate Before(t: int, next: Option<int>) {
    next.Some? ==> t < next.value * SECOND
  }

  lemma PartStable(n: Network, at: int, t: int, next: Option<int>)
    requires Sound(n) && at <= t && Unix(t) < MAX_INT64 && Before(t, next) && QuietUntil(n, at, next)
    ensures PartAt(n, t) == PartAt(n, at)
  {
    var a, b := CL.EpochAt(n.cl, Unix(at)), CL.EpochAt(n.cl, Unix(t));
    EpochMonotone(n.cl, Unix(at), Unix(t));
    EpochFits(n.cl, Unix(at));
    EpochFits(n.cl, Unix(t));
    CL.NextIsNext(n.cl, a);
    CL.EpochTimeGalois(n.cl, Unix(t), CL.NextEpoch(n.cl, a));
    StateStable(n.cl, a, b);
    PassedStable(n.cancelled, at, t);
    var lo, hi := if Unix(at) > 0 then Unix(at) else 0, if Unix(t) > 0 then Unix(t) else 0;
    forall x | x in EL.IdTimes(n.elForks, n.genesis) ensures x <= lo || x > hi {
      var f :| f in n.elForks && f.time > n.genesis && f.time == x;
      assert x <= MAX_INT64 ==> EL.AsInt64(f.time) == x;
    }
    EL.IdStable(n.blocks, EL.IdTimes(n.elForks, n.genesis), lo, hi);
  }

  /** The token at an instant is the token at every later instant before the transition returned with it. */
  lemma {:induction false} TokenConstantUntilNext(networks: seq<Network>, at: int, t: int, next: Option<int>)
    requires AllSound(networks) && AllQuiet(networks, at, next)
    requires at <= t && Unix(t) < MAX_INT64 && Before(t, next)
    ensures TokenAt(networks, t) == TokenAt(networks, at)
  {
    if networks != [] {
      PartStable(networks[0], at, t, next);
      TokenConstantUntilNext(networks[1..], at, t, next);
    }
  }

  // ----- the token changes at transitions -----

  lemma {:induction false} PassedGrows(cancelled: seq<int>, a: int, b: int)
    requires a <= b
    ensures |PassedCancellations(cancelled, a)| <= |PassedCancellations(cancelled, b)|
    ensures (exists c :: c in cancelled && a < c * SECOND <= b) ==>
              |PassedCancellations(cancelled, a)| < |PassedCancellations(cancelled, b)|
  {
    if cancelled != [] {
      PassedGrows(cancelled[1..], a, b);
      if c :| c in cancelled && a < c * SECOND <= b && c != cancelled[0] { assert c in cancelled[1..]; }
    }
  }

  /** An execution fork begins between the two instants, on a network whose block forks are all behind it. */
  predicate ForkBetween(n: Network, a: int, b: int) {
    && (forall x :: x in n.blocks ==> x <= FORK_HEAD_BLOCK)
    && exists f :: f in n.elForks && f.time > n.genesis && f.time > Unix(a) && f.time <= Unix(b)
  }

  /** Consensus forks in force at the two instants have different versions. */
  ghost predicate VersionsDiffer(c: CL.Schedule, a: int, b: int)
    requires CL.Ticks(c)
  {
    exists i, j :: && CL.LastBegun(c.forks, CL.EpochAt(c, a), i) && CL.LastBegun(c.forks, CL.EpochAt(c, b), j)
                   && c.forks[i].version != c.forks[j].version
  }

  lemma {:induction false} AllPassed(blocks: seq<Uint64>)
    requires forall x :: x in blocks ==> x <= FORK_HEAD_BLOCK
    ensures EL.Passed(blocks, FORK_HEAD_BLOCK) == blocks
  {
    if blocks != [] {
      assert forall x :: x in blocks[1..] ==> x in blocks;
      AllPassed(blocks[1..]);
      assert blocks[0] in blocks && blocks == [blocks[0]] + blocks[1..];
    }
  }

  lemma ForkChangesHash(n: Network, a: int, b: int)
    requires a <= b && ForkBetween(n, a, b)
    ensures ELHash(n, Unix(a)) != ELHash(n, Unix(b))
  {
    var times := EL.IdTimes(n.elForks, n.genesis);
    var lo, hi := if Unix(a) > 0 then Unix(a) else 0, if Unix(b) > 0 then Unix(b) else 0;
    var f :| f in n.elForks && f.time > n.genesis && f.time > Unix(a) && f.time <= Unix(b);
    EL.PassedIsPrefix(n.blocks, FORK_HEAD_BLOCK);
    AllPassed(n.blocks);
    EL.PassedIsPrefix(times, lo);
    EL.PassedHas(times, hi, f.time);
    var before, after := EL.Passed(times, lo), EL.Passed(times, hi);
    var blocks := EL.Passed(n.blocks, FORK_HEAD_BLOCK);
    assert f.time in after && f.time !in before;
    assert (blocks + before)[|blocks|..] == before && (blocks + after)[|blocks|..] == after;
  }

  /** A network's part changes across an execution fork, a new consensus version and a cancelled activation. */
  lemma PartChanges(n: Network, a: int, b: int)
    requires Sound(n) && a <= b && PartAt(n, a).Some?
    requires || ForkBetween(n, a, b)
             || VersionsDiffer(n.cl, Unix(a), Unix(b))
             || exists c :: c in n.cancelled && a < c * SECOND <= b
    ensures PartAt(n, a) != PartAt(n, b)
  {
    if ForkBetween(n, a, b) {
      ForkChangesHash(n, a, b);
    } else if VersionsDiffer(n.cl, Unix(a), Unix(b)) {
      var i, j :| && CL.LastBegun(n.cl.forks, CL.EpochAt(n.cl, Unix(a)), i)
                  && CL.LastBegun(n.cl.forks, CL.EpochAt(n.cl, Unix(b)), j)
                  && n.cl.forks[i].version != n.cl.forks[j].version;
      CL.VersionOfDigest(n.cl, CL.EpochAt(n.cl, Unix(a)), i);
      CL.VersionOfDigest(n.cl, CL.EpochAt(n.cl, Unix(b)), j);
    } else {
      PassedGrows(n.cancelled, a, b);
    }
  }

  /** Tokens of two instants are the same exactly when every network's part is. */
  lemma {:induction false} TokenSameExactly(networks: seq<Network>, a: int, b: int)
    requires AllSound(networks) && TokenAt(networks, a).Some?
    ensures TokenAt(networks, a) == TokenAt(networks, b)
            <==> forall i :: 0 <= i < |networks| ==> PartAt(networks[i], a) == PartAt(networks[i], b)
  {
    if networks != [] {
      TokenSameExactly(networks[1..], a, b);
      var x, y := TokenAt(networks, a), TokenAt(networks, b);
      if x == y {
        assert x.value[0] == y.value[0] && x.value[1..] == y.value[1..];
        assert x.value[1..] == TokenAt(networks[1..], a).value && y.value[1..] == TokenAt(networks[1..], b).value;
        forall i | 0 < i < |networks| ensures PartAt(networks[i], a) == PartAt(networks[i], b) {
          assert networks[i] == networks[1..][i - 1];
        }
      } else {
        assert PartAt(networks[0], a) == PartAt(networks[0], b) ==>
          exists i :: 0 <= i < |networks[1..]| && PartAt(networks[1..][i], a) != PartAt(networks[1..][i], b);
      }
    }
  }

  /** So a response cached under one token is not served for instants on the other side of a transition. */
  lemma TokenChanges(networks: seq<Network>, a: int, b: int, i: nat)
    requires AllSound(networks) && a <= b && TokenAt(networks, a).Some? && i < |networks|
    requires || ForkBetween(networks[i], a, b)
             || VersionsDiffer(networks[i].cl, Unix(a), Unix(b))
             || exists c :: c in networks[i].cancelled && a < c * SECOND <= b
    ensures TokenAt(networks, a) != TokenAt(networks, b)
  {
    PartOfToken(networks, a, i);
    PartChanges(networks[i], a, b);
    TokenSameExactly(networks, a, b);
  }

  lemma {:induction false} PartOfToken(networks: seq<Network>, at: int, i: nat)
    requires AllSound(networks) && TokenAt(networks, at).Some? && i < |networks|
    ensures PartAt(networks[i], at).Some?
  {
    if i > 0 { PartOfToken(networks[1..], at, i - 1); }
  }

  // ----- response reuse -----

  datatype CacheControl = CacheControl(maxAge: int, staleWhileRevalidate: int)

  /** cacheControlUntil: seconds a response may be served fresh, and then stale while it is refreshed. */
  function CacheControlUntil(at: int, next: Option<int>, maxAge: nat): CacheControl {
    var remaining := if next.Some? then next.value * SECOND - at else 0;
    var age := if next.None? then maxAge
               else if remaining <= 0 then 0
               else if remaining / SECOND < maxAge then remaining / SECOND
               else maxAge;
    CacheControl(age, if next.None? || remaining >= (age + 60) * SECOND then 60 else 0)
  }

  /** A response is fresh for as many whole seconds as the limit allows and the transition leaves, and stale for one
      more minute exactly when that minute ends before the transition. */
  lemma ReusedAsLongAsAllowed(at: int, next: Option<int>, maxAge: nat)
    requires next.Some? ==> next.value * SECOND > at
    ensures var c := CacheControlUntil(at, next, maxAge);
            && 0 <= c.maxAge <= maxAge && (next.Some? ==> at + c.maxAge * SECOND <= next.value * SECOND)
            && (c.maxAge < maxAge ==> next.Some? && at + (c.maxAge + 1) * SECOND > next.value * SECOND)
            && c.staleWhileRevalidate == if next.None? || at + (c.maxAge + 60) * SECOND <= next.value * SECOND then 60
                                         else 0
  {
  }

  /** Serves a response for the token: no instant at which it may be reused has another token. */
  method TokenAndReuse(networks: seq<Network>, at: int, maxAge: nat)
    returns (token: Option<seq<Part>>, control: CacheControl)
    requires Unix(at) < MAX_INT64
    requires AllSound(networks)
    ensures control.maxAge <= maxAge
    ensures token.Some? ==> forall t ::
      at <= t < at + (control.maxAge + control.staleWhileRevalidate) * SECOND && Unix(t) < MAX_INT64 ==>
        TokenAt(networks, t) == token
  {
    var next;
    token, next := ForkEraTokenAt(networks, at);
    control := CacheControlUntil(at, next, maxAge);
    if token.Some? {
      forall t | at <= t < at + (control.maxAge + control.staleWhileRevalidate) * SECOND && Unix(t) < MAX_INT64
        ensures TokenAt(networks, t) == token
      {
        TokenConstantUntilNext(networks, at, t, next);
      }
    }
  }
}
