/** The consensus fork schedule: epochs and wall-clock time, fork digests, transitions, and the caches over them. */
module ClSchedule {
  import opened Text

  datatype Fork = Fork(name: string, epoch: Uint64, version: Hash4)

  datatype Blob = Blob(epoch: Uint64, maxBlobs: Uint64)

  datatype Schedule = Schedule(genesis: Uint64, secondsPerSlot: Uint64, slotsPerEpoch: Uint64,
                               forks: seq<Fork>, fulu: Uint64, blobs: seq<Blob>, cancelledBPOs: set<Uint64>)

  /** A fork digest, named by what is hashed into it: the version, and from Fulu the blob parameters. */
  datatype Digest = Raw(version: Hash4) | Masked(version: Hash4, blob: Blob)

  // ----- epochs and time -----

  function EpochSeconds(c: Schedule): Option<int> {
    if c.secondsPerSlot == 0 || c.secondsPerSlot * c.slotsPerEpoch > MAX_UINT64 then None
    else Some(c.secondsPerSlot * c.slotsPerEpoch)
  }

  /** Every registered network has a positive epoch length. */
  predicate Ticks(c: Schedule) {
    EpochSeconds(c).Some? && EpochSeconds(c).value > 0
  }

  lemma TicksExactly(c: Schedule)
    ensures Ticks(c) <==>
              c.secondsPerSlot > 0 && c.slotsPerEpoch > 0 && c.secondsPerSlot * c.slotsPerEpoch <= MAX_UINT64
    ensures Ticks(c) ==> EpochSeconds(c) == Some(c.secondsPerSlot * c.slotsPerEpoch)
  {
    if c.secondsPerSlot > 0 && c.slotsPerEpoch > 0 { assert c.secondsPerSlot * c.slotsPerEpoch > 0; }
  }

  function EpochAt(c: Schedule, unix: int): nat
    requires Ticks(c)
  {
    if unix <= 0 || unix <= c.genesis then 0 else (unix - c.genesis) / EpochSeconds(c).value
  }

  /** Saturates at the last representable second. */
  function TimeAtEpoch(c: Schedule, epoch: Uint64): int
    requires Ticks(c)
  {
    var s := EpochSeconds(c).value;
    if c.genesis > MAX_INT64 || epoch > (MAX_INT64 - c.genesis) / s then MAX_INT64 else c.genesis + epoch * s
  }

  lemma DivisionBound(a: int, s: int, e: int)
    requires s > 0 && a >= 0
    ensures a / s >= e <==> a >= e * s
  {
    var q, r := a / s, a % s;
    assert a == q * s + r;
    if q >= e { assert q * s >= e * s; } else { assert (q + 1) * s <= e * s; assert (q + 1) * s == q * s + s; }
  }

  /** EpochAt and TimeAtEpoch are a Galois pair, save at the last representable second for an epoch
      that begins later. */
  lemma EpochTimeGalois(c: Schedule, unix: int, epoch: Uint64)
    requires Ticks(c) && epoch > 0 && unix <= MAX_INT64
    ensures (EpochAt(c, unix) >= epoch <==> unix >= TimeAtEpoch(c, epoch))
            <==> !(unix == MAX_INT64 && c.genesis + epoch * EpochSeconds(c).value > MAX_INT64)
  {
    var s := EpochSeconds(c).value;
    if c.genesis <= MAX_INT64 {
      DivisionBound(MAX_INT64 - c.genesis, s, epoch);
      DivisionBound(MAX_INT64 - c.genesis, s, epoch + 1);
      assert (epoch + 1) * s == epoch * s + s;
    }
    Multiples(epoch, s);
    if unix > 0 && unix > c.genesis {
      DivisionBound(unix - c.genesis, s, epoch);
    }
  }

  /** Before the last representable second, an epoch holds exactly the instants from its start to that of the next. */
  lemma EpochContains(c: Schedule, unix: int, epoch: nat)
    requires Ticks(c) && unix > c.genesis
    ensures EpochAt(c, unix) == epoch <==>
              c.genesis + epoch * (c.secondsPerSlot * c.slotsPerEpoch) <= unix
              < c.genesis + (epoch + 1) * (c.secondsPerSlot * c.slotsPerEpoch)
    ensures EpochAt(c, c.genesis) == 0
  {
    var s := c.secondsPerSlot * c.slotsPerEpoch;
    DivisionBound(unix - c.genesis, s, epoch);
    DivisionBound(unix - c.genesis, s, epoch + 1);
  }

  lemma Multiples(e: int, s: int)
    requires e >= 0 && s > 0
    ensures e * s >= 0 && (e * s) / s == e
  {
    DivisionBound(e * s, s, e);
    DivisionBound(e * s, s, e + 1);
    assert (e + 1) * s == e * s + s;
  }

  // ----- what is active at an epoch -----

  predicate SortedForks(forks: seq<Fork>) {
    forall i, j :: 0 <= i < j < |forks| ==> forks[i].epoch <= forks[j].epoch
  }

  predicate SortedBlobs(blobs: seq<Blob>) {
    forall i, j :: 0 <= i < j < |blobs| ==> blobs[i].epoch <= blobs[j].epoch
  }

  function ForkScan(active: Fork, rest: seq<Fork>, epoch: nat): Fork
    decreases |rest|
  {
    if rest == [] || rest[0].epoch > epoch then active else ForkScan(rest[0], rest[1..], epoch)
  }

  function ForkAt(c: Schedule, epoch: nat): Option<Fork> {
    if c.forks == [] then None else Some(ForkScan(c.forks[0], c.forks[1..], epoch))
  }

  function BlobScan(active: Option<Blob>, rest: seq<Blob>, cancelled: set<Uint64>, epoch: nat): Option<Blob>
    decreases |rest|
  {
    if rest == [] then active
    else if rest[0].epoch in cancelled then BlobScan(active, rest[1..], cancelled, epoch)
    else if rest[0].epoch > epoch then active
    else BlobScan(Some(rest[0]), rest[1..], cancelled, epoch)
  }

  function BlobAt(c: Schedule, epoch: nat): Option<Blob> {
    BlobScan(None, c.blobs, c.cancelledBPOs, epoch)
  }

  /** digestAt: None where the source reports an error. */
  function DigestAt(c: Schedule, epoch: nat): Option<Digest> {
    var fork := ForkAt(c, epoch);
    if fork.None? then None
    else if c.fulu != MAX_UINT64 && epoch >= c.fulu then
      var blob := BlobAt(c, epoch);
      if blob.None? then None else Some(Masked(fork.value.version, blob.value))
    else Some(Raw(fork.value.version))
  }

  /** Entry k is the last listed one that has begun. */
  predicate LastBegun(forks: seq<Fork>, epoch: nat, k: int) {
    0 <= k < |forks| && forks[k].epoch <= epoch && forall i :: k < i < |forks| ==> forks[i].epoch > epoch
  }

  predicate LiveBegun(c: Schedule, epoch: nat, k: int) {
    0 <= k < |c.blobs| && c.blobs[k].epoch <= epoch && c.blobs[k].epoch !in c.cancelledBPOs
  }

  predicate LastLive(c: Schedule, epoch: nat, k: int) {
    LiveBegun(c, epoch, k) && forall i :: k < i < |c.blobs| ==> !LiveBegun(c, epoch, i)
  }

  lemma {:induction false} ForkScanIsLast(active: Fork, rest: seq<Fork>, epoch: nat, k: nat)
    requires SortedForks(rest) && k <= |rest|
    requires forall i :: 0 <= i < |rest| ==> (rest[i].epoch <= epoch <==> i < k)
    ensures ForkScan(active, rest, epoch) == if k == 0 then active else rest[k - 1]
    decreases |rest|
  {
    if k > 0 { ForkScanIsLast(rest[0], rest[1..], epoch, k - 1); }
  }

  lemma {:induction false} BlobScanIsLast(active: Option<Blob>, rest: seq<Blob>, cancelled: set<Uint64>, epoch: nat,
                                          k: int)
    requires SortedBlobs(rest) && -1 <= k < |rest|
    requires k >= 0 ==> rest[k].epoch <= epoch && rest[k].epoch !in cancelled
    requires forall i :: k < i < |rest| ==> rest[i].epoch > epoch || rest[i].epoch in cancelled
    ensures BlobScan(active, rest, cancelled, epoch) == if k < 0 then active else Some(rest[k])
    decreases |rest|
  {
    if rest != [] && (rest[0].epoch in cancelled || rest[0].epoch <= epoch) {
      var next := if rest[0].epoch in cancelled then active else Some(rest[0]);
      BlobScanIsLast(next, rest[1..], cancelled, epoch, if k < 0 then -1 else k - 1);
    }
  }

  /** The digest at an epoch of a schedule in order from genesis carries the version of the last listed fork that has
      begun. From Fulu on it is masked with the last listed live blob entry that has begun, before Fulu it is raw; there
      is none exactly when Fulu has been reached and no live blob entry has begun. */
  lemma DigestExactly(c: Schedule, epoch: nat, k: int)
    requires Ordered(c) && LastBegun(c.forks, epoch, k)
    ensures c.fulu == MAX_UINT64 || epoch < c.fulu ==> DigestAt(c, epoch) == Some(Raw(c.forks[k].version))
    ensures c.fulu != MAX_UINT64 && epoch >= c.fulu ==>
              forall b :: LastLive(c, epoch, b) ==> DigestAt(c, epoch) == Some(Masked(c.forks[k].version, c.blobs[b]))
    ensures DigestAt(c, epoch) == None <==>
              c.fulu != MAX_UINT64 && epoch >= c.fulu && forall b :: 0 <= b < |c.blobs| ==> !LiveBegun(c, epoch, b)
  {
    ForkScanIsLast(c.forks[0], c.forks[1..], epoch, k);
    forall b | LastLive(c, epoch, b) ensures BlobAt(c, epoch) == Some(c.blobs[b]) {
      BlobAtIs(c, epoch, b);
    }
    if b :| LiveBegun(c, epoch, b) {
      var last := LastLiveExists(c, epoch, b);
    } else {
      BlobAtIs(c, epoch, -1);
    }
  }

  lemma BlobAtIs(c: Schedule, epoch: nat, k: int)
    requires SortedBlobs(c.blobs) && (k == -1 || LiveBegun(c, epoch, k))
    requires forall i :: k < i < |c.blobs| ==> !LiveBegun(c, epoch, i)
    ensures BlobAt(c, epoch) == if k == -1 then None else Some(c.blobs[k])
  {
    forall i | k < i < |c.blobs| ensures c.blobs[i].epoch > epoch || c.blobs[i].epoch in c.cancelledBPOs {
      assert !LiveBegun(c, epoch, i);
    }
    BlobScanIsLast(None, c.blobs, c.cancelledBPOs, epoch, k);
  }

  lemma LastLiveExists(c: Schedule, epoch: nat, b: int) returns (last: int)
    requires LiveBegun(c, epoch, b)
    ensures LastLive(c, epoch, last)
  {
    last := |c.blobs| - 1;
    while !LiveBegun(c, epoch, last)
      invariant b <= last < |c.blobs| && forall i :: last < i < |c.blobs| ==> !LiveBegun(c, epoch, i)
      decreases last
    {
      last := last - 1;
    }
  }

  /** In a schedule from genesis some fork has begun at every epoch. */
  lemma LastBegunExists(c: Schedule, epoch: nat) returns (k: int)
    requires Ordered(c) && c.forks[0].epoch == 0
    ensures LastBegun(c.forks, epoch, k)
  {
    k := |c.forks| - 1;
    while c.forks[k].epoch > epoch
      invariant 0 <= k < |c.forks| && forall i :: k < i < |c.forks| ==> c.forks[i].epoch > epoch
      decreases k
    {
      k := k - 1;
    }
  }

  /** A regular fork with a new version changes the digest at its epoch. */
  lemma NewVersionChangesDigest(c: Schedule, epoch: nat, before: int, after: int)
    requires Ordered(c) && epoch > 0
    requires LastBegun(c.forks, epoch - 1, before) && LastBegun(c.forks, epoch, after)
    requires c.forks[before].version != c.forks[after].version && DigestAt(c, epoch).Some?
    ensures DigestAt(c, epoch - 1) != DigestAt(c, epoch)
  {
    VersionOfDigest(c, epoch - 1, before);
    VersionOfDigest(c, epoch, after);
  }

  lemma VersionOfDigest(c: Schedule, epoch: nat, k: int)
    requires Ordered(c) && LastBegun(c.forks, epoch, k)
    ensures DigestAt(c, epoch).Some? ==> DigestAt(c, epoch).value.version == c.forks[k].version
  {
    DigestExactly(c, epoch, k);
    if b :| LiveBegun(c, epoch, b) {
      var last := LastLiveExists(c, epoch, b);
    }
  }

  /** So does Fulu, and from Fulu on a live blob entry that differs from the one before it. */
  lemma NewBlobChangesDigest(c: Schedule, epoch: nat, before: int, after: int, a: int, b: int)
    requires Ordered(c) && 0 < epoch && c.fulu != MAX_UINT64 && c.fulu <= epoch
    requires LastBegun(c.forks, epoch - 1, before) && LastBegun(c.forks, epoch, after) && LastLive(c, epoch, b)
    requires c.fulu < epoch ==> LastLive(c, epoch - 1, a) && c.blobs[a] != c.blobs[b]
    ensures DigestAt(c, epoch - 1) != DigestAt(c, epoch)
  {
    DigestExactly(c, epoch - 1, before);
    DigestExactly(c, epoch, after);
  }

  method ForkAtLoop(c: Schedule, epoch: nat) returns (fork: Option<Fork>)
    ensures fork == ForkAt(c, epoch)
  {
    if c.forks == [] { return None; }
    var active, i := c.forks[0], 1;
    while i < |c.forks| && c.forks[i].epoch <= epoch
      invariant 1 <= i <= |c.forks| && ForkAt(c, epoch) == Some(ForkScan(active, c.forks[i..], epoch))
    {
      assert c.forks[i..][1..] == c.forks[i + 1..];
      active, i := c.forks[i], i + 1;
    }
    fork := Some(active);
  }

  method BlobAtLoop(c: Schedule, epoch: nat) returns (blob: Option<Blob>)
    ensures blob == BlobAt(c, epoch)
  {
    blob := None;
    assert c.blobs[0..] == c.blobs;
    for i := 0 to |c.blobs|
      invariant BlobAt(c, epoch) == BlobScan(blob, c.blobs[i..], c.cancelledBPOs, epoch)
    {
      assert c.blobs[i..][1..] == c.blobs[i + 1..];
      if c.blobs[i].epoch in c.cancelledBPOs {
      } else if c.blobs[i].epoch > epoch {
        return;
      } else {
        blob := Some(c.blobs[i]);
      }
    }
  }

  // ----- the next transition -----

  function FirstForkAfter(forks: seq<Fork>, epoch: nat): Option<Fork> {
    if forks == [] then None else if forks[0].epoch > epoch then Some(forks[0]) else FirstForkAfter(forks[1..], epoch)
  }

  function FirstBlobBetween(blobs: seq<Blob>, cancelled: set<Uint64>, epoch: nat, limit: nat): Option<Blob> {
    if blobs == [] then None
    else if epoch < blobs[0].epoch < limit && blobs[0].epoch !in cancelled then Some(blobs[0])
    else FirstBlobBetween(blobs[1..], cancelled, epoch, limit)
  }

  /** The epoch of the next regular or blob-parameter fork; MAX_UINT64 for none. */
  function NextEpoch(c: Schedule, epoch: nat): Uint64 {
    var fork := FirstForkAfter(c.forks, epoch);
    var limit := if fork.Some? then fork.value.epoch else MAX_UINT64;
    var blob := FirstBlobBetween(c.blobs, c.cancelledBPOs, epoch, limit);
    if blob.Some? then blob.value.epoch else limit
  }

  /** The networking state; nextTransition is None when nothing is scheduled. */
  datatype State = State(digest: Digest, nextEpoch: Uint64, nextTransition: Option<int>)

  function StateAt(c: Schedule, epoch: nat): Option<State>
    requires Ticks(c)
  {
    var digest := DigestAt(c, epoch);
    var next := NextEpoch(c, epoch);
    if digest.None? then None
    else if next == MAX_UINT64 then Some(State(digest.value, next, None))
    else if DigestAt(c, next).None? then None
    else Some(State(digest.value, next, Some(TimeAtEpoch(c, next))))
  }

  lemma {:induction false} ForkScanStable(active: Fork, rest: seq<Fork>, a: nat, b: nat)
    requires SortedForks(rest) && a <= b
    requires forall i :: 0 <= i < |rest| ==> rest[i].epoch <= a || rest[i].epoch > b
    ensures ForkScan(active, rest, a) == ForkScan(active, rest, b)
    decreases |rest|
  {
    if rest != [] && rest[0].epoch <= a { ForkScanStable(rest[0], rest[1..], a, b); }
  }

  lemma {:induction false} BlobScanStable(active: Option<Blob>, rest: seq<Blob>, cancelled: set<Uint64>, a: nat, b: nat)
    requires SortedBlobs(rest) && a <= b
    requires forall i :: 0 <= i < |rest| ==> rest[i].epoch in cancelled || rest[i].epoch <= a || rest[i].epoch > b
    ensures BlobScan(active, rest, cancelled, a) == BlobScan(active, rest, cancelled, b)
    decreases |rest|
  {
    if rest != [] {
      if rest[0].epoch in cancelled { BlobScanStable(active, rest[1..], cancelled, a, b); }
      else if rest[0].epoch <= a { BlobScanStable(Some(rest[0]), rest[1..], cancelled, a, b); }
    }
  }

  lemma {:induction false} FirstForkIsNext(forks: seq<Fork>, epoch: nat)
    requires SortedForks(forks)
    ensures var f := FirstForkAfter(forks, epoch);
            && (f.Some? ==> f.value in forks && f.value.epoch > epoch)
            && forall i :: 0 <= i < |forks| && forks[i].epoch > epoch ==> f.Some? && f.value.epoch <= forks[i].epoch
  {
    if forks != [] { FirstForkIsNext(forks[1..], epoch); }
  }

  lemma {:induction false} FirstBlobIsNext(blobs: seq<Blob>, cancelled: set<Uint64>, epoch: nat, limit: nat)
    requires SortedBlobs(blobs)
    ensures var f := FirstBlobBetween(blobs, cancelled, epoch, limit);
            && (f.Some? ==> f.value in blobs && epoch < f.value.epoch < limit && f.value.epoch !in cancelled)
            && forall i :: 0 <= i < |blobs| && epoch < blobs[i].epoch < limit && blobs[i].epoch !in cancelled ==>
                 f.Some? && f.value.epoch <= blobs[i].epoch
  {
    if blobs != [] { FirstBlobIsNext(blobs[1..], cancelled, epoch, limit); }
  }

  /** Nothing is scheduled strictly between an epoch and its next one. */
  lemma NextIsNext(c: Schedule, epoch: nat)
    requires SortedForks(c.forks) && SortedBlobs(c.blobs)
    ensures epoch < MAX_UINT64 ==> NextEpoch(c, epoch) > epoch
    ensures forall i :: 0 <= i < |c.forks| ==> c.forks[i].epoch <= epoch || c.forks[i].epoch >= NextEpoch(c, epoch)
    ensures forall i :: 0 <= i < |c.blobs| ==>
      c.blobs[i].epoch in c.cancelledBPOs || c.blobs[i].epoch <= epoch || c.blobs[i].epoch >= NextEpoch(c, epoch)
    ensures NextEpoch(c, epoch) == MAX_UINT64
            || (exists i :: 0 <= i < |c.forks| && c.forks[i].epoch == NextEpoch(c, epoch))
            || (exists i :: 0 <= i < |c.blobs|
                            && c.blobs[i].epoch == NextEpoch(c, epoch) && c.blobs[i].epoch !in c.cancelledBPOs)
  {
    var fork := FirstForkAfter(c.forks, epoch);
    var limit := if fork.Some? then fork.value.epoch else MAX_UINT64;
    FirstForkIsNext(c.forks, epoch);
    FirstBlobIsNext(c.blobs, c.cancelledBPOs, epoch, limit);
  }

  predicate LiveAfter(c: Schedule, epoch: nat, at: Uint64) {
    epoch < at < MAX_UINT64
    && ((exists i :: 0 <= i < |c.forks| && c.forks[i].epoch == at)
        || (exists i :: 0 <= i < |c.blobs| && c.blobs[i].epoch == at && at !in c.cancelledBPOs))
  }

  /** The state names a next transition exactly when a fork or live blob entry lies ahead: the instant at which the
      first such epoch begins. */
  lemma StateExactly(c: Schedule, epoch: nat)
    requires Ticks(c) && Ordered(c) && StateAt(c, epoch).Some? && epoch < MAX_UINT64
    ensures var s := StateAt(c, epoch).value;
            && Some(s.digest) == DigestAt(c, epoch)
            && (s.nextTransition.Some? <==> exists at :: LiveAfter(c, epoch, at))
            && (s.nextTransition.Some? ==>
                  && s.nextTransition.value == TimeAtEpoch(c, s.nextEpoch) && LiveAfter(c, epoch, s.nextEpoch)
                  && forall at :: LiveAfter(c, epoch, at) ==> s.nextEpoch <= at)
  {
    NextIsNext(c, epoch);
    var next := NextEpoch(c, epoch);
    if next != MAX_UINT64 { assert LiveAfter(c, epoch, next); }
    forall at | LiveAfter(c, epoch, at) ensures next <= at {
    }
  }

  /** Fulu's activation is itself a transition of the schedule, or there is nothing before it. */
  predicate FuluCovered(c: Schedule) {
    || c.fulu == MAX_UINT64 || c.fulu == 0
    || (exists i :: 0 <= i < |c.forks| && c.forks[i].epoch == c.fulu)
    || (exists i :: 0 <= i < |c.blobs| && c.blobs[i].epoch == c.fulu && c.blobs[i].epoch !in c.cancelledBPOs)
  }

  predicate Ordered(c: Schedule) {
    SortedForks(c.forks) && SortedBlobs(c.blobs) && c.forks != []
  }

  lemma DigestStable(c: Schedule, a: nat, b: nat)
    requires Ordered(c) && FuluCovered(c) && a <= b < NextEpoch(c, a)
    ensures DigestAt(c, b) == DigestAt(c, a)
  {
    NextIsNext(c, a);
    ForkScanStable(c.forks[0], c.forks[1..], a, b);
    BlobScanStable(None, c.blobs, c.cancelledBPOs, a, b);
  }

  /** With no fork in between, nor Fulu, nor from Fulu on a live blob entry, the digest stays what it is. */
  lemma DigestUnchanged(c: Schedule, a: nat, b: nat)
    requires Ordered(c) && a <= b && (c.fulu == MAX_UINT64 || c.fulu <= a || c.fulu > b)
    requires forall i :: 0 <= i < |c.forks| ==> c.forks[i].epoch <= a || c.forks[i].epoch > b
    requires c.fulu <= a ==> forall i :: 0 <= i < |c.blobs| ==>
               c.blobs[i].epoch in c.cancelledBPOs || c.blobs[i].epoch <= a || c.blobs[i].epoch > b
    ensures DigestAt(c, b) == DigestAt(c, a)
  {
    ForkScanStable(c.forks[0], c.forks[1..], a, b);
    if c.fulu <= a { BlobScanStable(None, c.blobs, c.cancelledBPOs, a, b); }
  }

  /** From each epoch up to its computed next one the digest is the same. */
  ghost predicate ConstantUntilNext(c: Schedule) {
    forall a: nat, b: nat :: a <= b < NextEpoch(c, a) ==> DigestAt(c, b) == DigestAt(c, a)
  }

  /** The digest at every epoch stays what it is until the computed next epoch, if and only if Fulu is covered. */
  lemma DigestConstantUntilNext(c: Schedule)
    requires Ordered(c)
    ensures FuluCovered(c) <==> ConstantUntilNext(c)
  {
    if FuluCovered(c) {
      forall a: nat, b: nat | a <= b < NextEpoch(c, a) ensures DigestAt(c, b) == DigestAt(c, a) {
        DigestStable(c, a, b);
      }
    } else {
      var a, b := c.fulu - 1, c.fulu;
      NextIsNext(c, a);
      assert a <= b < NextEpoch(c, a);
      assert DigestAt(c, a).Some? && DigestAt(c, a).value.Raw?;
      assert DigestAt(c, b) != DigestAt(c, a);
    }
  }

  // ----- the membership cache -----

  function ForkDigest(c: Schedule, fork: Fork): Option<Digest> {
    if c.fulu == MAX_UINT64 || fork.epoch < c.fulu then Some(Raw(fork.version)) else DigestAt(c, fork.epoch)
  }

  function BlobDigest(c: Schedule, blob: Blob): Option<Digest> {
    if blob.epoch < c.fulu || blob.epoch in c.cancelledBPOs then None else DigestAt(c, blob.epoch)
  }

  function ForkDigests(c: Schedule, n: nat): set<Digest>
    requires n <= |c.forks|
  {
    set i | 0 <= i < n && ForkDigest(c, c.forks[i]).Some? :: ForkDigest(c, c.forks[i]).value
  }

  function BlobDigests(c: Schedule, n: nat): set<Digest>
    requires n <= |c.blobs|
  {
    set i | 0 <= i < n && BlobDigest(c, c.blobs[i]).Some? :: BlobDigest(c, c.blobs[i]).value
  }

  function Digests(c: Schedule): set<Digest> {
    ForkDigests(c, |c.forks|) + BlobDigests(c, |c.blobs|)
  }

  /** compute: the digest of every regular fork and of every live blob fork from Fulu on. */
  method ComputeDigests(c: Schedule) returns (digests: set<Digest>)
    ensures digests == Digests(c)
  {
    digests := {};
    for i := 0 to |c.forks|
      invariant digests == ForkDigests(c, i)
    {
      var fork := c.forks[i];
      var d := ForkDigest(c, fork);
      assert ForkDigests(c, i + 1) == ForkDigests(c, i) + (if d.Some? then {d.value} else {});
      if c.fulu == MAX_UINT64 || fork.epoch < c.fulu {
        digests := digests + {Raw(fork.version)};
      } else {
        if d.Some? { digests := digests + {d.value}; }
      }
    }
    for i := 0 to |c.blobs|
      invariant digests == ForkDigests(c, |c.forks|) + BlobDigests(c, i)
    {
      var blob := c.blobs[i];
      var d := BlobDigest(c, blob);
      assert BlobDigests(c, i + 1) == BlobDigests(c, i) + (if d.Some? then {d.value} else {});
      if blob.epoch >= c.fulu && blob.epoch !in c.cancelledBPOs && d.Some? {
        digests := digests + {d.value};
      }
    }
  }

  /** What is in the cache: before Fulu every fork's raw digest, from Fulu on the digest in force when a fork or a live
      blob entry begins. */
  lemma MembersExactly(c: Schedule, d: Digest)
    ensures d in Digests(c) <==>
      || (exists i :: 0 <= i < |c.forks|
                      && (if c.fulu == MAX_UINT64 || c.forks[i].epoch < c.fulu then d == Raw(c.forks[i].version)
                          else DigestAt(c, c.forks[i].epoch) == Some(d)))
      || (exists i :: 0 <= i < |c.blobs| && c.blobs[i].epoch >= c.fulu && c.blobs[i].epoch !in c.cancelledBPOs
                      && DigestAt(c, c.blobs[i].epoch) == Some(d))
  {
    if d in ForkDigests(c, |c.forks|) {
      var i :| 0 <= i < |c.forks| && ForkDigest(c, c.forks[i]) == Some(d);
    }
    if d in BlobDigests(c, |c.blobs|) {
      var i :| 0 <= i < |c.blobs| && BlobDigest(c, c.blobs[i]) == Some(d);
    }
    if i :| 0 <= i < |c.forks| && ForkDigest(c, c.forks[i]) == Some(d) { assert d in ForkDigests(c, |c.forks|); }
    if i :| 0 <= i < |c.blobs| && BlobDigest(c, c.blobs[i]) == Some(d) { assert d in BlobDigests(c, |c.blobs|); }
    assert forall i :: 0 <= i < |c.forks| ==> (ForkDigest(c, c.forks[i]) == Some(d) <==>
      if c.fulu == MAX_UINT64 || c.forks[i].epoch < c.fulu then d == Raw(c.forks[i].version)
      else DigestAt(c, c.forks[i].epoch) == Some(d));
    assert forall i :: 0 <= i < |c.blobs| ==> (BlobDigest(c, c.blobs[i]) == Some(d) <==>
      c.blobs[i].epoch >= c.fulu && c.blobs[i].epoch !in c.cancelledBPOs
      && DigestAt(c, c.blobs[i].epoch) == Some(d));
  }

  /** The scan ends at the active fork or at one of the rest it passed. */
  lemma {:induction false} ForkScanFinds(active: Fork, rest: seq<Fork>, epoch: nat)
    requires SortedForks(rest) && forall f :: f in rest ==> active.epoch <= f.epoch
    ensures var f := ForkScan(active, rest, epoch);
            && (f == active || (f in rest && f.epoch <= epoch))
            && forall x :: x in rest && x.epoch <= epoch ==> x.epoch <= f.epoch
    decreases |rest|
  {
    if rest != [] {
      var first, tail := rest[0], rest[1..];
      FirstIsLeast(rest);
      if first.epoch <= epoch { ForkScanFinds(first, tail, epoch); }
      assert rest == [first] + tail;
    }
  }

  lemma FirstIsLeast(forks: seq<Fork>)
    requires SortedForks(forks) && forks != []
    ensures SortedForks(forks[1..]) && forall f :: f in forks[1..] ==> forks[0].epoch <= f.epoch
  {
  }

  lemma {:induction false} BlobScanFinds(active: Option<Blob>, rest: seq<Blob>, cancelled: set<Uint64>, epoch: nat)
    requires SortedBlobs(rest)
    ensures var b := BlobScan(active, rest, cancelled, epoch);
            b == active || (b.Some? && b.value in rest && b.value.epoch !in cancelled && b.value.epoch <= epoch)
    ensures var b := BlobScan(active, rest, cancelled, epoch);
            forall i :: 0 <= i < |rest| && rest[i].epoch <= epoch && rest[i].epoch !in cancelled ==>
              b.Some? && (rest[i].epoch <= b.value.epoch)
    decreases |rest|
  {
    if rest != [] {
      var next := if rest[0].epoch in cancelled then active else Some(rest[0]);
      if rest[0].epoch in cancelled || rest[0].epoch <= epoch {
        BlobScanFinds(next, rest[1..], cancelled, epoch);
      }
      assert forall i :: 1 <= i < |rest| ==> rest[i] == rest[1..][i - 1];
    }
  }

  /** A regular schedule: genesis is its first fork, and Fulu one of its forks. */
  predicate Regular(c: Schedule) {
    && Ordered(c) && c.forks[0].epoch == 0
    && (c.fulu == MAX_UINT64 || exists i :: 0 <= i < |c.forks| && c.forks[i].epoch == c.fulu)
  }

  lemma ForkAtIsLatest(c: Schedule, epoch: nat) returns (k: nat)
    requires Ordered(c) && c.forks[0].epoch == 0
    ensures k < |c.forks| && ForkAt(c, epoch) == Some(c.forks[k]) && c.forks[k].epoch <= epoch
    ensures forall i :: 0 <= i < |c.forks| ==> c.forks[i].epoch <= c.forks[k].epoch || c.forks[i].epoch > epoch
  {
    FirstIsLeast(c.forks);
    assert c.forks == [c.forks[0]] + c.forks[1..];
    ForkScanFinds(c.forks[0], c.forks[1..], epoch);
    var f := ForkScan(c.forks[0], c.forks[1..], epoch);
    assert f in c.forks;
    k :| 0 <= k < |c.forks| && c.forks[k] == f;
    forall i | 0 <= i < |c.forks| && c.forks[i].epoch <= epoch ensures c.forks[i].epoch <= f.epoch {
      assert c.forks[i] == c.forks[0] || c.forks[i] in c.forks[1..];
    }
  }

  lemma BlobAtIsLatest(c: Schedule, epoch: nat) returns (k: nat)
    requires SortedBlobs(c.blobs) && BlobAt(c, epoch).Some?
    ensures k < |c.blobs| && BlobAt(c, epoch) == Some(c.blobs[k]) && c.blobs[k].epoch <= epoch
    ensures c.blobs[k].epoch !in c.cancelledBPOs
    ensures forall i :: 0 <= i < |c.blobs| ==>
      c.blobs[i].epoch in c.cancelledBPOs || c.blobs[i].epoch <= c.blobs[k].epoch || c.blobs[i].epoch > epoch
  {
    BlobScanFinds(None, c.blobs, c.cancelledBPOs, epoch);
    k :| 0 <= k < |c.blobs| && c.blobs[k] == BlobAt(c, epoch).value;
  }

  lemma SameActive(c: Schedule, since: nat, epoch: nat)
    requires Ordered(c) && since <= epoch
    requires c.fulu != MAX_UINT64 && since >= c.fulu
    requires forall i :: 0 <= i < |c.forks| ==> c.forks[i].epoch <= since || c.forks[i].epoch > epoch
    requires forall i :: 0 <= i < |c.blobs| ==>
      c.blobs[i].epoch in c.cancelledBPOs || c.blobs[i].epoch <= since || c.blobs[i].epoch > epoch
    ensures DigestAt(c, since) == DigestAt(c, epoch)
  {
    ForkScanStable(c.forks[0], c.forks[1..], since, epoch);
    BlobScanStable(None, c.blobs, c.cancelledBPOs, since, epoch);
  }

  /** The digest active at any epoch of a regular schedule is in the membership cache. */
  lemma EveryDigestIsMember(c: Schedule, epoch: nat)
    requires Regular(c) && DigestAt(c, epoch).Some?
    ensures DigestAt(c, epoch).value in Digests(c)
  {
    var k := ForkAtIsLatest(c, epoch);
    var f := c.forks[k];
    if c.fulu == MAX_UINT64 || epoch < c.fulu {
      assert ForkDigest(c, c.forks[k]) == Some(Raw(f.version));
      assert Raw(f.version) in ForkDigests(c, |c.forks|);
    } else {
      var j := BlobAtIsLatest(c, epoch);
      var b := c.blobs[j];
      assert f.epoch >= c.fulu;
      if f.epoch >= b.epoch {
        SameActive(c, f.epoch, epoch);
        assert ForkDigest(c, c.forks[k]) == DigestAt(c, epoch);
        assert DigestAt(c, epoch).value in ForkDigests(c, |c.forks|);
      } else {
        SameActive(c, b.epoch, epoch);
        assert BlobDigest(c, c.blobs[j]) == DigestAt(c, epoch);
        assert DigestAt(c, epoch).value in BlobDigests(c, |c.blobs|);
      }
    }
  }
}
