/** What the tracked fork makes of the rows that matter most: those still on the id from just before it. */
module Lagging {
  import opened Text
  import R = Readiness
  import CL = ClSchedule
  import EL = ElSchedule
  import opened Targets
  import opened BpoNames
  import opened Sorting
  import opened Collections
  import CD = CancelDigests
  import C = Cancel
  import opened ElMembership

  // ----- execution layer -----

  /** hashAt gives the four-byte hash of the schedule's fork id at an instant. */
  ghost predicate HashesOf(hashAt: int -> Hash4, name: EL.Hash -> Hash4, blocks: seq<Uint64>, times: seq<Uint64>) {
    forall t: int :: hashAt(t) == name(EL.IdFrom(blocks, times, t).hash)
  }

  /** A row on the id of the second before the target's time that announces that time: ready for the fork, and once the
      fork has activated lagging behind it. */
  predicate ELBefore(ev: R.Evidence, time: Uint64, hashAt: int -> Hash4) {
    ev.layer == "el" && ev.forkHash == EncodeHex(hashAt(time - 1)) && ev.forkNext == time
  }

  lemma EncodedParses(h: Hash4)
    ensures ParseHash4(EncodeHex(h)) == Some(h)
  {
    EncodedIsUndecorated(h);
    ParsesToExactly(EncodeHex(h), h);
  }

  /** Such a row is ready while the fork is scheduled, its time being no block number. */
  lemma ELRowWhileScheduled(blocks: seq<Uint64>, forks: seq<EL.Fork>, genesis: Uint64, unix: int, k: nat,
                            name: EL.Hash -> Hash4, hashAt: int -> Hash4, t: R.ForkTarget, now: R.NetworkForks,
                            ev: R.Evidence)
    requires ELChosen(forks, genesis, unix, Scheduled(k)) && t.el == ELTargetOf(forks, Scheduled(k), hashAt)
    requires HashesOf(hashAt, name, blocks, EL.IdTimes(forks, genesis)) && now.el == hashAt(R.ClampUnix(unix))
    requires ELBefore(ev, forks[k].time, hashAt)
    ensures R.ReadinessAt(t, now, ev, unix) == Some(if forks[k].time > FORK_HEAD_BLOCK then R.Ready else R.Stale)
  {
    ELTargetFields(forks, genesis, unix, Scheduled(k), hashAt);
    SameNamedHash(blocks, forks, genesis, unix, k, name, hashAt);
    ELVerdict(t, now, hashAt(forks[k].time - 1), ev, unix);
  }

  /** Once the fork has activated it is pending, unless it is still current, which it is not when its Next is a time.
      It is never stale. */
  lemma ELRowOnceActivated(forks: seq<EL.Fork>, genesis: Uint64, unix: int, k: nat, hashAt: int -> Hash4,
                           t: R.ForkTarget, now: R.NetworkForks, ev: R.Evidence)
    requires ELChosen(forks, genesis, unix, Activated(k)) && t.el == ELTargetOf(forks, Activated(k), hashAt)
    requires ELBefore(ev, forks[k].time, hashAt)
    ensures var current := R.RowForkCurrent("el", now, ev.forkHash, ev.forkNext, unix);
            R.ReadinessAt(t, now, ev, unix) == Some(if current then R.Ready else R.Pending)
    ensures forks[k].time > R.TIMESTAMP_THRESHOLD ==> R.ReadinessAt(t, now, ev, unix) == Some(R.Pending)
  {
    ELTargetFields(forks, genesis, unix, Activated(k), hashAt);
    ELVerdict(t, now, hashAt(forks[k].time - 1), ev, unix);
  }

  lemma ELTargetFields(forks: seq<EL.Fork>, genesis: Uint64, unix: int, c: Choice, hashAt: int -> Hash4)
    requires ELChosen(forks, genesis, unix, c) && !c.Nothing?
    ensures var time := forks[c.index].time; var phase := if c.Scheduled? then R.Scheduled else R.Activated;
            && ELTargetOf(forks, c, hashAt) == Some(R.ELTarget(time, phase, EncodeHex(hashAt(time - 1)), []))
            && time > 0 && (if c.Scheduled? then time > unix else time <= R.ClampUnix(unix))
  {
  }

  lemma ELVerdict(t: R.ForkTarget, now: R.NetworkForks, h: Hash4, ev: R.Evidence, unix: int)
    requires t.el.Some? && ev.layer == "el" && ev.forkHash == t.el.value.preHash == EncodeHex(h)
    requires ev.forkNext == t.el.value.time > 0
    ensures var el := t.el.value; var r := R.ReadinessAt(t, now, ev, unix);
            var current := R.RowForkCurrent("el", now, ev.forkHash, ev.forkNext, unix);
            && (el.phase.Scheduled? && now.el == h && el.time > unix ==>
                  r == Some(if el.time > FORK_HEAD_BLOCK then R.Ready else R.Stale))
            && (el.phase.Activated? ==> r == Some(if current then R.Ready else R.Pending))
            && (el.phase.Activated? && R.TIMESTAMP_THRESHOLD < el.time <= unix ==> r == Some(R.Pending))
  {
    EncodedParses(h);
    R.ELCurrentExactly(now, ev.forkHash, ev.forkNext, unix);
    ELRow(t.el.value, ev, R.RowForkCurrent("el", now, ev.forkHash, ev.forkNext, unix));
  }

  lemma ELRow(el: R.ELTarget, ev: R.Evidence, current: bool)
    requires ev.forkHash == el.preHash && ev.forkNext == el.time
    ensures el.phase.Scheduled? ==> R.ELReadiness(el, ev, current) == if current then R.Ready else R.Stale
    ensures el.phase.Activated? ==> R.ELReadiness(el, ev, current) == if current then R.Ready else R.Pending
    ensures el.phase.Cancelled? ==> R.ELReadiness(el, ev, current) == R.NotReady
  {
  }

  lemma SameNamedHash(blocks: seq<Uint64>, forks: seq<EL.Fork>, genesis: Uint64, unix: int, k: int,
                      name: EL.Hash -> Hash4, hashAt: int -> Hash4)
    requires IsNext(forks, genesis, unix, k) && HashesOf(hashAt, name, blocks, EL.IdTimes(forks, genesis))
    ensures hashAt(forks[k].time - 1) == hashAt(R.ClampUnix(unix))
  {
    SameHashBefore(blocks, forks, genesis, unix, k);
  }

  lemma SameHashBefore(blocks: seq<Uint64>, forks: seq<EL.Fork>, genesis: Uint64, unix: int, k: int)
    requires IsNext(forks, genesis, unix, k)
    ensures var times := EL.IdTimes(forks, genesis);
            EL.IdFrom(blocks, times, forks[k].time - 1) == EL.IdFrom(blocks, times, R.ClampUnix(unix))
  {
    var times := EL.IdTimes(forks, genesis);
    forall x | x in times ensures x <= R.ClampUnix(unix) || x > forks[k].time - 1 {
      var f :| f in forks && f.time > genesis && f.time == x;
      var j :| 0 <= j < |forks| && forks[j] == f;
      assert Upcoming(forks[j], genesis, unix) ==> forks[j].time >= forks[k].time;
    }
    EL.IdStable(blocks, times, R.ClampUnix(unix), forks[k].time - 1);
  }

  /** A row on the id of the second before a cancelled fork that announces it still runs the fork: it is not ready,
      current or not. */
  lemma ELRowBeforeCancelled(blocks: seq<Uint64>, forks: seq<EL.Fork>, genesis: Uint64, cancelled: seq<Uint64>,
                             name: EL.Hash -> Hash4, c: Choice, onEL: seq<Hash4>, hashAt: int -> Hash4,
                             t: R.ForkTarget, now: R.NetworkForks, ev: R.Evidence, unix: int)
    requires HashesOf(hashAt, name, blocks, EL.IdTimes(forks, genesis)) && !c.Nothing? && c.index < |cancelled|
    requires forall i :: 0 <= i < |cancelled| ==> cancelled[i] > 0
    requires t.el == CancelledELOf(CancelledELs(blocks, forks, genesis, cancelled, name), c, onEL)
    requires ELBefore(ev, cancelled[c.index], hashAt)
    ensures R.ReadinessAt(t, now, ev, unix) == Some(R.NotReady)
  {
    assert HashAt(blocks, EL.IdTimes(forks, genesis), cancelled[c.index] - 1)
      == PreHash(blocks, forks, genesis, cancelled[c.index]);
    ELRow(t.el.value, ev, R.RowForkCurrent("el", now, ev.forkHash, ev.forkNext, unix));
  }

  /** What is recorded of the cancelled forks of the layer. */
  function CancelledELs(blocks: seq<Uint64>, forks: seq<EL.Fork>, genesis: Uint64, cancelled: seq<Uint64>,
                        name: EL.Hash -> Hash4): seq<CancelledEL>
    requires forall i :: 0 <= i < |cancelled| ==> cancelled[i] > 0
  {
    seq(|cancelled|, i requires 0 <= i < |cancelled| =>
      CancelledEL(cancelled[i], name(PreHash(blocks, forks, genesis, cancelled[i]))))
  }

  // ----- consensus layer -----

  /** digestAt gives the four bytes of the schedule's digest at an epoch. */
  ghost predicate DigestsOf(digestAt: int -> Hash4, name: CL.Digest -> Hash4, s: CL.Schedule) {
    forall e: nat :: CL.DigestAt(s, e).Some? ==> digestAt(e) == name(CL.DigestAt(s, e).value)
  }

  /** A row on the digest of the epoch before the target's that advertises the target. */
  predicate CLBefore(ev: R.Evidence, epoch: Uint64, version: Hash4, digestAt: int -> Hash4) {
    && ev.layer == "cl" && ev.forkHash == EncodeHex(digestAt(epoch - 1)) && ev.enrDigest == ev.forkHash
    && ev.enrNextEpoch == epoch && ev.enrNextVersion == EncodeHex(version)
  }

  predicate ListedAt(forks: seq<CL.Fork>, epoch: Uint64) {
    exists i :: 0 <= i < |forks| && forks[i].epoch == epoch
  }

  /** The transitions name every epoch at which the schedule changes. */
  predicate ListsChanges(s: CL.Schedule, forks: seq<CL.Fork>) {
    && (forall i :: 0 <= i < |s.forks| ==> ListedAt(forks, s.forks[i].epoch))
    && (forall i :: 0 <= i < |s.blobs| && s.blobs[i].epoch !in s.cancelledBPOs && s.blobs[i].epoch >= s.fulu ==>
          ListedAt(forks, s.blobs[i].epoch))
    && (s.fulu == MAX_UINT64 || s.fulu == 0 || ListedAt(forks, s.fulu))
  }

  /** Such a row is ready while the fork is scheduled. */
  lemma CLRowWhileScheduled(s: CL.Schedule, forks: seq<CL.Fork>, unix: int, k: nat, name: CL.Digest -> Hash4,
                            digestAt: int -> Hash4, t: R.ForkTarget, now: R.NetworkForks, ev: R.Evidence)
    requires CL.Ticks(s) && CL.Ordered(s) && ListsChanges(s, forks) && CLChosen(s, forks, unix, Scheduled(k))
    requires DigestsOf(digestAt, name, s) && t.cl == CLTargetOf(forks, Scheduled(k), digestAt)
    requires now.cl == Some(digestAt(CL.EpochAt(s, unix))) && CL.DigestAt(s, forks[k].epoch - 1).Some?
    requires CLBefore(ev, forks[k].epoch, forks[k].version, digestAt)
    ensures R.ReadinessAt(t, now, ev, unix) == Some(R.Ready)
  {
    SameNamedDigest(s, forks, CL.EpochAt(s, unix), k, name, digestAt);
    CLVerdict(t, now, digestAt(forks[k].epoch - 1), ev, unix);
  }

  lemma SameNamedDigest(s: CL.Schedule, forks: seq<CL.Fork>, at: nat, k: int, name: CL.Digest -> Hash4,
                        digestAt: int -> Hash4)
    requires CL.Ordered(s) && ListsChanges(s, forks) && CLIsNext(forks, at, k) && DigestsOf(digestAt, name, s)
    requires CL.DigestAt(s, forks[k].epoch - 1).Some?
    ensures digestAt(forks[k].epoch - 1) == digestAt(at)
  {
    SameDigestBefore(s, forks, at, k);
  }

  /** Once the fork has activated it is pending, unless it is still current. It is never stale. */
  lemma CLRowOnceActivated(s: CL.Schedule, forks: seq<CL.Fork>, unix: int, k: nat, digestAt: int -> Hash4,
                           t: R.ForkTarget, now: R.NetworkForks, ev: R.Evidence)
    requires CL.Ticks(s) && CLChosen(s, forks, unix, Activated(k)) && t.cl == CLTargetOf(forks, Activated(k), digestAt)
    requires CLBefore(ev, forks[k].epoch, forks[k].version, digestAt)
    ensures var current := R.RowForkCurrent("cl", now, ev.forkHash, ev.forkNext, unix);
            R.ReadinessAt(t, now, ev, unix) == Some(if current then R.Ready else R.Pending)
  {
    CLVerdict(t, now, digestAt(forks[k].epoch - 1), ev, unix);
  }

  lemma CLVerdict(t: R.ForkTarget, now: R.NetworkForks, d: Hash4, ev: R.Evidence, unix: int)
    requires t.cl.Some? && ev.layer == "cl" && ev.forkHash == t.cl.value.preDigest == ev.enrDigest == EncodeHex(d)
    requires ev.enrNextEpoch == t.cl.value.epoch && ev.enrNextVersion == t.cl.value.version
    ensures var cl := t.cl.value; var r := R.ReadinessAt(t, now, ev, unix);
            var current := R.RowForkCurrent("cl", now, ev.forkHash, ev.forkNext, unix);
            && (cl.phase.Scheduled? && now.cl == Some(d) ==> r == Some(R.Ready))
            && (cl.phase.Activated? ==> r == Some(if current then R.Ready else R.Pending))
  {
    EncodedParses(d);
    assert |EncodeHex(d)| == 8;
    CLRow(t.cl.value, ev, R.RowForkCurrent("cl", now, ev.forkHash, ev.forkNext, unix));
  }

  lemma CLRow(cl: R.CLTarget, ev: R.Evidence, current: bool)
    requires ev.forkHash == cl.preDigest == ev.enrDigest && ev.forkHash != ""
    requires ev.enrNextEpoch == cl.epoch && ev.enrNextVersion == cl.version
    ensures cl.phase.Scheduled? ==> R.CLReadiness(cl, ev, current) == if current then R.Ready else R.Stale
    ensures cl.phase.Activated? ==> R.CLReadiness(cl, ev, current) == if current then R.Ready else R.Pending
    ensures cl.phase.Cancelled? ==> R.CLReadiness(cl, ev, current) == R.NotReady
  {
  }

  lemma SameDigestBefore(s: CL.Schedule, forks: seq<CL.Fork>, at: nat, k: int)
    requires CL.Ordered(s) && ListsChanges(s, forks) && CLIsNext(forks, at, k)
    ensures CL.DigestAt(s, forks[k].epoch - 1) == CL.DigestAt(s, at)
  {
    var last := forks[k].epoch - 1;
    forall epoch: Uint64 | ListedAt(forks, epoch) ensures epoch <= at || epoch > last {
      var i :| 0 <= i < |forks| && forks[i].epoch == epoch;
      assert Ahead(forks[i], at) ==> forks[i].epoch >= forks[k].epoch;
    }
    forall i | 0 <= i < |s.forks| ensures s.forks[i].epoch <= at || s.forks[i].epoch > last {
      assert ListedAt(forks, s.forks[i].epoch);
    }
    if s.fulu <= at {
      forall i | 0 <= i < |s.blobs|
        ensures s.blobs[i].epoch in s.cancelledBPOs || s.blobs[i].epoch <= at || s.blobs[i].epoch > last {
        if s.blobs[i].epoch !in s.cancelledBPOs && s.blobs[i].epoch >= s.fulu {
          assert ListedAt(forks, s.blobs[i].epoch);
        }
      }
    }
    CL.DigestUnchanged(s, at, last);
  }

  /** A row on the digest recorded as the one before a cancelled fork that advertises the fork still runs it: it is not
      ready, current or not. */
  lemma CLRowBeforeCancelled(s: CL.Schedule, x: C.Cancellation, name: CL.Digest -> Hash4, digestAt: int -> Hash4,
                             version: Hash4, list: seq<CancelledCL>, c: Choice, onCL: seq<Hash4>, t: R.ForkTarget,
                             now: R.NetworkForks, ev: R.Evidence, unix: int)
    requires DigestsOf(digestAt, name, s) && x.cl.Some? && x.cl.value.epoch > 0
    requires CD.RecordedDigests(s, x).Some? && !c.Nothing? && c.index < |list|
    requires list[c.index] == CancelledCL(x.cl.value.epoch, version, name(CD.RecordedDigests(s, x).value.0))
    requires t.cl == CancelledCLOf(list, c, onCL) && CLBefore(ev, x.cl.value.epoch, version, digestAt)
    ensures R.ReadinessAt(t, now, ev, unix) == Some(R.NotReady)
  {
    assert CL.DigestAt(s, x.cl.value.epoch - 1) == Some(CD.RecordedDigests(s, x).value.0);
    EncodedParses(digestAt(x.cl.value.epoch - 1));
    CLRow(t.cl.value, ev, R.RowForkCurrent("cl", now, ev.forkHash, ev.forkNext, unix));
  }

  // ----- the transitions list every change -----

  /** A transition as the target choice reads it; its name plays no part there. */
  function AsFork(t: Transition): CL.Fork {
    if t.Regular? then t.fork else CL.Fork("BPO", t.bpo.epoch, t.bpo.version)
  }

  function AsForks(ts: seq<Transition>): seq<CL.Fork> {
    seq(|ts|, i requires 0 <= i < |ts| => AsFork(ts[i]))
  }

  lemma TransitionIsListed(c: CL.Schedule, ts: seq<Transition>, t: Transition)
    requires TransitionsOf(c) == Some(ts) && t in RegularOnes(c.forks) + NumberedOnes(BPOs(c).value)
    ensures ListedAt(AsForks(ts), AsFork(t).epoch)
  {
    var all := RegularOnes(c.forks) + NumberedOnes(BPOs(c).value);
    SortContent(ByKey(EpochOf), all);
    SameElements(ts, all);
    var i :| 0 <= i < |ts| && ts[i] == t;
    assert AsForks(ts)[i].epoch == AsFork(t).epoch;
  }

  /** The transitions are in the order the target choice relies on. */
  lemma TransitionsSorted(c: CL.Schedule, ts: seq<Transition>)
    requires TransitionsOf(c) == Some(ts)
    ensures Targets.Sorted(AsForks(ts))
  {
    EpochOrder();
    SortAscends(ByKey(EpochOf), RegularOnes(c.forks) + NumberedOnes(BPOs(c).value));
    forall i, j | 0 <= i < j < |ts| ensures AsForks(ts)[i].epoch <= AsForks(ts)[j].epoch {
      assert !ByKey(EpochOf)(ts[j], ts[i]);
      assert AsFork(ts[i]).epoch == EpochOf(ts[i]) && AsFork(ts[j]).epoch == EpochOf(ts[j]);
    }
  }

  /** The transitions of a schedule that covers Fulu name every epoch at which it changes. */
  lemma TransitionsListChanges(c: CL.Schedule, ts: seq<Transition>)
    requires CL.Ordered(c) && CL.FuluCovered(c) && TransitionsOf(c) == Some(ts)
    ensures ListsChanges(c, AsForks(ts))
  {
    var all := RegularOnes(c.forks) + NumberedOnes(BPOs(c).value);
    forall i | 0 <= i < |c.forks| ensures ListedAt(AsForks(ts), c.forks[i].epoch) {
      assert all[i] == Regular(c.forks[i]);
      TransitionIsListed(c, ts, Regular(c.forks[i]));
    }
    forall i | 0 <= i < |c.blobs| && c.blobs[i].epoch !in c.cancelledBPOs && c.blobs[i].epoch >= c.fulu
      ensures ListedAt(AsForks(ts), c.blobs[i].epoch) {
      BlobIsListed(c, ts, c.blobs[i]);
    }
  }

  lemma BlobIsListed(c: CL.Schedule, ts: seq<Transition>, b: CL.Blob)
    requires c.forks != [] && TransitionsOf(c) == Some(ts)
    requires b in c.blobs && b.epoch !in c.cancelledBPOs && b.epoch >= c.fulu
    ensures ListedAt(AsForks(ts), b.epoch)
  {
    var regular, numbered := RegularOnes(c.forks), NumberedOnes(BPOs(c).value);
    if C.RegularEpoch(c.forks, b.epoch) {
      var i :| 0 <= i < |c.forks| && c.forks[i].epoch == b.epoch;
      assert regular[i] == Regular(c.forks[i]);
      TransitionIsListed(c, ts, Regular(c.forks[i]));
    } else {
      CountedHas(c.blobs, c.forks, c.fulu, b);
      var x := NumberedHas(Counted(c.blobs, c.forks, c.fulu), c.cancelledBPOs, c.forks, 1, b);
      var i :| 0 <= i < |BPOs(c).value| && BPOs(c).value[i] == x;
      assert numbered[i] == Transition.Numbered(x);
      TransitionIsListed(c, ts, Transition.Numbered(x));
    }
  }
}
