/** Fork currency of a stored row and the readiness rule, as the Go code evaluates them. */
module Readiness {
  import opened Text

  const TIMESTAMP_THRESHOLD: nat := 1_438_269_973

  /** What one network's schedule says at the evaluation instant. cl is None without a consensus schedule. */
  datatype NetworkForks = NetworkForks(el: Hash4, cl: Option<Hash4>)

  datatype Phase = Scheduled | Activated | Cancelled

  datatype ELTarget = ELTarget(time: Uint64, phase: Phase, preHash: string, onCancelled: seq<string>)

  datatype CLTarget = CLTarget(epoch: Uint64, version: string, phase: Phase, preDigest: string,
                               onCancelled: seq<string>)

  datatype ForkTarget = ForkTarget(el: Option<ELTarget>, cl: Option<CLTarget>)

  datatype Readiness = Ready | Pending | NotReady | Mismatch | Unknown | Stale

  datatype Evidence = Evidence(
    layer: string, forkHash: string, forkNext: Uint64,
    enrDigest: string, enrNextVersion: string, enrNextEpoch: Uint64)

  // ----- currency -----

  /** Seconds since 1970, never negative. */
  function ClampUnix(unix: int): nat {
    if unix > 0 then unix else 0
  }

  function Max(a: int, b: int): int {
    if a > b then a else b
  }

  /** The Next values a row on the current hash may carry, as inclusive ranges. */
  function CurrentNextRanges(unix: int): seq<(nat, nat)> {
    [(0, 0),
     (FORK_HEAD_BLOCK + 1, TIMESTAMP_THRESHOLD),
     (Max(ClampUnix(unix), TIMESTAMP_THRESHOLD) + 1, MAX_UINT64)]
  }

  predicate NextAccepted(next: Uint64, unix: int) {
    exists i :: 0 <= i < |CurrentNextRanges(unix)| &&
                CurrentNextRanges(unix)[i].0 <= next <= CurrentNextRanges(unix)[i].1
  }

  /** A Next is accepted when it is absent, a block number above the head, or a time still to come. */
  lemma NextAcceptedExactly(next: Uint64, unix: int)
    ensures NextAccepted(next, unix) <==>
              next == 0 || FORK_HEAD_BLOCK < next <= TIMESTAMP_THRESHOLD || (next > TIMESTAMP_THRESHOLD && next > unix)
  {
    var ranges := CurrentNextRanges(unix);
    assert NextAccepted(next, unix) <==>
      ranges[0].0 <= next <= ranges[0].1 || ranges[1].0 <= next <= ranges[1].1 || ranges[2].0 <= next <= ranges[2].1;
  }

  /** An execution row is current exactly on the current hash with such a Next: never once its fork time has passed. */
  lemma ELCurrentExactly(forks: NetworkForks, forkHash: string, next: Uint64, unix: int)
    ensures RowForkCurrent("el", forks, forkHash, next, unix) <==>
              ParseHash4(forkHash) == Some(forks.el)
              && (next == 0 || FORK_HEAD_BLOCK < next <= TIMESTAMP_THRESHOLD
                  || (next > TIMESTAMP_THRESHOLD && next > unix))
    ensures TIMESTAMP_THRESHOLD < next <= unix ==> !RowForkCurrent("el", forks, forkHash, next, unix)
  {
    NextAcceptedExactly(next, unix);
  }

  predicate RowForkCurrent(layer: string, forks: NetworkForks, forkHash: string, forkNext: Uint64, unix: int) {
    if layer == "el" then ParseHash4(forkHash) == Some(forks.el) && NextAccepted(forkNext, unix)
    else layer == "cl" && forks.cl.Some? && ParseHash4(forkHash) == Some(forks.cl.value)
  }

  // ----- the readiness rule -----

  function CancelledReadiness(current: bool, affected: bool, readable: bool): Readiness {
    if affected then NotReady
    else if !current then Stale
    else if !readable then Unknown
    else Ready
  }

  function ActivatedReadiness(current: bool, forkHash: string, pre: string, readable: bool,
                              scheduled: bool): Readiness {
    if current then Ready
    else if !EqualFold(forkHash, pre) then Stale
    else if !readable then Unknown
    else if scheduled then Pending
    else NotReady
  }

  predicate ELAffected(el: ELTarget, ev: Evidence) {
    ContainsFold(el.onCancelled, ev.forkHash) || (EqualFold(ev.forkHash, el.preHash) && ev.forkNext == el.time)
  }

  predicate Advertises(cl: CLTarget, ev: Evidence) {
    ev.enrNextEpoch == cl.epoch && EqualFold(ev.enrNextVersion, cl.version)
  }

  predicate CLAffected(cl: CLTarget, ev: Evidence) {
    ContainsFold(cl.onCancelled, ev.forkHash) || (EqualFold(ev.enrDigest, cl.preDigest) && Advertises(cl, ev))
  }

  predicate ScheduleReadable(ev: Evidence) {
    ev.enrDigest != "" && EqualFold(ev.enrDigest, ev.forkHash)
  }

  function ELReadiness(el: ELTarget, ev: Evidence, current: bool): Readiness {
    match el.phase
    case Cancelled => CancelledReadiness(current, ELAffected(el, ev), true)
    case Activated => ActivatedReadiness(current, ev.forkHash, el.preHash, true, ev.forkNext == el.time)
    case Scheduled =>
      if !current then Stale
      else if ev.forkNext == el.time then Ready
      else if ev.forkNext == 0 then NotReady
      else Mismatch
  }

  function CLReadiness(cl: CLTarget, ev: Evidence, current: bool): Readiness {
    match cl.phase
    case Cancelled => CancelledReadiness(current, CLAffected(cl, ev), ScheduleReadable(ev))
    case Activated =>
      ActivatedReadiness(current, ev.forkHash, cl.preDigest, EqualFold(ev.enrDigest, cl.preDigest), Advertises(cl, ev))
    case Scheduled =>
      if !current then Stale
      else if !ScheduleReadable(ev) then Unknown
      else if Advertises(cl, ev) then Ready
      else if ev.enrNextEpoch == MAX_UINT64 then NotReady
      else Mismatch
  }

  /** The rule once the row's currency is known; None when the row's layer tracks no fork. */
  function ReadinessGiven(t: ForkTarget, ev: Evidence, current: bool): Option<Readiness> {
    if ev.layer == "el" && t.el.Some? then Some(ELReadiness(t.el.value, ev, current))
    else if ev.layer == "cl" && t.cl.Some? then Some(CLReadiness(t.cl.value, ev, current))
    else None
  }

  function ReadinessAt(t: ForkTarget, forks: NetworkForks, ev: Evidence, unix: int): Option<Readiness> {
    ReadinessGiven(t, ev, RowForkCurrent(ev.layer, forks, ev.forkHash, ev.forkNext, unix))
  }

  predicate LowerHex(s: string) {
    s != "" && ToLower(s) == s
  }

  /** What ForkTargetAt guarantees about a target, whatever the schedule. */
  predicate ValidTarget(t: ForkTarget) {
    (t.el.Some? ==> ValidEL(t.el.value)) && (t.cl.Some? ==> ValidCL(t.cl.value))
  }

  predicate ValidEL(el: ELTarget) {
    LowerHex(el.preHash) && (el.phase.Scheduled? ==> el.time > 0)
  }

  predicate ValidCL(cl: CLTarget) {
    LowerHex(cl.preDigest) && LowerHex(cl.version) && (cl.phase.Scheduled? ==> cl.epoch < MAX_UINT64)
  }
}
