/** Which fork each layer tracks: the next one scheduled, or the one activated within the grace period, or a cancelled
    one. */
module Targets {
  import opened Text
  import R = Readiness
  import EL = ElSchedule
  import CL = ClSchedule
  import Arithmetic

  /** Seconds a fork stays tracked after it activated: fourteen days. */
  const GRACE: int := 14 * 24 * 3600

  /** A tracked entry of a list, by index. */
  datatype Choice = Nothing | Scheduled(index: nat) | Activated(index: nat)

  // ----- execution layer -----

  predicate Upcoming(f: EL.Fork, genesis: Uint64, unix: int) {
    f.time > genesis && f.time > R.ClampUnix(unix)
  }

  predicate Passed(f: EL.Fork, genesis: Uint64, unix: int) {
    f.time > genesis && f.time <= R.ClampUnix(unix)
  }

  /** Forks after genesis are upcoming until their time and passed from then on. */
  lemma UpcomingExactly(f: EL.Fork, genesis: Uint64, unix: int)
    ensures Upcoming(f, genesis, unix) <==> f.time > genesis && unix < f.time
    ensures Passed(f, genesis, unix) <==> f.time > genesis && unix >= f.time
  {
  }

  /** The earliest upcoming fork; of several at one time, the last listed. */
  predicate IsNext(forks: seq<EL.Fork>, genesis: Uint64, unix: int, k: int) {
    && 0 <= k < |forks| && Upcoming(forks[k], genesis, unix)
    && forall j :: 0 <= j < |forks| && Upcoming(forks[j], genesis, unix) ==>
         forks[j].time > forks[k].time || (forks[j].time == forks[k].time && j <= k)
  }

  /** The latest passed fork; of several at one time, the last listed. */
  predicate IsLast(forks: seq<EL.Fork>, genesis: Uint64, unix: int, k: int) {
    && 0 <= k < |forks| && Passed(forks[k], genesis, unix)
    && forall j :: 0 <= j < |forks| && Passed(forks[j], genesis, unix) ==>
         forks[j].time < forks[k].time || (forks[j].time == forks[k].time && j <= k)
  }

  predicate NoneUpcoming(forks: seq<EL.Fork>, genesis: Uint64, unix: int) {
    forall j :: 0 <= j < |forks| ==> !Upcoming(forks[j], genesis, unix)
  }

  predicate NonePassed(forks: seq<EL.Fork>, genesis: Uint64, unix: int) {
    forall j :: 0 <= j < |forks| ==> !Passed(forks[j], genesis, unix)
  }

  predicate ELChosen(forks: seq<EL.Fork>, genesis: Uint64, unix: int, c: Choice) {
    match c
    case Scheduled(k) => IsNext(forks, genesis, unix, k)
    case Activated(k) =>
      NoneUpcoming(forks, genesis, unix) && IsLast(forks, genesis, unix, k) && unix - forks[k].time < GRACE
    case Nothing =>
      && NoneUpcoming(forks, genesis, unix)
      && forall k :: 0 <= k < |forks| && Passed(forks[k], genesis, unix) ==> unix - forks[k].time >= GRACE
  }

  method ELTargetAt(forks: seq<EL.Fork>, genesis: Uint64, unix: int) returns (c: Choice)
    ensures ELChosen(forks, genesis, unix, c)
  {
    var next, last := -1, -1;
    for i := 0 to |forks|
      invariant if next < 0 then NoneUpcoming(forks[..i], genesis, unix) else IsNext(forks[..i], genesis, unix, next)
      invariant if last < 0 then NonePassed(forks[..i], genesis, unix) else IsLast(forks[..i], genesis, unix, last)
    {
      var f := forks[i];
      assert forks[..i + 1] == forks[..i] + [f];
      if f.time <= genesis { continue; }
      if f.time > R.ClampUnix(unix) && (next < 0 || f.time <= forks[next].time) { next := i; }
      if f.time <= R.ClampUnix(unix) && (last < 0 || f.time >= forks[last].time) { last := i; }
    }
    assert forks[..|forks|] == forks;
    if next >= 0 { return Scheduled(next); }
    if last < 0 || unix - forks[last].time >= GRACE { return Nothing; }
    c := Activated(last);
  }

  /** After its activation a fork that was scheduled stays tracked, within the grace period, unless a later fork is
      scheduled or has passed; it never gives way to one at its own time. */
  lemma ELTargetAfterActivation(forks: seq<EL.Fork>, genesis: Uint64, before: int, after: int, k: nat, c: Choice)
    requires ELChosen(forks, genesis, before, Scheduled(k)) && forks[k].time <= after < forks[k].time + GRACE
    requires ELChosen(forks, genesis, after, c)
    ensures c.Scheduled? <==> !NoneUpcoming(forks, genesis, after)
    ensures !c.Nothing? && (c.Scheduled? ==> forks[c.index].time > after)
    ensures c.Activated? ==> c.index == k || forks[k].time < forks[c.index].time <= after
  {
    assert Passed(forks[k], genesis, after);
    if c.Activated? && forks[c.index].time == forks[k].time {
      assert Upcoming(forks[c.index], genesis, before);
    }
  }

  /** The choice is the only one. */
  lemma ELChosenOnce(forks: seq<EL.Fork>, genesis: Uint64, unix: int, c: Choice, d: Choice)
    requires ELChosen(forks, genesis, unix, c) && ELChosen(forks, genesis, unix, d)
    ensures c == d
  {
  }

  // ----- consensus layer -----

  predicate Sorted(forks: seq<CL.Fork>) {
    forall i, j :: 0 <= i < j < |forks| ==> forks[i].epoch <= forks[j].epoch
  }

  predicate Ahead(f: CL.Fork, epoch: nat) {
    epoch < f.epoch < MAX_UINT64
  }

  predicate CLIsNext(forks: seq<CL.Fork>, epoch: nat, k: int) {
    && 0 <= k < |forks| && Ahead(forks[k], epoch)
    && forall j :: 0 <= j < |forks| && Ahead(forks[j], epoch) ==>
         forks[j].epoch > forks[k].epoch || (forks[j].epoch == forks[k].epoch && j <= k)
  }

  predicate CLIsLast(forks: seq<CL.Fork>, epoch: nat, k: int) {
    && 0 <= k < |forks| && 0 < forks[k].epoch <= epoch
    && forall j :: k < j < |forks| ==> forks[j].epoch > epoch
  }

  predicate NoneAhead(forks: seq<CL.Fork>, epoch: nat) {
    forall j :: 0 <= j < |forks| ==> !Ahead(forks[j], epoch)
  }

  predicate CLChosen(s: CL.Schedule, forks: seq<CL.Fork>, unix: int, c: Choice)
    requires CL.Ticks(s)
  {
    var epoch := CL.EpochAt(s, unix);
    match c
    case Scheduled(k) => CLIsNext(forks, epoch, k)
    case Activated(k) =>
      NoneAhead(forks, epoch) && CLIsLast(forks, epoch, k) && unix - CL.TimeAtEpoch(s, forks[k].epoch) < GRACE
    case Nothing =>
      && NoneAhead(forks, epoch)
      && forall k :: 0 <= k < |forks| && CLIsLast(forks, epoch, k) ==> unix - CL.TimeAtEpoch(s, forks[k].epoch) >= GRACE
  }

  method CLTargetAt(s: CL.Schedule, forks: seq<CL.Fork>, unix: int) returns (c: Choice)
    requires CL.Ticks(s) && Sorted(forks)
    ensures CLChosen(s, forks, unix, c)
  {
    var epoch := CL.EpochAt(s, unix);
    var i := 0;
    while i < |forks| && !(forks[i].epoch > epoch && forks[i].epoch != MAX_UINT64)
      invariant 0 <= i <= |forks| && forall j :: 0 <= j < i ==> !Ahead(forks[j], epoch)
    {
      i := i + 1;
    }
    if i < |forks| {
      var chosen := i;
      while chosen + 1 < |forks| && forks[chosen + 1].epoch == forks[i].epoch
        invariant i <= chosen < |forks| && forks[chosen].epoch == forks[i].epoch
      {
        chosen := chosen + 1;
      }
      return Scheduled(chosen);
    }
    i := |forks|;
    while i > 0
      invariant 0 <= i <= |forks| && forall j :: i <= j < |forks| ==> forks[j].epoch == 0 || forks[j].epoch > epoch
    {
      i := i - 1;
      if forks[i].epoch == 0 || forks[i].epoch > epoch { continue; }
      c := if unix - CL.TimeAtEpoch(s, forks[i].epoch) < GRACE then Activated(i) else Nothing;
      LastUnique(forks, epoch, i);
      return;
    }
    c := Nothing;
  }

  lemma LastUnique(forks: seq<CL.Fork>, epoch: nat, i: nat)
    requires Sorted(forks) && i < |forks| && 0 < forks[i].epoch <= epoch
    requires forall j :: i < j < |forks| ==> forks[j].epoch == 0 || forks[j].epoch > epoch
    ensures CLIsLast(forks, epoch, i) && forall k :: 0 <= k < |forks| && CLIsLast(forks, epoch, k) ==> k == i
  {
    assert forall j :: i < j < |forks| ==> forks[j].epoch >= forks[i].epoch;
  }

  /** The last fork that has passed. */
  lemma LastPassed(forks: seq<CL.Fork>, epoch: nat, k: nat) returns (last: nat)
    requires Sorted(forks) && k < |forks| && 0 < forks[k].epoch <= epoch
    ensures k <= last < |forks| && CLIsLast(forks, epoch, last)
    decreases |forks| - k
  {
    if k + 1 < |forks| && forks[k + 1].epoch <= epoch {
      last := LastPassed(forks, epoch, k + 1);
    } else {
      last := k;
    }
  }

  lemma TimesFollowEpochs(s: CL.Schedule, a: Uint64, b: Uint64)
    requires CL.Ticks(s) && a <= b
    ensures CL.TimeAtEpoch(s, a) <= CL.TimeAtEpoch(s, b)
  {
    var seconds := CL.EpochSeconds(s).value;
    Arithmetic.Times(a, b, seconds);
    if s.genesis <= MAX_INT64 { CL.DivisionBound(MAX_INT64 - s.genesis, seconds, b); }
  }

  /** The same for the consensus layer, where a fork activates with its epoch. */
  lemma CLTargetAfterActivation(s: CL.Schedule, forks: seq<CL.Fork>, before: int, after: int, k: nat, c: Choice)
    requires CL.Ticks(s) && Sorted(forks) && CLChosen(s, forks, before, Scheduled(k)) && CLChosen(s, forks, after, c)
    requires CL.EpochAt(s, after) >= forks[k].epoch && after - CL.TimeAtEpoch(s, forks[k].epoch) < GRACE
    ensures c.Scheduled? <==> !NoneAhead(forks, CL.EpochAt(s, after))
    ensures !c.Nothing? && (c.Scheduled? ==> forks[c.index].epoch > CL.EpochAt(s, after))
    ensures c.Activated? ==> c.index == k || forks[k].epoch < forks[c.index].epoch <= CL.EpochAt(s, after)
  {
    var epoch := CL.EpochAt(s, after);
    var last := LastPassed(forks, epoch, k);
    TimesFollowEpochs(s, forks[k].epoch, forks[last].epoch);
    if c.Activated? {
      assert c.index == last;
      assert forks[last].epoch == forks[k].epoch ==> Ahead(forks[last], CL.EpochAt(s, before));
    }
  }

  lemma CLChosenOnce(s: CL.Schedule, forks: seq<CL.Fork>, unix: int, c: Choice, d: Choice)
    requires CL.Ticks(s) && CLChosen(s, forks, unix, c) && CLChosen(s, forks, unix, d)
    ensures c == d
  {
  }

  // ----- cancelled forks -----

  /** A cancellation on one layer: whether it touches the layer, and the instant it would have activated. */
  datatype Would = Would(has: bool, instant: int)

  predicate Tracked(w: Would, unix: int) {
    w.has && unix - w.instant < GRACE
  }

  /** The next upcoming cancelled fork of the layer, or else the latest within grace. */
  predicate CancelledChosen(list: seq<Would>, unix: int, c: Choice) {
    match c
    case Scheduled(k) =>
      && k < |list| && Tracked(list[k], unix) && list[k].instant > unix
      && forall j :: 0 <= j < |list| && Tracked(list[j], unix) && list[j].instant > unix ==>
                     list[j].instant >= list[k].instant
    case Activated(k) =>
      && k < |list| && Tracked(list[k], unix)
      && forall j :: 0 <= j < |list| && Tracked(list[j], unix) ==> list[j].instant <= list[k].instant <= unix
    case Nothing => forall j :: 0 <= j < |list| ==> !Tracked(list[j], unix)
  }

  method PickCancelled(list: seq<Would>, unix: int) returns (c: Choice)
    requires forall i, j :: 0 <= i < j < |list| ==> list[i].instant <= list[j].instant
    ensures CancelledChosen(list, unix, c)
  {
    c := Nothing;
    for i := 0 to |list|
      invariant !c.Scheduled?
      invariant c.Nothing? ==> forall j :: 0 <= j < i ==> !Tracked(list[j], unix)
      invariant c.Activated? ==> (
          && c.index < i && Tracked(list[c.index], unix)
          && forall j :: 0 <= j < i && Tracked(list[j], unix) ==> list[j].instant <= list[c.index].instant <= unix)
      invariant forall j :: 0 <= j < i && Tracked(list[j], unix) ==> list[j].instant <= unix
    {
      if !list[i].has || unix - list[i].instant >= GRACE { continue; }
      if list[i].instant > unix { return Scheduled(i); }
      c := Activated(i);
    }
  }

  // ----- one upgrade per view -----

  /** A layer's target as the view sees it: its instant, and whether it has activated. */
  datatype Layer = Layer(instant: int, activated: bool)

  /** Which layers ForkTargetAt keeps. */
  function Kept(el: Option<Layer>, cl: Option<Layer>): (Option<Layer>, Option<Layer>) {
    if el.None? || cl.None? || cl.value.instant == el.value.instant then (el, cl)
    else
      var elFirst := el.value.instant < cl.value.instant;
      if (!el.value.activated && (cl.value.activated || elFirst))
         || (el.value.activated && cl.value.activated && !elFirst)
      then (el, None) else (None, cl)
  }

  /** A layer is better tracked than another: scheduled before activated, then sooner, then more recent. */
  predicate Better(a: Layer, b: Layer) {
    if a.activated != b.activated then b.activated
    else if a.activated then a.instant > b.instant else a.instant < b.instant
  }

  /** The kept layers share one instant, something is kept whenever something was tracked, and a layer is dropped only
      for a better one. */
  lemma OneUpgradePerView(el: Option<Layer>, cl: Option<Layer>)
    ensures var k := Kept(el, cl);
            && (k.0.Some? && k.1.Some? ==> k.0.value.instant == k.1.value.instant)
            && (k.0.None? && k.1.None? <==> el.None? && cl.None?)
            && (k.0.None? && el.Some? ==> k.1 == cl && cl.Some? && Better(cl.value, el.value))
            && (k.1.None? && cl.Some? ==> k.0 == el && el.Some? && Better(el.value, cl.value))
  {
  }

  // ----- the targets the readiness rule is given -----

  /** The target of a chosen execution fork; hashAt gives the fork hash of an instant. */
  function ELTargetOf(forks: seq<EL.Fork>, c: Choice, hashAt: int -> Hash4): Option<R.ELTarget>
    requires !c.Nothing? ==> c.index < |forks|
  {
    match c
    case Nothing => None
    case Scheduled(k) => Some(R.ELTarget(forks[k].time, R.Scheduled, EncodeHex(hashAt(forks[k].time - 1)), []))
    case Activated(k) => Some(R.ELTarget(forks[k].time, R.Activated, EncodeHex(hashAt(forks[k].time - 1)), []))
  }

  function CLTargetOf(forks: seq<CL.Fork>, c: Choice, digestAt: int -> Hash4): Option<R.CLTarget>
    requires !c.Nothing? ==> c.index < |forks|
  {
    match c
    case Nothing => None
    case Scheduled(k) =>
      Some(R.CLTarget(forks[k].epoch, EncodeHex(forks[k].version), R.Scheduled,
                      EncodeHex(digestAt(forks[k].epoch - 1)), []))
    case Activated(k) =>
      Some(R.CLTarget(forks[k].epoch, EncodeHex(forks[k].version), R.Activated,
                      EncodeHex(digestAt(forks[k].epoch - 1)), []))
  }

  /** What a cancelled fork is tracked with. */
  datatype CancelledEL = CancelledEL(time: Uint64, preHash: Hash4)

  datatype CancelledCL = CancelledCL(epoch: Uint64, version: Hash4, preDigest: Hash4)

  function Hexes(hashes: seq<Hash4>): seq<string> {
    seq(|hashes|, i requires 0 <= i < |hashes| => EncodeHex(hashes[i]))
  }

  function CancelledELOf(list: seq<CancelledEL>, c: Choice, onCancelled: seq<Hash4>): Option<R.ELTarget>
    requires !c.Nothing? ==> c.index < |list|
  {
    if c.Nothing? then None
    else Some(R.ELTarget(list[c.index].time, R.Cancelled, EncodeHex(list[c.index].preHash), Hexes(onCancelled)))
  }

  function CancelledCLOf(list: seq<CancelledCL>, c: Choice, onCancelled: seq<Hash4>): Option<R.CLTarget>
    requires !c.Nothing? ==> c.index < |list|
  {
    if c.Nothing? then None
    else
      var x := list[c.index];
      Some(R.CLTarget(x.epoch, EncodeHex(x.version), R.Cancelled, EncodeHex(x.preDigest), Hexes(onCancelled)))
  }

  /** cancelledTargetsAt: a tracked cancellation takes its layer's place, unless a real fork is scheduled no later. */
  function WithCancelled(t: R.ForkTarget, el: Option<R.ELTarget>, cl: Option<R.CLTarget>): R.ForkTarget {
    R.ForkTarget(
      if el.Some? && (t.el.None? || !t.el.value.phase.Scheduled? || t.el.value.time > el.value.time) then el else t.el,
      if cl.Some? && (t.cl.None? || !t.cl.value.phase.Scheduled? || t.cl.value.epoch > cl.value.epoch) then cl
      else t.cl)
  }

  lemma HexIsLower(h: Hash4)
    ensures R.LowerHex(EncodeHex(h))
  {
    EncodedIsUndecorated(h);
  }

  lemma ELIsValid(forks: seq<EL.Fork>, genesis: Uint64, unix: int, c: Choice, hashAt: int -> Hash4)
    requires ELChosen(forks, genesis, unix, c)
    ensures var t := ELTargetOf(forks, c, hashAt); t.Some? ==> R.ValidEL(t.value)
  {
    if !c.Nothing? { HexIsLower(hashAt(forks[c.index].time - 1)); }
  }

  lemma CLIsValid(s: CL.Schedule, forks: seq<CL.Fork>, unix: int, c: Choice, digestAt: int -> Hash4)
    requires CL.Ticks(s) && CLChosen(s, forks, unix, c)
    ensures var t := CLTargetOf(forks, c, digestAt); t.Some? ==> R.ValidCL(t.value)
  {
    if !c.Nothing? {
      HexIsLower(digestAt(forks[c.index].epoch - 1));
      HexIsLower(forks[c.index].version);
    }
  }

  lemma CancelledELIsValid(list: seq<CancelledEL>, c: Choice, onCancelled: seq<Hash4>)
    requires !c.Nothing? ==> c.index < |list|
    ensures var t := CancelledELOf(list, c, onCancelled); t.Some? ==> R.ValidEL(t.value)
  {
    if !c.Nothing? { HexIsLower(list[c.index].preHash); }
  }

  lemma CancelledCLIsValid(list: seq<CancelledCL>, c: Choice, onCancelled: seq<Hash4>)
    requires !c.Nothing? ==> c.index < |list|
    ensures var t := CancelledCLOf(list, c, onCancelled); t.Some? ==> R.ValidCL(t.value)
  {
    if !c.Nothing? {
      HexIsLower(list[c.index].preDigest);
      HexIsLower(list[c.index].version);
    }
  }

  /** Every layer's target, real or cancelled, meets what the two readiness rules rely on. */
  lemma ChosenTargetsAreValid(elForks: seq<EL.Fork>, genesis: Uint64, s: CL.Schedule, clForks: seq<CL.Fork>, unix: int,
                              e: Choice, c: Choice, hashAt: int -> Hash4, digestAt: int -> Hash4,
                              elList: seq<CancelledEL>, ec: Choice, clList: seq<CancelledCL>, cc: Choice,
                              onEL: seq<Hash4>, onCL: seq<Hash4>)
    requires CL.Ticks(s) && ELChosen(elForks, genesis, unix, e) && CLChosen(s, clForks, unix, c)
    requires (!ec.Nothing? ==> ec.index < |elList|) && (!cc.Nothing? ==> cc.index < |clList|)
    ensures var scheduled := R.ForkTarget(ELTargetOf(elForks, e, hashAt), CLTargetOf(clForks, c, digestAt));
            R.ValidTarget(WithCancelled(scheduled, CancelledELOf(elList, ec, onEL), CancelledCLOf(clList, cc, onCL)))
  {
    ELIsValid(elForks, genesis, unix, e, hashAt);
    CLIsValid(s, clForks, unix, c, digestAt);
    CancelledELIsValid(elList, ec, onEL);
    CancelledCLIsValid(clList, cc, onCL);
  }

  /** The instants at which the cancelled forks of a layer would have activated. */
  predicate WouldEL(woulds: seq<Would>, list: seq<CancelledEL>) {
    |woulds| == |list| && forall i :: 0 <= i < |list| ==> woulds[i].has ==> woulds[i].instant == list[i].time
  }

  predicate WouldCL(s: CL.Schedule, woulds: seq<Would>, list: seq<CancelledCL>)
    requires CL.Ticks(s)
  {
    && |woulds| == |list|
    && forall i :: 0 <= i < |list| ==> woulds[i].has ==> woulds[i].instant == CL.TimeAtEpoch(s, list[i].epoch)
  }

  /** Of all the upcoming execution forks, real and cancelled, none is sooner than the one tracked, and nothing is
      tracked only when there is nothing to track. */
  lemma SoonestELIsTracked(forks: seq<EL.Fork>, genesis: Uint64, unix: int, e: Choice, hashAt: int -> Hash4,
                           woulds: seq<Would>, list: seq<CancelledEL>, c: Choice, onEL: seq<Hash4>,
                           t: R.ForkTarget, cl: Option<R.CLTarget>)
    requires ELChosen(forks, genesis, unix, e) && t.el == ELTargetOf(forks, e, hashAt)
    requires WouldEL(woulds, list) && CancelledChosen(woulds, unix, c)
    ensures var el := WithCancelled(t, CancelledELOf(list, c, onEL), cl).el;
            && (forall j :: 0 <= j < |forks| && Upcoming(forks[j], genesis, unix) ==>
                  el.Some? && el.value.time <= forks[j].time)
            && (forall j :: 0 <= j < |woulds| && Tracked(woulds[j], unix) && woulds[j].instant > unix ==>
                  el.Some? && el.value.time <= woulds[j].instant)
            && (el.None? ==> e.Nothing? && forall j :: 0 <= j < |woulds| ==> !Tracked(woulds[j], unix))
            && (e.Scheduled? && !c.Nothing? ==>
                  el == if list[c.index].time < forks[e.index].time then CancelledELOf(list, c, onEL) else t.el)
  {
    if !c.Nothing? { assert woulds[c.index].has; }
  }

  /** The same for the consensus layer, where the cancelled ones are compared by the instants of their epochs. */
  lemma SoonestCLIsTracked(s: CL.Schedule, forks: seq<CL.Fork>, unix: int, e: Choice, digestAt: int -> Hash4,
                           woulds: seq<Would>, list: seq<CancelledCL>, c: Choice, onCL: seq<Hash4>,
                           t: R.ForkTarget, el: Option<R.ELTarget>)
    requires CL.Ticks(s) && CLChosen(s, forks, unix, e) && t.cl == CLTargetOf(forks, e, digestAt)
    requires WouldCL(s, woulds, list) && CancelledChosen(woulds, unix, c)
    ensures var cl := WithCancelled(t, el, CancelledCLOf(list, c, onCL)).cl;
            && (forall j :: 0 <= j < |forks| && Ahead(forks[j], CL.EpochAt(s, unix)) ==>
                  cl.Some? && cl.value.epoch <= forks[j].epoch)
            && (forall j :: 0 <= j < |woulds| && Tracked(woulds[j], unix) && woulds[j].instant > unix ==>
                  cl.Some? && CL.TimeAtEpoch(s, cl.value.epoch) <= woulds[j].instant)
            && (cl.None? ==> e.Nothing? && forall j :: 0 <= j < |woulds| ==> !Tracked(woulds[j], unix))
            && (e.Scheduled? && !c.Nothing? ==>
                  cl == if list[c.index].epoch < forks[e.index].epoch then CancelledCLOf(list, c, onCL) else t.cl)
  {
    if !c.Nothing? {
      assert woulds[c.index].has;
      if e.Scheduled? && forks[e.index].epoch <= list[c.index].epoch {
        TimesFollowEpochs(s, forks[e.index].epoch, list[c.index].epoch);
      }
    }
  }
}
