/** Blob-parameter forks are named by position: cancelling some leaves the names of the others alone. */
module BpoNames {
  import opened Text
  import CL = ClSchedule
  import opened Cancel
  import opened Heap
  import opened Sorting

  // ----- blob-parameter forks and their numbers -----

  /** The fork named BPO<number>; it keeps the version active at its epoch. */
  datatype BPO = BPO(number: nat, epoch: Uint64, version: Hash4)

  /** Blob entries that are forks of their own, live or cancelled. */
  function Counted(blobs: seq<CL.Blob>, forks: seq<CL.Fork>, fulu: Uint64): seq<CL.Blob> {
    if blobs == [] then []
    else (if blobs[0].epoch < fulu || RegularEpoch(forks, blobs[0].epoch) then [] else [blobs[0]])
         + Counted(blobs[1..], forks, fulu)
  }

  /** The blob-parameter forks among counted entries, the first of which has number n. */
  function Numbered(counted: seq<CL.Blob>, cancelled: set<Uint64>, forks: seq<CL.Fork>, n: nat): seq<BPO>
    requires forks != []
  {
    if counted == [] then []
    else (if counted[0].epoch in cancelled then []
          else [BPO(n, counted[0].epoch, CL.ForkScan(forks[0], forks[1..], counted[0].epoch).version)])
         + Numbered(counted[1..], cancelled, forks, n + 1)
  }

  function BPOs(c: CL.Schedule): Option<seq<BPO>> {
    var counted := Counted(c.blobs, c.forks, c.fulu);
    if c.forks == [] then (if counted == [] then Some([]) else None)
    else Some(Numbered(counted, c.cancelledBPOs, c.forks, 1))
  }

  /** What is still to be appended after the first i entries, n of them counted. */
  predicate Pending(c: CL.Schedule, out: seq<BPO>, i: nat, n: nat)
    requires c.forks != []
  {
    i <= |c.blobs|
    && BPOs(c) == Some(out + Numbered(Counted(c.blobs[i..], c.forks, c.fulu), c.cancelledBPOs, c.forks, n + 1))
  }

  lemma NumberedNext(b: CL.Blob, rest: seq<CL.Blob>, cancelled: set<Uint64>, forks: seq<CL.Fork>, n: nat)
    requires forks != []
    ensures var later := Numbered(rest, cancelled, forks, n + 1);
            Numbered([b] + rest, cancelled, forks, n) ==
            if b.epoch in cancelled then later
            else [BPO(n, b.epoch, CL.ForkScan(forks[0], forks[1..], b.epoch).version)] + later
  {
    assert ([b] + rest)[1..] == rest;
  }

  lemma Outstanding(out: seq<BPO>, x: BPO, later: seq<BPO>)
    ensures out + ([x] + later) == out + [x] + later
  {
  }

  lemma PendingNext(c: CL.Schedule, out: seq<BPO>, i: nat, n: nat)
    requires c.forks != [] && i < |c.blobs| && Pending(c, out, i, n)
    ensures var b := c.blobs[i];
            if b.epoch < c.fulu || RegularEpoch(c.forks, b.epoch) then Pending(c, out, i + 1, n)
            else if b.epoch in c.cancelledBPOs then Pending(c, out, i + 1, n + 1)
            else Pending(c, out + [BPO(n + 1, b.epoch, CL.ForkAt(c, b.epoch).value.version)], i + 1, n + 1)
  {
    CountedNext(c, i);
    var b := c.blobs[i];
    var rest := Counted(c.blobs[i + 1..], c.forks, c.fulu);
    assert [] + rest == rest;
    NumberedNext(b, rest, c.cancelledBPOs, c.forks, n + 1);
    Outstanding(out, BPO(n + 1, b.epoch, CL.ForkAt(c, b.epoch).value.version),
                Numbered(rest, c.cancelledBPOs, c.forks, n + 2));
  }

  lemma {:induction false} CountedHas(blobs: seq<CL.Blob>, forks: seq<CL.Fork>, fulu: Uint64, b: CL.Blob)
    requires b in blobs && b.epoch >= fulu && !RegularEpoch(forks, b.epoch)
    ensures b in Counted(blobs, forks, fulu)
  {
    if b != blobs[0] { CountedHas(blobs[1..], forks, fulu, b); }
  }

  lemma {:induction false} NumberedHas(counted: seq<CL.Blob>, cancelled: set<Uint64>, forks: seq<CL.Fork>, n: nat,
                                       b: CL.Blob) returns (x: BPO)
    requires forks != [] && b in counted && b.epoch !in cancelled
    ensures x in Numbered(counted, cancelled, forks, n) && x.epoch == b.epoch
  {
    if b == counted[0] {
      x := Numbered(counted, cancelled, forks, n)[0];
    } else {
      x := NumberedHas(counted[1..], cancelled, forks, n + 1, b);
    }
  }

  // ----- regular forks and blob-parameter forks in one list -----

  /** A regular fork keeps its name; a blob-parameter fork is named by its number. */
  datatype Transition = Regular(fork: CL.Fork) | Numbered(bpo: BPO)

  function EpochOf(t: Transition): int {
    if t.Regular? then t.fork.epoch else t.bpo.epoch
  }

  function RegularOnes(forks: seq<CL.Fork>): seq<Transition> {
    seq(|forks|, i requires 0 <= i < |forks| => Regular(forks[i]))
  }

  function NumberedOnes(bpos: seq<BPO>): seq<Transition> {
    seq(|bpos|, i requires 0 <= i < |bpos| => Transition.Numbered(bpos[i]))
  }

  /** transitions; None where the source reports an error. */
  function TransitionsOf(c: CL.Schedule): Option<seq<Transition>> {
    var bpos := BPOs(c);
    if bpos.None? then None else Some(Sort(ByKey(EpochOf), RegularOnes(c.forks) + NumberedOnes(bpos.value)))
  }

  method Transitions(c: CL.Schedule) returns (r: Option<seq<Transition>>)
    ensures r == TransitionsOf(c)
    ensures r.Some? ==> forall i, j :: 0 <= i < j < |r.value| ==> EpochOf(r.value[i]) <= EpochOf(r.value[j])
    ensures r.Some? ==> multiset(r.value) == multiset(RegularOnes(c.forks)) + multiset(NumberedOnes(BPOs(c).value))
  {
    var bpos := BlobTransitions(c);
    if bpos.None? { return None; }
    var all := RegularOnes(c.forks) + NumberedOnes(bpos.value);
    SortContent(ByKey(EpochOf), all);
    EpochOrder();
    SortAscends(ByKey(EpochOf), all);
    r := Some(Sort(ByKey(EpochOf), all));
    forall i, j | 0 <= i < j < |r.value| ensures EpochOf(r.value[i]) <= EpochOf(r.value[j]) {
      assert !ByKey(EpochOf)(r.value[j], r.value[i]);
    }
  }

  lemma EpochOrder()
    ensures WeakOrder(ByKey(EpochOf))
  {
  }

  /** The blob half of transitions: cancelled forks are skipped, but numbered. */
  method BlobTransitions(c: CL.Schedule) returns (r: Option<seq<BPO>>)
    ensures r == BPOs(c)
  {
    var out: seq<BPO>, n := [], 0;
    assert c.blobs[0..] == c.blobs;
    assert c.forks != [] ==> Pending(c, out, 0, n) by {
      if c.forks != [] { assert BPOs(c).value == [] + BPOs(c).value; }
    }
    for i := 0 to |c.blobs|
      invariant c.forks == [] ==> Counted(c.blobs, c.forks, c.fulu) == Counted(c.blobs[i..], c.forks, c.fulu)
      invariant c.forks != [] ==> Pending(c, out, i, n)
      invariant c.forks == [] ==> out == []
    {
      var b := c.blobs[i];
      CountedNext(c, i);
      if c.forks != [] { PendingNext(c, out, i, n); }
      if b.epoch < c.fulu || RegularEpoch(c.forks, b.epoch) { continue; }
      var fork := CL.ForkAtLoop(c, b.epoch);
      if fork.None? { return None; }
      n := n + 1;
      if b.epoch in c.cancelledBPOs { continue; }
      out := out + [BPO(n, b.epoch, fork.value.version)];
    }
    assert out + [] == out;
    r := Some(out);
  }

  lemma CountedNext(c: CL.Schedule, i: nat)
    requires i < |c.blobs|
    ensures Counted(c.blobs[i..], c.forks, c.fulu) ==
            (if c.blobs[i].epoch < c.fulu || RegularEpoch(c.forks, c.blobs[i].epoch) then [] else [c.blobs[i]])
            + Counted(c.blobs[i + 1..], c.forks, c.fulu)
  {
    assert c.blobs[i..][1..] == c.blobs[i + 1..];
  }

  predicate Has(all: seq<BPO>, number: nat, epoch: Uint64) {
    exists b :: b in all && b.number == number && b.epoch == epoch
  }

  predicate Named(c: CL.Schedule, number: nat, epoch: Uint64) {
    BPOs(c).Some? && Has(BPOs(c).value, number, epoch)
  }

  /** A cancellation entry that calls off the compiled blob-parameter fork at an epoch. */
  predicate CallsOff(k: Compiled, f: CancelledFork, epoch: Uint64) {
    f.cl.Some? && IsBPO(f.cl.value.name) && f.cl.value.epoch == epoch && HasBPO(k.cl, epoch)
  }

  lemma {:induction false} NumberedExactly(counted: seq<CL.Blob>, cancelled: set<Uint64>, forks: seq<CL.Fork>, n: nat,
                                           number: nat, epoch: Uint64)
    requires forks != []
    ensures Has(Numbered(counted, cancelled, forks, n), number, epoch)
            <==> (n <= number < n + |counted| && counted[number - n].epoch == epoch && epoch !in cancelled)
  {
    if counted != [] {
      NumberedExactly(counted[1..], cancelled, forks, n + 1, number, epoch);
      var all, rest := Numbered(counted, cancelled, forks, n), Numbered(counted[1..], cancelled, forks, n + 1);
      assert Has(all, number, epoch) <==>
        Has(rest, number, epoch) || (number == n && counted[0].epoch == epoch && epoch !in cancelled) by {
        assert forall b :: b in all <==> b in rest || (b in all[..|all| - |rest|]);
        if counted[0].epoch !in cancelled { assert all[0].number == n && all[0] in all && all[1..] == rest; }
      }
    }
  }

  lemma NamedExactly(c: CL.Schedule, number: nat, epoch: Uint64)
    requires c.forks != []
    ensures var counted := Counted(c.blobs, c.forks, c.fulu);
            Named(c, number, epoch)
            <==> (1 <= number <= |counted| && counted[number - 1].epoch == epoch && epoch !in c.cancelledBPOs)
  {
    NumberedExactly(Counted(c.blobs, c.forks, c.fulu), c.cancelledBPOs, c.forks, 1, number, epoch);
  }

  lemma {:induction false} StillRegular(forks: seq<CL.Fork>, name: string, epoch: Uint64)
    requires ForkNamed(forks, name).Some?
    ensures ForkNamed(forks, name).value in forks
    ensures epoch != ForkNamed(forks, name).value.epoch ==>
        (RegularEpoch(WithoutFork(forks, name), epoch) <==> RegularEpoch(forks, epoch))
  {
    if !EqualFold(forks[0].name, name) {
      StillRegular(forks[1..], name, epoch);
      var w := WithoutFork(forks[1..], name);
      assert ([forks[0]] + w)[1..] == w;
      RegularTail([forks[0]] + w, epoch);
    }
    RegularTail(forks, epoch);
  }

  lemma RegularTail(forks: seq<CL.Fork>, epoch: Uint64)
    requires forks != []
    ensures RegularEpoch(forks, epoch) <==> forks[0].epoch == epoch || RegularEpoch(forks[1..], epoch)
  {
    if RegularEpoch(forks[1..], epoch) {
      var i :| 0 <= i < |forks[1..]| && forks[1..][i].epoch == epoch;
      assert forks[i + 1].epoch == epoch;
    }
    if RegularEpoch(forks, epoch) && forks[0].epoch != epoch {
      var i :| 0 <= i < |forks| && forks[i].epoch == epoch;
      assert forks[1..][i - 1].epoch == epoch;
    }
  }

  lemma {:induction false} CountedKept(blobs: seq<CL.Blob>, forks: seq<CL.Fork>, fulu: Uint64, name: string)
    requires ForkNamed(forks, name).Some?
    ensures Counted(BlobsNotAt(blobs, {ForkNamed(forks, name).value.epoch}), WithoutFork(forks, name), fulu)
            == Counted(blobs, forks, fulu)
  {
    if blobs != [] {
      var e, left := ForkNamed(forks, name).value.epoch, WithoutFork(forks, name);
      var rest := BlobsNotAt(blobs[1..], {e});
      CountedKept(blobs[1..], forks, fulu, name);
      StillRegular(forks, name, blobs[0].epoch);
      assert [] + rest == rest && ([blobs[0]] + rest)[1..] == rest;
      assert [] + Counted(rest, left, fulu) == Counted(rest, left, fulu);
    }
  }

  /** One cancellation leaves the numbering of the whole blob schedule alone, and calls off at most its own fork. */
  lemma OneKeepsNumbering(k: Compiled, c: CL.Schedule, f: CancelledFork)
    requires CL.Ticks(k.cl) && CancelOne(k, c, f).Some?
    ensures var t := CancelOne(k, c, f).value.0;
            && t.fulu == c.fulu && Counted(t.blobs, t.forks, t.fulu) == Counted(c.blobs, c.forks, c.fulu)
            && forall e :: e in t.cancelledBPOs <==> e in c.cancelledBPOs || CallsOff(k, f, e)
  {
    if f.cl.Some? && !IsBPO(f.cl.value.name) && ForkNamed(c.forks, f.cl.value.name).Some? {
      CountedKept(c.blobs, c.forks, c.fulu, f.cl.value.name);
    }
  }

  predicate SomeCallsOff(k: Compiled, list: seq<CancelledFork>, epoch: Uint64) {
    exists i :: 0 <= i < |list| && CallsOff(k, list[i], epoch)
  }

  lemma CallsOffSnoc(k: Compiled, list: seq<CancelledFork>, epoch: Uint64)
    requires list != []
    ensures SomeCallsOff(k, list, epoch) <==>
            SomeCallsOff(k, list[..|list| - 1], epoch) || CallsOff(k, list[|list| - 1], epoch)
  {
    var front := list[..|list| - 1];
    assert forall i :: 0 <= i < |front| ==> front[i] == list[i];
  }

  /** Cancelling leaves the numbering of the whole blob schedule alone. */
  lemma {:induction false} ApplyKeepsNumbering(k: Compiled, list: seq<CancelledFork>)
    requires CL.Ticks(k.cl) && Apply(k, list).Some?
    ensures var c := Apply(k, list).value.cl;
            && c.fulu == k.cl.fulu && Counted(c.blobs, c.forks, c.fulu) == Counted(k.cl.blobs, k.cl.forks, k.cl.fulu)
            && forall e :: e in c.cancelledBPOs <==> e in k.cl.cancelledBPOs || SomeCallsOff(k, list, e)
    decreases |list|
  {
    if list != [] {
      var front, f := list[..|list| - 1], list[|list| - 1];
      ApplyKeepsNumbering(k, front);
      OneKeepsNumbering(k, Apply(k, front).value.cl, f);
      forall e: Uint64 ensures SomeCallsOff(k, list, e) <==> SomeCallsOff(k, front, e) || CallsOff(k, f, e) {
        CallsOffSnoc(k, list, e);
      }
    }
  }

  lemma OneKeepsGenesis(k: Compiled, c: CL.Schedule, f: CancelledFork)
    requires CL.Ticks(k.cl) && CancelOne(k, c, f).Some? && RegularEpoch(c.forks, 0)
    ensures RegularEpoch(CancelOne(k, c, f).value.0.forks, 0)
  {
    if f.cl.Some? && !IsBPO(f.cl.value.name) && ForkNamed(c.forks, f.cl.value.name).Some? {
      StillRegular(c.forks, f.cl.value.name, 0);
    }
  }

  /** No entry is accepted for epoch 0, so a fork from genesis stays. */
  lemma {:induction false} GenesisStays(k: Compiled, list: seq<CancelledFork>)
    requires CL.Ticks(k.cl) && Apply(k, list).Some? && RegularEpoch(k.cl.forks, 0)
    ensures RegularEpoch(Apply(k, list).value.cl.forks, 0)
    decreases |list|
  {
    if list != [] {
      var front := list[..|list| - 1];
      GenesisStays(k, front);
      OneKeepsGenesis(k, Apply(k, front).value.cl, list[|list| - 1]);
    }
  }

  /** After any accepted list of cancellations, exactly the compiled blob-parameter forks that no entry calls off
      remain, under the number they were compiled with. */
  lemma SurvivorsKeepTheirNames(k: Compiled, list: seq<CancelledFork>, number: nat, epoch: Uint64)
    requires CL.Ticks(k.cl) && RegularEpoch(k.cl.forks, 0) && Apply(k, list).Some?
    ensures Named(Apply(k, list).value.cl, number, epoch)
            <==> (Named(k.cl, number, epoch) && !SomeCallsOff(k, list, epoch))
  {
    GenesisStays(k, list);
    ApplyKeepsNumbering(k, list);
    NamedExactly(k.cl, number, epoch);
    NamedExactly(Apply(k, list).value.cl, number, epoch);
  }
}
