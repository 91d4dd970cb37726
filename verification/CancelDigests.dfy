/** The digests of a schedule that still runs one cancelled fork. */
module CancelDigests {
  import opened Text
  import CL = ClSchedule
  import opened Cancel
  import opened Sorting
  import opened Collections

  // ----- the schedule with one cancelled fork added back -----

  predicate SortedBy<T>(key: T -> int, list: seq<T>) {
    forall i, j :: 0 <= i < j < |list| ==> key(list[i]) <= key(list[j])
  }

  function ForkKey(f: CL.Fork): int { f.epoch }

  function BlobKey(b: CL.Blob): int { b.epoch }

  /** The schedule a node that still runs the cancelled fork follows. */
  function Shadow(c: CL.Schedule, x: Cancellation): CL.Schedule
    requires x.cl.Some?
  {
    c.(forks := if x.removedFork.Some? then Sort(ByKey(ForkKey), c.forks + [x.removedFork.value]) else c.forks,
       cancelledBPOs := if x.removedFork.None? then c.cancelledBPOs - {x.cl.value.epoch} else c.cancelledBPOs,
       blobs := if x.removedBlobs != [] then Sort(ByKey(BlobKey), c.blobs + x.removedBlobs) else c.blobs)
  }

  /** The digests recorded with a cancellation; None where the source reports an error. */
  function RecordedDigests(c: CL.Schedule, x: Cancellation): Option<(CL.Digest, CL.Digest)>
    requires x.cl.Some? && x.cl.value.epoch > 0
  {
    var before, after := CL.DigestAt(c, x.cl.value.epoch - 1), CL.DigestAt(Shadow(c, x), x.cl.value.epoch);
    if before.None? || after.None? then None else Some((before.value, after.value))
  }

  /** Every accepted consensus entry has a scheduled epoch. */
  predicate Recordable(xs: seq<Cancellation>) {
    forall i :: 0 <= i < |xs| && xs[i].cl.Some? ==> xs[i].cl.value.epoch > 0
  }

  /** The digests of every cancellation, None for one without a consensus part. */
  function AllRecorded(c: CL.Schedule, xs: seq<Cancellation>): Option<seq<Option<(CL.Digest, CL.Digest)>>>
    requires Recordable(xs)
  {
    if xs == [] then Some([])
    else
      var before, x := AllRecorded(c, xs[..|xs| - 1]), xs[|xs| - 1];
      if before.None? then None
      else if x.cl.None? then Some(before.value + [None])
      else
        var d := RecordedDigests(c, x);
        if d.None? then None else Some(before.value + [d])
  }

  /** cancelledDigests, once every cancellation is applied. */
  method CancelledDigests(n: Network) returns (r: Option<seq<Option<(CL.Digest, CL.Digest)>>>)
    requires Recordable(n.cancellations)
    ensures r == AllRecorded(n.cl, n.cancellations)
  {
    var out: seq<Option<(CL.Digest, CL.Digest)>> := [];
    for i := 0 to |n.cancellations|
      invariant AllRecorded(n.cl, n.cancellations[..i]) == Some(out)
    {
      assert n.cancellations[..i + 1][..i] == n.cancellations[..i];
      var x := n.cancellations[i];
      if x.cl.None? {
        out := out + [None];
      } else {
        var d := RecordedDigests(n.cl, x);
        if d.None? {
          FailureRecorded(n.cl, n.cancellations, i + 1);
          return None;
        }
        out := out + [d];
      }
    }
    assert n.cancellations[..|n.cancellations|] == n.cancellations;
    r := Some(out);
  }

  lemma {:induction false} FailureRecorded(c: CL.Schedule, xs: seq<Cancellation>, i: nat)
    requires Recordable(xs) && i <= |xs| && AllRecorded(c, xs[..i]) == None
    ensures AllRecorded(c, xs) == None
    decreases |xs|
  {
    if i < |xs| {
      assert xs[..|xs| - 1][..i] == xs[..i];
      FailureRecorded(c, xs[..|xs| - 1], i);
    } else {
      assert xs[..i] == xs;
    }
  }

  lemma {:induction false} InsertedRecordable(k: Compiled, xs: seq<Cancellation>, x: Cancellation)
    requires CL.Ticks(k.cl) && Recordable(xs) && (x.cl.Some? ==> x.cl.value.epoch > 0)
    ensures Recordable(InsertByInstant(k, xs, x))
  {
    if xs != [] {
      assert Recordable(xs[1..]);
      InsertedRecordable(k, xs[1..], x);
    }
  }

  lemma {:induction false} AcceptedAreRecordable(k: Compiled, list: seq<CancelledFork>)
    requires CL.Ticks(k.cl) && Apply(k, list).Some?
    ensures Recordable(Apply(k, list).value.cancellations)
    decreases |list|
  {
    if list != [] {
      var front := list[..|list| - 1];
      AcceptedAreRecordable(k, front);
      var n := Apply(k, front).value;
      InsertedRecordable(k, n.cancellations, CancelOne(k, n.cl, list[|list| - 1]).value.1);
    }
  }

  /** Whatever the order of the list, the recorded digests are the same, errors included. */
  lemma DigestsInAnyOrder(k: Compiled, one: seq<CancelledFork>, two: seq<CancelledFork>)
    requires CL.Ticks(k.cl) && AllDistinct(k, one) && multiset(one) == multiset(two) && Apply(k, one).Some?
    ensures Apply(k, two) == Apply(k, one) && Recordable(Apply(k, one).value.cancellations)
    ensures AllRecorded(Apply(k, two).value.cl, Apply(k, two).value.cancellations) ==
            AllRecorded(Apply(k, one).value.cl, Apply(k, one).value.cancellations)
  {
    OrderDoesNotMatter(k, one, two);
    AcceptedAreRecordable(k, one);
  }

  lemma {:induction false} InsertMiddle<T>(key: T -> int, a: seq<T>, x: T, b: seq<T>)
    requires forall i :: 0 <= i < |a| ==> key(a[i]) <= key(x)
    requires b != [] ==> key(b[0]) > key(x)
    ensures Insert(ByKey(key), a + b, x) == a + [x] + b
  {
    if a == [] {
      assert a + b == b && a + [x] + b == [x] + b;
    } else {
      InsertMiddle(key, a[1..], x, b);
      assert (a + b)[1..] == a[1..] + b;
      assert a + [x] + b == [a[0]] + (a[1..] + [x] + b);
    }
  }

  lemma {:induction false} SortedStays<T>(key: T -> int, list: seq<T>)
    requires SortedBy(key, list)
    ensures Sort(ByKey(key), list) == list
    decreases |list|
  {
    if list != [] {
      var front, x := list[..|list| - 1], list[|list| - 1];
      SortedStays(key, front);
      InsertMiddle(key, front, x, []);
      assert front + [] == front && front + [x] + [] == list;
    }
  }

  lemma SortSnoc<T>(key: T -> int, list: seq<T>, x: T)
    ensures Sort(ByKey(key), list + [x]) == Insert(ByKey(key), Sort(ByKey(key), list), x)
  {
    assert (list + [x])[..|list|] == list;
  }

  /** Entries of one key, taken out of a sorted list and appended, are sorted back into place. */
  lemma {:induction false} SortBack<T>(key: T -> int, e: int, a: seq<T>, m: seq<T>, b: seq<T>)
    requires SortedBy(key, a + b)
    requires (forall x :: x in a ==> key(x) <= e) && (forall x :: x in m ==> key(x) == e)
    requires (forall x :: x in b ==> key(x) > e)
    ensures Sort(ByKey(key), a + b + m) == a + m + b
    decreases |m|
  {
    if m == [] {
      assert a + b + m == a + b == a + m + b;
      SortedStays(key, a + b);
    } else {
      var front, x := m[..|m| - 1], m[|m| - 1];
      SortBack(key, e, a, front, b);
      assert m == front + [x];
      Regroup4(a, b, front, [x]);
      SortSnoc(key, a + b + front, x);
      InsertMiddle(key, a + front, x, b);
    }
  }

  lemma Regroup4<T>(a: seq<T>, b: seq<T>, front: seq<T>, last: seq<T>)
    ensures a + b + (front + last) == (a + b + front) + last && a + front + last + b == a + (front + last) + b
  {
  }

  lemma Regroup<T>(p: seq<T>, a: seq<T>, m: seq<T>, b: seq<T>)
    ensures p + (a + m + b) == (p + a) + m + b && p + (a + b) == (p + a) + b
  {
  }

  lemma {:induction false} ForkTakenOut(forks: seq<CL.Fork>, name: string) returns (a: seq<CL.Fork>, b: seq<CL.Fork>)
    requires ForkNamed(forks, name).Some?
    ensures forks == a + [ForkNamed(forks, name).value] + b && WithoutFork(forks, name) == a + b
  {
    var first := [forks[0]];
    Regroup(first, [], [], forks[1..]);
    if EqualFold(forks[0].name, name) {
      a, b := [], forks[1..];
      Regroup([], [], first, b);
    } else {
      var before;
      before, b := ForkTakenOut(forks[1..], name);
      Regroup(first, before, [ForkNamed(forks, name).value], b);
      a := first + before;
      assert forks == first + forks[1..];
    }
  }

  lemma BlobsStep(blobs: seq<CL.Blob>, e: Uint64)
    requires blobs != []
    ensures blobs == [blobs[0]] + blobs[1..]
    ensures if blobs[0].epoch == e then
              BlobsAt(blobs, e) == [blobs[0]] + BlobsAt(blobs[1..], e)
              && BlobsNotAt(blobs, {e}) == BlobsNotAt(blobs[1..], {e})
            else
              BlobsAt(blobs, e) == BlobsAt(blobs[1..], e)
              && BlobsNotAt(blobs, {e}) == [blobs[0]] + BlobsNotAt(blobs[1..], {e})
  {
  }

  lemma FirstIsLeast(blobs: seq<CL.Blob>)
    requires CL.SortedBlobs(blobs) && blobs != []
    ensures CL.SortedBlobs(blobs[1..]) && forall x :: x in blobs[1..] ==> blobs[0].epoch <= x.epoch
  {
  }

  /** Entries before, at and after an epoch. */
  predicate Parted(e: Uint64, a: seq<CL.Blob>, m: seq<CL.Blob>, b: seq<CL.Blob>) {
    (forall x :: x in a ==> x.epoch < e)
    && (forall x :: x in m ==> x.epoch == e)
    && (forall x :: x in b ==> x.epoch > e)
  }

  lemma PartedBelow(e: Uint64, x: CL.Blob, a: seq<CL.Blob>, m: seq<CL.Blob>, b: seq<CL.Blob>)
    requires Parted(e, a, m, b) && forall y :: y in a + m + b ==> x.epoch <= y.epoch
    ensures x.epoch >= e ==> a == []
    ensures x.epoch > e ==> m == []
    ensures if x.epoch < e then Parted(e, [x] + a, m, b)
            else if x.epoch == e then Parted(e, a, [x] + m, b)
            else Parted(e, a, m, [x] + b)
  {
    assert a != [] ==> a[0] in a + m + b;
    assert m != [] ==> m[0] in a + m + b;
  }

  lemma {:induction false} BlobsTakenOut(blobs: seq<CL.Blob>, e: Uint64) returns (a: seq<CL.Blob>, b: seq<CL.Blob>)
    requires CL.SortedBlobs(blobs)
    ensures blobs == a + BlobsAt(blobs, e) + b && BlobsNotAt(blobs, {e}) == a + b
    ensures Parted(e, a, BlobsAt(blobs, e), b)
  {
    if blobs == [] {
      a, b := [], [];
    } else {
      FirstIsLeast(blobs);
      a, b := BlobsTakenOut(blobs[1..], e);
      BlobsStep(blobs, e);
      PartedBelow(e, blobs[0], a, BlobsAt(blobs[1..], e), b);
      Prepend(blobs[0], a, BlobsAt(blobs[1..], e), b);
      if blobs[0].epoch < e {
        a := [blobs[0]] + a;
      } else if blobs[0].epoch > e {
        b := [blobs[0]] + b;
      }
    }
  }

  lemma Prepend<T>(x: T, a: seq<T>, m: seq<T>, b: seq<T>)
    ensures [x] + (a + m + b) == ([x] + a) + m + b && [x] + (a + b) == ([x] + a) + b
    ensures a == [] ==> [x] + (a + m + b) == a + ([x] + m) + b
    ensures a == [] && m == [] ==> [x] + (a + m + b) == a + m + ([x] + b) && [x] + (a + b) == a + ([x] + b)
  {
  }

  /** x is the only fork at its epoch. */
  predicate Unshared(forks: seq<CL.Fork>, x: CL.Fork) {
    forall i, j :: 0 <= i < j < |forks| ==> !(forks[i].epoch == x.epoch && forks[j].epoch == x.epoch)
  }

  /** The schedule c has the fork, at an epoch it shares with no other. */
  predicate Restorable(compiled: CL.Schedule, c: CL.Schedule, f: CancelledCL) {
    if IsBPO(f.name) then HasBPO(compiled, f.epoch) && f.epoch !in c.cancelledBPOs
    else ForkNamed(c.forks, f.name).Some? && Unshared(c.forks, ForkNamed(c.forks, f.name).value)
  }

  lemma UnsharedElsewhere(forks: seq<CL.Fork>, x: CL.Fork, i: nat, j: nat)
    requires i < |forks| && j < |forks| && i != j && forks[i] == x && Unshared(forks, x)
    ensures forks[j].epoch != x.epoch
  {
  }

  lemma WithoutMiddle<T>(key: T -> int, a: seq<T>, m: seq<T>, b: seq<T>)
    requires SortedBy(key, a + m + b)
    ensures SortedBy(key, a + b)
  {
    var all := a + m + b;
    forall i, j | 0 <= i < j < |a + b| ensures key((a + b)[i]) <= key((a + b)[j]) {
      assert (a + b)[i] == all[if i < |a| then i else i + |m|];
      assert (a + b)[j] == all[if j < |a| then j else j + |m|];
    }
  }

  lemma ForksAround(forks: seq<CL.Fork>, a: seq<CL.Fork>, x: CL.Fork, b: seq<CL.Fork>)
    requires CL.SortedForks(forks) && forks == a + [x] + b && Unshared(forks, x)
    ensures (forall y :: y in a ==> ForkKey(y) <= x.epoch) && (forall y :: y in b ==> ForkKey(y) > x.epoch)
  {
    assert forks[|a|] == x;
    forall i | 0 <= i < |a| ensures ForkKey(a[i]) <= x.epoch {
      assert forks[i] == a[i];
    }
    forall i | 0 <= i < |b| ensures ForkKey(b[i]) > x.epoch {
      assert forks[|a| + 1 + i] == b[i];
      UnsharedElsewhere(forks, x, |a|, |a| + 1 + i);
    }
  }

  lemma ForkAddedBack(forks: seq<CL.Fork>, name: string)
    requires CL.SortedForks(forks) && ForkNamed(forks, name).Some?
    requires Unshared(forks, ForkNamed(forks, name).value)
    ensures Sort(ByKey(ForkKey), WithoutFork(forks, name) + [ForkNamed(forks, name).value]) == forks
  {
    var x := ForkNamed(forks, name).value;
    var a, b := ForkTakenOut(forks, name);
    ForksAround(forks, a, x, b);
    assert SortedBy(ForkKey, a + [x] + b);
    WithoutMiddle(ForkKey, a, [x], b);
    SortBack(ForkKey, x.epoch, a, [x], b);
  }

  lemma BlobsAddedBack(blobs: seq<CL.Blob>, e: Uint64)
    requires CL.SortedBlobs(blobs)
    ensures Sort(ByKey(BlobKey), BlobsNotAt(blobs, {e}) + BlobsAt(blobs, e)) == blobs
    ensures BlobsAt(blobs, e) == [] ==> BlobsNotAt(blobs, {e}) == blobs
  {
    var a, b := BlobsTakenOut(blobs, e);
    var m := BlobsAt(blobs, e);
    assert SortedBy(BlobKey, a + m + b);
    WithoutMiddle(BlobKey, a, m, b);
    SortBack(BlobKey, e, a, m, b);
    Prepended(a, b);
  }

  lemma Prepended<T>(a: seq<T>, b: seq<T>)
    ensures a + [] + b == a + b
  {
  }

  /** Adding a removed fork back gives the very schedule it was removed from. */
  lemma RemovedAndAddedBack(k: Compiled, c: CL.Schedule, f: CancelledFork)
    requires CL.Ticks(k.cl) && CL.SortedForks(c.forks) && CL.SortedBlobs(c.blobs)
    requires f.cl.Some? && Restorable(k.cl, c, f.cl.value) && CancelOne(k, c, f).Some?
    ensures var r := CancelOne(k, c, f).value; r.1.cl.Some? && Shadow(r.0, r.1) == c
  {
    var cl := f.cl.value;
    if IsBPO(cl.name) {
      assert c.cancelledBPOs + {cl.epoch} - {cl.epoch} == c.cancelledBPOs;
    } else {
      ForkAddedBack(c.forks, cl.name);
      BlobsAddedBack(c.blobs, cl.epoch);
    }
  }

  predicate Sorted(c: CL.Schedule) {
    CL.SortedForks(c.forks) && CL.SortedBlobs(c.blobs)
  }

  /** An accepted entry's consensus epoch starts at the entry's instant. */
  predicate OnInstant(k: Compiled, f: CancelledFork)
    requires CL.Ticks(k.cl)
  {
    f.cl.Some? ==> At(k, f.el, f.cl) == CL.TimeAtEpoch(k.cl, f.cl.value.epoch)
  }

  lemma ForkLess(forks: seq<CL.Fork>, name: string, x: CL.Fork)
    requires ForkNamed(forks, name).Some? && CL.SortedForks(forks)
    ensures CL.SortedForks(WithoutFork(forks, name)) && (Unshared(forks, x) ==> Unshared(WithoutFork(forks, name), x))
  {
    var a, b := ForkTakenOut(forks, name);
    var gone := ForkNamed(forks, name).value;
    assert SortedBy(ForkKey, a + [gone] + b);
    WithoutMiddle(ForkKey, a, [gone], b);
    assert SortedBy(ForkKey, WithoutFork(forks, name));
    forall i, j | Unshared(forks, x) && 0 <= i < j < |a + b|
      ensures !((a + b)[i].epoch == x.epoch && (a + b)[j].epoch == x.epoch) {
      assert (a + b)[i] == forks[if i < |a| then i else i + 1];
      assert (a + b)[j] == forks[if j < |a| then j else j + 1];
    }
  }

  lemma BlobsLess(blobs: seq<CL.Blob>, e: Uint64)
    requires CL.SortedBlobs(blobs)
    ensures CL.SortedBlobs(BlobsNotAt(blobs, {e}))
  {
    var a, b := BlobsTakenOut(blobs, e);
    assert SortedBy(BlobKey, a + BlobsAt(blobs, e) + b);
    WithoutMiddle(BlobKey, a, BlobsAt(blobs, e), b);
    assert SortedBy(BlobKey, BlobsNotAt(blobs, {e}));
  }

  /** Cancelling another fork leaves this one restorable. */
  lemma OneKeepsRestorable(k: Compiled, c: CL.Schedule, g: CancelledFork, f: CancelledFork)
    requires CL.Ticks(k.cl) && Sorted(c) && CancelOne(k, c, g).Some? && Distinct(k, g, f)
    requires f.cl.Some? && OnInstant(k, f) && Restorable(k.cl, c, f.cl.value)
    ensures Sorted(CancelOne(k, c, g).value.0) && Restorable(k.cl, CancelOne(k, c, g).value.0, f.cl.value)
  {
    if g.cl.Some? && !IsBPO(g.cl.value.name) && ForkNamed(c.forks, g.cl.value.name).Some? {
      var name := g.cl.value.name;
      ForkLess(c.forks, name,
               if ForkNamed(c.forks, f.cl.value.name).Some? then ForkNamed(c.forks, f.cl.value.name).value
               else c.forks[0]);
      BlobsLess(c.blobs, ForkNamed(c.forks, name).value.epoch);
      if !IsBPO(f.cl.value.name) { WithoutForkCommutes(c.forks, name, f.cl.value.name); }
    }
  }

  lemma {:induction false} AllKeepRestorable(k: Compiled, list: seq<CancelledFork>, f: CancelledFork)
    requires CL.Ticks(k.cl) && Sorted(k.cl) && Apply(k, list).Some? && forall g :: g in list ==> Distinct(k, g, f)
    requires f.cl.Some? && OnInstant(k, f) && Restorable(k.cl, k.cl, f.cl.value)
    ensures Sorted(Apply(k, list).value.cl) && Restorable(k.cl, Apply(k, list).value.cl, f.cl.value)
    decreases |list|
  {
    if list != [] {
      var front := list[..|list| - 1];
      AllKeepRestorable(k, front, f);
      OneKeepsRestorable(k, Apply(k, front).value.cl, list[|list| - 1], f);
    }
  }

  lemma {:induction false} Recorded(k: Compiled, list: seq<Cancellation>, x: Cancellation)
    requires CL.Ticks(k.cl)
    ensures x in InsertByInstant(k, list, x)
  {
    if list != [] { Recorded(k, list[1..], x); }
  }

  /** Take any accepted list of distinct cancellations, in any order. Adding one compiled fork back, at an epoch it
      shares with no other, gives the schedule that lost every other one: the digest recorded for its activation, and
      the digest at every epoch, is that schedule's. With a single cancellation it is the compiled schedule. */
  lemma AddedBackRestoresDigests(k: Compiled, rest: seq<CancelledFork>, f: CancelledFork, list: seq<CancelledFork>)
    returns (x: Cancellation)
    requires CL.Ticks(k.cl) && Sorted(k.cl) && multiset(list) == multiset(rest + [f]) && AllDistinct(k, list)
    requires f.cl.Some? && Restorable(k.cl, k.cl, f.cl.value) && Apply(k, list).Some?
    ensures Apply(k, rest).Some? && x in Apply(k, list).value.cancellations && x.fork == f.fork && x.cl == f.cl
    ensures x.cl.value.epoch > 0
    ensures var d := RecordedDigests(Apply(k, list).value.cl, x);
            d.Some? ==> Some(d.value.1) == CL.DigestAt(Apply(k, rest).value.cl, f.cl.value.epoch)
    ensures forall epoch: nat ::
      CL.DigestAt(Shadow(Apply(k, list).value.cl, x), epoch) == CL.DigestAt(Apply(k, rest).value.cl, epoch)
    ensures rest == [] ==> Shadow(Apply(k, list).value.cl, x) == k.cl
  {
    var last := rest + [f];
    SameElements(list, last);
    OrderDoesNotMatter(k, list, last);
    assert last[..|rest|] == rest;
    AllDistinctKeys(k, list);
    var before := Apply(k, rest).value;
    var r := CancelOne(k, before.cl, f).value;
    x := r.1;
    Recorded(k, before.cancellations, x);
    forall g | g in rest ensures Distinct(k, g, f) {
      RestDistinct(k, rest, f, g);
    }
    AllKeepRestorable(k, rest, f);
    RemovedAndAddedBack(k, before.cl, f);
  }

  lemma RestDistinct(k: Compiled, rest: seq<CancelledFork>, f: CancelledFork, g: CancelledFork)
    requires CL.Ticks(k.cl) && AllDistinct(k, rest + [f]) && g in rest
    ensures Distinct(k, g, f)
  {
    var last := rest + [f];
    assert f in last && g in last;
    assert multiset(last) == multiset(rest) + multiset{f};
    assert multiset(last)[f] == 1;
  }
}
