/** Cancelled forks: removing them from the compiled schedule, in any order. */
module Cancel {
  import opened Text
  import opened Folding
  import opened Collections
  import CL = ClSchedule
  import EL = ElSchedule

  // ----- the operator's list -----

  datatype CancelledEL = CancelledEL(name: string, time: Uint64)

  /** version is None when it does not decode. */
  datatype CancelledCL = CancelledCL(name: string, epoch: Uint64, version: Option<Hash4>, maxBlobs: Uint64)

  datatype CancelledFork = CancelledFork(fork: string, el: Option<CancelledEL>, cl: Option<CancelledCL>)

  /** A recorded cancellation, with what the canonical consensus schedule lost. */
  datatype Cancellation = Cancellation(fork: string, el: Option<CancelledEL>, cl: Option<CancelledCL>,
                                       removedFork: Option<CL.Fork>, removedBlobs: seq<CL.Blob>)

  /** What the compiled files fix for one network. */
  datatype Compiled = Compiled(elForks: seq<EL.Fork>, cl: CL.Schedule)

  datatype Network = Network(cl: CL.Schedule, cancellations: seq<Cancellation>)

  function Upper(c: char): char {
    if 'a' <= c <= 'z' then (c as int - 32) as char else c
  }

  predicate IsBPO(name: string) {
    |name| >= 3 && Upper(name[0]) == 'B' && Upper(name[1]) == 'P' && Upper(name[2]) == 'O'
  }

  // ----- lookups in a schedule -----

  function ForkNamed(forks: seq<CL.Fork>, name: string): Option<CL.Fork> {
    if forks == [] then None else if EqualFold(forks[0].name, name) then Some(forks[0]) else ForkNamed(forks[1..], name)
  }

  function WithoutFork(forks: seq<CL.Fork>, name: string): seq<CL.Fork> {
    if forks == [] then []
    else if EqualFold(forks[0].name, name) then forks[1..]
    else [forks[0]] + WithoutFork(forks[1..], name)
  }

  function BlobsAt(blobs: seq<CL.Blob>, epoch: Uint64): seq<CL.Blob> {
    if blobs == [] then []
    else (if blobs[0].epoch == epoch then [blobs[0]] else []) + BlobsAt(blobs[1..], epoch)
  }

  function BlobsNotAt(blobs: seq<CL.Blob>, epochs: set<Uint64>): seq<CL.Blob> {
    if blobs == [] then []
    else (if blobs[0].epoch in epochs then [] else [blobs[0]]) + BlobsNotAt(blobs[1..], epochs)
  }

  predicate RegularEpoch(forks: seq<CL.Fork>, epoch: Uint64) {
    exists i :: 0 <= i < |forks| && forks[i].epoch == epoch
  }

  /** A live blob-parameter fork of the schedule at the epoch. */
  predicate HasBPO(c: CL.Schedule, epoch: Uint64) {
    epoch >= c.fulu && !RegularEpoch(c.forks, epoch) && epoch !in c.cancelledBPOs && BlobsAt(c.blobs, epoch) != []
  }

  // ----- cancelling one fork -----

  datatype Removal = Removal(cl: CL.Schedule, fork: Option<CL.Fork>, blobs: seq<CL.Blob>)

  /** withoutFork. Removing a named fork also removes the blob entries of its epoch. A blob-parameter fork is looked up
      by epoch in the compiled schedule, and is only marked, so that it still counts. None for an error. */
  function Remove(c: CL.Schedule, compiled: CL.Schedule, f: CancelledCL): Option<Removal>
    requires f.version.Some?
  {
    if !IsBPO(f.name) then
      if EqualFold(f.name, "electra") || EqualFold(f.name, "fulu") then None
      else
        var x := ForkNamed(c.forks, f.name);
        if x.Some? then
          if x.value.epoch != f.epoch || x.value.version != f.version.value then None
          else Some(Removal(c.(forks := WithoutFork(c.forks, f.name), blobs := BlobsNotAt(c.blobs, {x.value.epoch})),
                            x, BlobsAt(c.blobs, x.value.epoch)))
        else Some(Removal(c, Some(CL.Fork(ToLower(f.name), f.epoch, f.version.value)),
                          if f.maxBlobs > 0 then [CL.Blob(f.epoch, f.maxBlobs)] else []))
    else if HasBPO(compiled, f.epoch) then
      var version := CL.ForkAt(compiled, f.epoch);
      if version.None? || version.value.version != f.version.value
          || BlobsAt(compiled.blobs, f.epoch)[0].maxBlobs != f.maxBlobs
      then None
      else Some(Removal(c.(cancelledBPOs := c.cancelledBPOs + {f.epoch}), None, []))
    else if f.maxBlobs == 0 then None
    else Some(Removal(c, None, [CL.Blob(f.epoch, f.maxBlobs)]))
  }

  predicate ELAccepted(compiled: seq<EL.Fork>, el: CancelledEL) {
    && el.name != "" && el.time != 0
    && (EL.Fork(el.name, el.time) in compiled || forall f :: f in compiled ==> f.name != el.name)
  }

  /** The instant a cancelled fork would have activated. */
  function At(k: Compiled, el: Option<CancelledEL>, cl: Option<CancelledCL>): int
    requires CL.Ticks(k.cl)
  {
    if el.Some? then EL.AsInt64(el.value.time)
    else if cl.Some? then CL.TimeAtEpoch(k.cl, cl.value.epoch)
    else 0
  }

  predicate CLFields(cl: CancelledCL) {
    cl.name != "" && cl.epoch != 0 && cl.epoch != MAX_UINT64 && cl.version.Some?
  }

  /** cancel: the fork's checks and its removal. */
  function CancelOne(k: Compiled, cl: CL.Schedule, f: CancelledFork): Option<(CL.Schedule, Cancellation)>
    requires CL.Ticks(k.cl)
  {
    if f.fork == "" || (f.el.None? && f.cl.None?) then None
    else if f.el.Some? && !ELAccepted(k.elForks, f.el.value) then None
    else if f.cl.None? then Some((cl, Cancellation(f.fork, f.el, f.cl, None, [])))
    else if !CLFields(f.cl.value) then None
    else
      var r := Remove(cl, k.cl, f.cl.value);
      if r.None? then None
      else if f.el.Some? && EL.AsInt64(f.el.value.time) != CL.TimeAtEpoch(k.cl, f.cl.value.epoch) then None
      else Some((r.value.cl, Cancellation(f.fork, f.el, f.cl, r.value.fork, r.value.blobs)))
  }

  /** The list sorted by instant, with one more. */
  function InsertByInstant(k: Compiled, list: seq<Cancellation>, c: Cancellation): seq<Cancellation>
    requires CL.Ticks(k.cl)
  {
    if list == [] then [c]
    else if At(k, list[0].el, list[0].cl) <= At(k, c.el, c.cl) then [list[0]] + InsertByInstant(k, list[1..], c)
    else [c] + list
  }

  function Start(k: Compiled): Network {
    Network(k.cl, [])
  }

  function Key(f: CancelledFork): string {
    ToLower(f.fork)
  }

  /** applyCancellations on one network's entries; None where the source reports an error. */
  function Apply(k: Compiled, list: seq<CancelledFork>): Option<Network>
    requires CL.Ticks(k.cl)
  {
    if list == [] then Some(Start(k))
    else
      var n, f := Apply(k, list[..|list| - 1]), list[|list| - 1];
      if n.None? || (exists i :: 0 <= i < |list| - 1 && Key(list[i]) == Key(f)) then None
      else StepSome(k, n.value, f)
  }

  /** The source's loop over the list. */
  method ApplyCancellations(k: Compiled, list: seq<CancelledFork>) returns (n: Option<Network>)
    requires CL.Ticks(k.cl)
    ensures n == Apply(k, list)
  {
    var cl, cancellations: seq<Cancellation> := k.cl, [];
    var seen: set<string> := {};
    for i := 0 to |list|
      invariant Reached(k, list, i, cl, cancellations)
      invariant KeysOf(list, i, seen)
    {
      var f := list[i];
      NextKey(list, i, seen);
      if Key(f) in seen {
        DuplicateFails(k, list, i, cl, cancellations);
        return None;
      }
      seen := seen + {Key(f)};
      var r := CancelOne(k, cl, f);
      EntryDecides(k, list, i, cl, cancellations);
      if r.None? {
        return None;
      }
      cl, cancellations := r.value.0, InsertByInstant(k, cancellations, r.value.1);
    }
    assert list[..|list|] == list;
    n := Some(Network(cl, cancellations));
  }

  /** The keys of the list's first i entries. */
  predicate KeysOf(list: seq<CancelledFork>, i: nat, seen: set<string>) {
    i <= |list| && seen == set j | 0 <= j < i :: Key(list[j])
  }

  lemma NextKey(list: seq<CancelledFork>, i: nat, seen: set<string>)
    requires i < |list| && KeysOf(list, i, seen)
    ensures KeysOf(list, i + 1, seen + {Key(list[i])})
    ensures Key(list[i]) in seen <==> exists j :: 0 <= j < i && Key(list[j]) == Key(list[i])
  {
  }

  /** The outcome of the list's first i entries. */
  predicate Reached(k: Compiled, list: seq<CancelledFork>, i: nat, cl: CL.Schedule, cancellations: seq<Cancellation>)
    requires CL.Ticks(k.cl)
  {
    i <= |list| && Apply(k, list[..i]) == Some(Network(cl, cancellations))
  }

  lemma DuplicateFails(k: Compiled, list: seq<CancelledFork>, i: nat, cl: CL.Schedule, cancellations: seq<Cancellation>)
    requires CL.Ticks(k.cl) && i < |list| && Reached(k, list, i, cl, cancellations)
    requires exists j :: 0 <= j < i && Key(list[j]) == Key(list[i])
    ensures Apply(k, list) == None
  {
    ApplyNext(k, list, i);
    FailureStays(k, list, i + 1);
  }

  lemma EntryDecides(k: Compiled, list: seq<CancelledFork>, i: nat, cl: CL.Schedule, cancellations: seq<Cancellation>)
    requires CL.Ticks(k.cl) && i < |list| && Reached(k, list, i, cl, cancellations)
    requires forall j :: 0 <= j < i ==> Key(list[j]) != Key(list[i])
    ensures var r := CancelOne(k, cl, list[i]);
            if r.None? then Apply(k, list) == None
            else Reached(k, list, i + 1, r.value.0, InsertByInstant(k, cancellations, r.value.1))
  {
    ApplyNext(k, list, i);
    if CancelOne(k, cl, list[i]).None? { FailureStays(k, list, i + 1); }
  }

  /** What one more entry does. */
  lemma ApplyNext(k: Compiled, list: seq<CancelledFork>, i: nat)
    requires CL.Ticks(k.cl) && i < |list| && Apply(k, list[..i]).Some?
    ensures var n, f := Apply(k, list[..i]).value, list[i];
            Apply(k, list[..i + 1]) ==
            if exists j :: 0 <= j < i && Key(list[j]) == Key(f) then None else StepSome(k, n, f)
  {
    var now := list[..i + 1];
    assert now[..|now| - 1] == list[..i] && now[|now| - 1] == list[i];
    if j :| 0 <= j < i && Key(list[j]) == Key(list[i]) {
      assert Key(now[j]) == Key(now[i]);
    }
    assert forall j :: 0 <= j < i ==> now[j] == list[j];
  }

  function StepSome(k: Compiled, n: Network, f: CancelledFork): Option<Network>
    requires CL.Ticks(k.cl)
  {
    var r := CancelOne(k, n.cl, f);
    if r.None? then None else Some(Network(r.value.0, InsertByInstant(k, n.cancellations, r.value.1)))
  }

  lemma {:induction false} FailureStays(k: Compiled, list: seq<CancelledFork>, i: nat)
    requires CL.Ticks(k.cl) && i <= |list| && Apply(k, list[..i]) == None
    ensures Apply(k, list) == None
    decreases |list|
  {
    if i < |list| {
      assert list[..|list| - 1][..i] == list[..i];
      FailureStays(k, list[..|list| - 1], i);
    } else {
      assert list[..i] == list;
    }
  }

  // ----- every order gives the same network -----

  function Step(k: Compiled, n: Option<Network>, f: CancelledFork): Option<Network>
    requires CL.Ticks(k.cl)
  {
    if n.None? then None else StepSome(k, n.value, f)
  }

  function StepOf(k: Compiled): (Option<Network>, CancelledFork) -> Option<Network>
    requires CL.Ticks(k.cl)
  {
    (n, f) => Step(k, n, f)
  }

  /** Distinct forks at distinct instants. */
  predicate Distinct(k: Compiled, f: CancelledFork, g: CancelledFork)
    requires CL.Ticks(k.cl)
  {
    && Key(f) != Key(g)
    && At(k, f.el, f.cl) != At(k, g.el, g.cl)
    && (f.cl.Some? && g.cl.Some? && !IsBPO(f.cl.value.name) && !IsBPO(g.cl.value.name) ==>
          !EqualFold(f.cl.value.name, g.cl.value.name))
  }

  ghost predicate AllDistinct(k: Compiled, list: seq<CancelledFork>)
    requires CL.Ticks(k.cl)
  {
    && (forall f :: f in list ==> multiset(list)[f] == 1)
    && (forall f, g :: f in list && g in list && f != g ==> Distinct(k, f, g))
  }

  /** Entries with different fork names, instants and names of regular consensus forks, capitals aside, are distinct
      in that sense, however many there are. */
  lemma PairwiseIsAllDistinct(k: Compiled, list: seq<CancelledFork>)
    requires CL.Ticks(k.cl)
    requires forall i, j :: 0 <= i < |list| && 0 <= j < |list| && i != j ==>
               && ToLower(list[i].fork) != ToLower(list[j].fork)
               && At(k, list[i].el, list[i].cl) != At(k, list[j].el, list[j].cl)
               && (list[i].cl.Some? && list[j].cl.Some? && !IsBPO(list[i].cl.value.name)
                   && !IsBPO(list[j].cl.value.name) ==>
                     ToLower(list[i].cl.value.name) != ToLower(list[j].cl.value.name))
    ensures AllDistinct(k, list)
  {
    forall f | f in list ensures multiset(list)[f] == 1 {
      var i :| 0 <= i < |list| && list[i] == f;
      Once(list, i);
    }
    forall f, g | f in list && g in list && f != g ensures Distinct(k, f, g) {
      var i :| 0 <= i < |list| && list[i] == f;
      var j :| 0 <= j < |list| && list[j] == g;
      assert i != j;
    }
  }

  lemma {:induction false} WithoutForkCommutes(forks: seq<CL.Fork>, a: string, b: string)
    requires !EqualFold(a, b)
    ensures ForkNamed(WithoutFork(forks, a), b) == ForkNamed(forks, b)
    ensures WithoutFork(WithoutFork(forks, a), b) == WithoutFork(WithoutFork(forks, b), a)
  {
    if forks != [] {
      WithoutForkCommutes(forks[1..], a, b);
      assert ([forks[0]] + WithoutFork(forks[1..], a))[1..] == WithoutFork(forks[1..], a);
      assert ([forks[0]] + WithoutFork(forks[1..], b))[1..] == WithoutFork(forks[1..], b);
    }
  }

  lemma {:induction false} BlobsCommute(blobs: seq<CL.Blob>, a: Uint64, b: Uint64)
    requires a != b
    ensures BlobsAt(BlobsNotAt(blobs, {a}), b) == BlobsAt(blobs, b)
    ensures BlobsNotAt(BlobsNotAt(blobs, {a}), {b}) == BlobsNotAt(BlobsNotAt(blobs, {b}), {a})
  {
    if blobs != [] {
      BlobsCommute(blobs[1..], a, b);
      assert ([blobs[0]] + BlobsNotAt(blobs[1..], {a}))[1..] == BlobsNotAt(blobs[1..], {a});
      assert ([blobs[0]] + BlobsNotAt(blobs[1..], {b}))[1..] == BlobsNotAt(blobs[1..], {b});
      assert [] + BlobsNotAt(blobs[1..], {a}) == BlobsNotAt(blobs[1..], {a});
      assert [] + BlobsNotAt(blobs[1..], {b}) == BlobsNotAt(blobs[1..], {b});
    }
  }

  /** second: g removed after f; first: g removed alone; other: f removed after g. */
  predicate AfterOther(second: Option<Removal>, first: Option<Removal>, other: Option<Removal>) {
    && (second.Some? <==> first.Some?)
    && (first.Some? ==> (
          && second.value.fork == first.value.fork && second.value.blobs == first.value.blobs
          && other.Some? && second.value.cl == other.value.cl))
  }

  /** Removals at different epochs, of different names, do not see each other. */
  lemma RemoveCommutes(c: CL.Schedule, compiled: CL.Schedule, f: CancelledCL, g: CancelledCL)
    requires f.version.Some? && g.version.Some? && f.epoch != g.epoch
    requires !IsBPO(f.name) && !IsBPO(g.name) ==> !EqualFold(f.name, g.name)
    ensures var rf, rg := Remove(c, compiled, f), Remove(c, compiled, g);
            rf.Some? ==> AfterOther(Remove(rf.value.cl, compiled, g), rg,
                                    if rg.Some? then Remove(rg.value.cl, compiled, f) else None)
  {
    if !IsBPO(f.name) && !IsBPO(g.name) {
      NamedCommute(c, compiled, f, g);
    }
    assert c.cancelledBPOs + {f.epoch} + {g.epoch} == c.cancelledBPOs + {g.epoch} + {f.epoch};
  }

  lemma NamedCommute(c: CL.Schedule, compiled: CL.Schedule, f: CancelledCL, g: CancelledCL)
    requires f.version.Some? && g.version.Some? && f.epoch != g.epoch
    requires !IsBPO(f.name) && !IsBPO(g.name) && !EqualFold(f.name, g.name)
    ensures var rf, rg := Remove(c, compiled, f), Remove(c, compiled, g);
            rf.Some? ==> AfterOther(Remove(rf.value.cl, compiled, g), rg,
                                    if rg.Some? then Remove(rg.value.cl, compiled, f) else None)
  {
    WithoutForkCommutes(c.forks, f.name, g.name);
    WithoutForkCommutes(c.forks, g.name, f.name);
    BlobsCommute(c.blobs, f.epoch, g.epoch);
    BlobsCommute(c.blobs, g.epoch, f.epoch);
  }

  predicate SameOutcome(second: Option<(CL.Schedule, Cancellation)>, first: Option<(CL.Schedule, Cancellation)>,
                        other: Option<(CL.Schedule, Cancellation)>) {
    && (second.Some? <==> first.Some?)
    && (first.Some? ==> second.value.1 == first.value.1 && other.Some? && second.value.0 == other.value.0)
  }

  /** Accepted forks of distinct instants have distinct epochs, so their removals commute. */
  lemma CancelCommutes(k: Compiled, c: CL.Schedule, f: CancelledFork, g: CancelledFork)
    requires CL.Ticks(k.cl) && Distinct(k, f, g)
    ensures var rf, rg := CancelOne(k, c, f), CancelOne(k, c, g);
            rf.Some? ==> SameOutcome(CancelOne(k, rf.value.0, g), rg,
                                     if rg.Some? then CancelOne(k, rg.value.0, f) else None)
  {
    if f.cl.Some? && g.cl.Some? && CLFields(f.cl.value) && CLFields(g.cl.value)
        && f.cl.value.epoch != g.cl.value.epoch {
      RemoveCommutes(c, k.cl, f.cl.value, g.cl.value);
    }
  }

  lemma {:induction false} InsertCommutes(k: Compiled, list: seq<Cancellation>, a: Cancellation, b: Cancellation)
    requires CL.Ticks(k.cl) && At(k, a.el, a.cl) != At(k, b.el, b.cl)
    ensures InsertByInstant(k, InsertByInstant(k, list, a), b) == InsertByInstant(k, InsertByInstant(k, list, b), a)
  {
    if list != [] {
      InsertCommutes(k, list[1..], a, b);
      assert ([list[0]] + InsertByInstant(k, list[1..], a))[1..] == InsertByInstant(k, list[1..], a);
      assert ([list[0]] + InsertByInstant(k, list[1..], b))[1..] == InsertByInstant(k, list[1..], b);
      assert ([a] + list)[1..] == list && ([b] + list)[1..] == list;
    } else {
      assert [a][1..] == [] && [b][1..] == [];
    }
  }

  lemma StepsSwap(k: Compiled, n: Option<Network>, f: CancelledFork, g: CancelledFork)
    requires CL.Ticks(k.cl) && Distinct(k, f, g)
    ensures Step(k, Step(k, n, f), g) == Step(k, Step(k, n, g), f)
  {
    if n.Some? {
      CancelCommutes(k, n.value.cl, f, g);
      CancelCommutes(k, n.value.cl, g, f);
      var rf, rg := CancelOne(k, n.value.cl, f), CancelOne(k, n.value.cl, g);
      if rf.Some? && rg.Some? {
        InsertCommutes(k, n.value.cancellations, rf.value.1, rg.value.1);
      }
    }
  }

  predicate DistinctKeys(list: seq<CancelledFork>) {
    forall i, j :: 0 <= i < j < |list| ==> Key(list[i]) != Key(list[j])
  }

  lemma AllDistinctKeys(k: Compiled, list: seq<CancelledFork>)
    requires CL.Ticks(k.cl) && AllDistinct(k, list)
    ensures DistinctKeys(list)
  {
    forall i, j | 0 <= i < j < |list| ensures Key(list[i]) != Key(list[j]) {
      assert list[i] in list && list[j] in list;
      Twice(list, i, j);
    }
  }

  lemma {:induction false} ApplyIsFold(k: Compiled, list: seq<CancelledFork>, i: nat)
    requires CL.Ticks(k.cl) && DistinctKeys(list) && i <= |list|
    ensures Apply(k, list[..i]) == Fold(StepOf(k), Some(Start(k)), list[..i])
    decreases i
  {
    if i > 0 {
      ApplyIsFold(k, list, i - 1);
      assert list[..i] == list[..i - 1] + [list[i - 1]];
      FoldSnoc(StepOf(k), Some(Start(k)), list[..i - 1], list[i - 1]);
      if Apply(k, list[..i - 1]).Some? {
        ApplyNext(k, list, i - 1);
      } else {
        assert list[..i][..i - 1] == list[..i - 1];
        FailureStays(k, list[..i], i - 1);
      }
    } else {
      assert list[..i] == [];
    }
  }

  /** For cancellations of distinct forks at distinct instants, every order of the list gives the same outcome:
      the same error verdict, schedule and recorded cancellations, and so the same digests. */
  lemma OrderDoesNotMatter(k: Compiled, one: seq<CancelledFork>, two: seq<CancelledFork>)
    requires CL.Ticks(k.cl) && AllDistinct(k, one) && multiset(one) == multiset(two)
    ensures Apply(k, one) == Apply(k, two)
  {
    SameElements(one, two);
    assert AllDistinct(k, two);
    AllDistinctKeys(k, one);
    AllDistinctKeys(k, two);
    assert one[..|one|] == one && two[..|two|] == two;
    ApplyIsFold(k, one, |one|);
    ApplyIsFold(k, two, |two|);
    forall f, g | f in one && g in one && f != g ensures Commute(StepOf(k), f, g) {
      forall n: Option<Network> ensures StepOf(k)(StepOf(k)(n, f), g) == StepOf(k)(StepOf(k)(n, g), f) {
        StepsSwap(k, n, f, g);
      }
    }
    FoldPermutes(StepOf(k), Some(Start(k)), one, two);
  }
}
