/** Which cancellations are accepted and what each one takes out of a schedule, over the entries of the lists. */
module CancelRules {
  import opened Text
  import opened Cancel
  import CL = ClSchedule
  import EL = ElSchedule

  // ----- what an entry names -----

  /** The first fork of the name, however it is capitalised. */
  predicate FirstNamed(forks: seq<CL.Fork>, name: string, i: int) {
    0 <= i < |forks| && EqualFold(forks[i].name, name) && forall j :: 0 <= j < i ==> !EqualFold(forks[j].name, name)
  }

  predicate NoneNamed(forks: seq<CL.Fork>, name: string) {
    forall j :: 0 <= j < |forks| ==> !EqualFold(forks[j].name, name)
  }

  predicate FirstAt(blobs: seq<CL.Blob>, epoch: Uint64, i: int) {
    0 <= i < |blobs| && blobs[i].epoch == epoch && forall j :: 0 <= j < i ==> blobs[j].epoch != epoch
  }

  /** Names of blob-parameter forks begin with bpo, however capitalised. */
  lemma BPONames(name: string)
    ensures IsBPO(name) <==> |name| >= 3 && ToLower(name[..3]) == "bpo"
  {
    if |name| >= 3 {
      var s := ToLower(name[..3]);
      assert s == [Lower(name[0]), Lower(name[1]), Lower(name[2])];
    }
  }

  lemma NoneNamedTail(forks: seq<CL.Fork>, name: string)
    requires forks != []
    ensures NoneNamed(forks, name) <==> !EqualFold(forks[0].name, name) && NoneNamed(forks[1..], name)
  {
    if NoneNamed(forks[1..], name) && !EqualFold(forks[0].name, name) {
      forall j | 0 <= j < |forks| ensures !EqualFold(forks[j].name, name) {
        if j > 0 { assert forks[j] == forks[1..][j - 1]; }
      }
    }
    if NoneNamed(forks, name) {
      forall j | 0 <= j < |forks[1..]| ensures !EqualFold(forks[1..][j].name, name) {
        assert forks[1..][j] == forks[j + 1];
      }
    }
  }

  lemma {:induction false} ForkNamedNone(forks: seq<CL.Fork>, name: string)
    ensures NoneNamed(forks, name) <==> ForkNamed(forks, name) == None
  {
    if forks != [] {
      NoneNamedTail(forks, name);
      ForkNamedNone(forks[1..], name);
    }
  }

  lemma FirstNamedTail(forks: seq<CL.Fork>, name: string, i: int)
    requires FirstNamed(forks, name, i) && i > 0
    ensures !EqualFold(forks[0].name, name) && FirstNamed(forks[1..], name, i - 1)
  {
    forall j | 0 <= j < i - 1 ensures !EqualFold(forks[1..][j].name, name) { assert forks[1..][j] == forks[j + 1]; }
  }

  lemma {:induction false} ForkNamedIsFirst(forks: seq<CL.Fork>, name: string, i: int)
    requires FirstNamed(forks, name, i)
    ensures ForkNamed(forks, name) == Some(forks[i]) && WithoutFork(forks, name) == forks[..i] + forks[i + 1..]
    decreases i
  {
    if i > 0 {
      FirstNamedTail(forks, name, i);
      ForkNamedIsFirst(forks[1..], name, i - 1);
      assert forks[..i] == [forks[0]] + forks[1..][..i - 1] && forks[i + 1..] == forks[1..][i..];
    }
  }

  lemma {:induction false} BlobsAtAre(blobs: seq<CL.Blob>, epoch: Uint64)
    ensures forall b :: b in BlobsAt(blobs, epoch) <==> b in blobs && b.epoch == epoch
    ensures forall b :: b in BlobsNotAt(blobs, {epoch}) <==> b in blobs && b.epoch != epoch
    ensures forall i :: FirstAt(blobs, epoch, i) ==> BlobsAt(blobs, epoch) != [] && BlobsAt(blobs, epoch)[0] == blobs[i]
  {
    if blobs != [] {
      var rest := blobs[1..];
      BlobsAtAre(rest, epoch);
      assert blobs == [blobs[0]] + rest;
      forall i | FirstAt(blobs, epoch, i)
        ensures BlobsAt(blobs, epoch) != [] && BlobsAt(blobs, epoch)[0] == blobs[i] {
        if i > 0 {
          assert blobs[0].epoch != epoch;
          forall j | 0 <= j < i - 1 ensures rest[j].epoch != epoch { assert rest[j] == blobs[j + 1]; }
          assert FirstAt(rest, epoch, i - 1);
        }
      }
    }
  }

  // ----- a named fork -----

  /** A scheduled fork of the name goes, at its own epoch and version only, and with it the blob entries of its epoch,
      which are recorded; nothing else does. */
  lemma NamedGoes(c: CL.Schedule, compiled: CL.Schedule, f: CancelledCL, i: int)
    requires f.version.Some? && !IsBPO(f.name) && FirstNamed(c.forks, f.name, i)
    ensures var r := Remove(c, compiled, f); var x := c.forks[i];
            && (r.Some? <==> x.epoch == f.epoch && x.version == f.version.value
                             && ToLower(f.name) != "electra" && ToLower(f.name) != "fulu")
            && (r.Some? ==>
                  && r.value.fork == Some(x)
                  && r.value.cl.forks == c.forks[..i] + c.forks[i + 1..]
                  && r.value.cl.(forks := c.forks, blobs := c.blobs) == c
                  && (forall b :: b in r.value.cl.blobs <==> b in c.blobs && b.epoch != x.epoch)
                  && (forall b :: b in r.value.blobs <==> b in c.blobs && b.epoch == x.epoch))
  {
    ForkNamedIsFirst(c.forks, f.name, i);
    BlobsAtAre(c.blobs, c.forks[i].epoch);
    Lowercase();
  }

  lemma Lowercase()
    ensures ToLower("electra") == "electra" && ToLower("fulu") == "fulu"
  {
  }

  /** A fork the schedule does not have is recorded as the entry describes it, and nothing goes. */
  lemma AbsentIsRecorded(c: CL.Schedule, compiled: CL.Schedule, f: CancelledCL)
    requires f.version.Some? && !IsBPO(f.name) && NoneNamed(c.forks, f.name)
    ensures var r := Remove(c, compiled, f);
            && (r.Some? <==> ToLower(f.name) != "electra" && ToLower(f.name) != "fulu")
            && (r.Some? ==> r.value.cl == c
                            && r.value.fork == Some(CL.Fork(ToLower(f.name), f.epoch, f.version.value))
                            && r.value.blobs == if f.maxBlobs == 0 then [] else [CL.Blob(f.epoch, f.maxBlobs)])
  {
    ForkNamedNone(c.forks, f.name);
    Lowercase();
  }

  // ----- a blob-parameter fork -----

  /** A compiled blob-parameter fork is cancelled only with its own blob count and the version in force at its epoch;
      it is marked, and nothing else changes. */
  lemma BPOIsMarked(c: CL.Schedule, compiled: CL.Schedule, f: CancelledCL, i: int, k: int)
    requires f.version.Some? && IsBPO(f.name) && FirstAt(compiled.blobs, f.epoch, i)
    requires CL.SortedForks(compiled.forks) && CL.LastBegun(compiled.forks, f.epoch, k)
    requires f.epoch >= compiled.fulu && f.epoch !in compiled.cancelledBPOs
    requires forall j :: 0 <= j < |compiled.forks| ==> compiled.forks[j].epoch != f.epoch
    ensures var r := Remove(c, compiled, f);
            && (r.Some? <==> compiled.forks[k].version == f.version.value && compiled.blobs[i].maxBlobs == f.maxBlobs)
            && (r.Some? ==> r.value == Removal(c.(cancelledBPOs := c.cancelledBPOs + {f.epoch}), None, []))
  {
    BlobsAtAre(compiled.blobs, f.epoch);
    CL.ForkScanIsLast(compiled.forks[0], compiled.forks[1..], f.epoch, k);
  }

  /** One the compiled schedule does not have is recorded, if the entry says how many blobs it would have brought. */
  lemma AbsentBPOIsRecorded(c: CL.Schedule, compiled: CL.Schedule, f: CancelledCL)
    requires f.version.Some? && IsBPO(f.name)
    requires || f.epoch < compiled.fulu || f.epoch in compiled.cancelledBPOs
             || (exists j :: 0 <= j < |compiled.forks| && compiled.forks[j].epoch == f.epoch)
             || (forall j :: 0 <= j < |compiled.blobs| ==> compiled.blobs[j].epoch != f.epoch)
    ensures Remove(c, compiled, f) == if f.maxBlobs == 0 then None
                                      else Some(Removal(c, None, [CL.Blob(f.epoch, f.maxBlobs)]))
  {
    BlobsAtAre(compiled.blobs, f.epoch);
    if BlobsAt(compiled.blobs, f.epoch) != [] {
      assert BlobsAt(compiled.blobs, f.epoch)[0] in BlobsAt(compiled.blobs, f.epoch);
    }
  }

  // ----- one entry -----

  predicate ELOk(forks: seq<EL.Fork>, el: CancelledEL) {
    && el.name != "" && el.time != 0
    && ((exists f :: f in forks && f.name == el.name) ==>
          exists f :: f in forks && f.name == el.name && f.time == el.time)
  }

  predicate CLOk(cl: CancelledCL) {
    cl.name != "" && 0 < cl.epoch < MAX_UINT64 && cl.version.Some?
  }

  /** An entry is accepted when it is named and names a layer, its execution part is unknown to the compiled schedule
      or at the time it has there, its consensus part can be removed, and both parts mean one instant. */
  lemma AcceptedExactly(k: Compiled, c: CL.Schedule, f: CancelledFork)
    requires CL.Ticks(k.cl)
    ensures CancelOne(k, c, f).Some? <==>
      && f.fork != "" && (f.el.Some? || f.cl.Some?)
      && (f.el.Some? ==> ELOk(k.elForks, f.el.value))
      && (f.cl.Some? ==> CLOk(f.cl.value) && Remove(c, k.cl, f.cl.value).Some?)
      && (f.el.Some? && f.cl.Some? ==> EL.AsInt64(f.el.value.time) == CL.TimeAtEpoch(k.cl, f.cl.value.epoch))
    ensures CancelOne(k, c, f).Some? ==>
              var (after, x) := CancelOne(k, c, f).value;
              && x.fork == f.fork && x.el == f.el && x.cl == f.cl
              && (f.cl.None? ==> after == c && x.removedFork == None && x.removedBlobs == [])
              && (f.cl.Some? ==> var r := Remove(c, k.cl, f.cl.value).value;
                                 after == r.cl && x.removedFork == r.fork && x.removedBlobs == r.blobs)
  {
    if f.el.Some? {
      var el := f.el.value;
      assert EL.Fork(el.name, el.time) in k.elForks <==>
        exists x :: x in k.elForks && x.name == el.name && x.time == el.time by {
        if x :| x in k.elForks && x.name == el.name && x.time == el.time { assert x == EL.Fork(el.name, el.time); }
      }
    }
  }

  predicate ByInstant(k: Compiled, xs: seq<Cancellation>)
    requires CL.Ticks(k.cl)
  {
    forall i, j :: 0 <= i < j < |xs| ==> At(k, xs[i].el, xs[i].cl) <= At(k, xs[j].el, xs[j].cl)
  }

  lemma {:induction false} InsertHas(k: Compiled, xs: seq<Cancellation>, x: Cancellation)
    requires CL.Ticks(k.cl)
    ensures forall y :: y in InsertByInstant(k, xs, x) <==> y in xs || y == x
  {
    if xs != [] {
      InsertHas(k, xs[1..], x);
      assert xs == [xs[0]] + xs[1..];
    }
  }

  lemma PrependByInstant(k: Compiled, x: Cancellation, rest: seq<Cancellation>)
    requires CL.Ticks(k.cl) && ByInstant(k, rest)
    requires forall y :: y in rest ==> At(k, x.el, x.cl) <= At(k, y.el, y.cl)
    ensures ByInstant(k, [x] + rest)
  {
  }

  lemma {:induction false} InsertStaysByInstant(k: Compiled, xs: seq<Cancellation>, x: Cancellation)
    requires CL.Ticks(k.cl) && ByInstant(k, xs)
    ensures ByInstant(k, InsertByInstant(k, xs, x))
  {
    if xs != [] {
      var rest := xs[1..];
      if At(k, xs[0].el, xs[0].cl) <= At(k, x.el, x.cl) {
        InsertStaysByInstant(k, rest, x);
        InsertHas(k, rest, x);
        PrependByInstant(k, xs[0], InsertByInstant(k, rest, x));
      } else {
        PrependByInstant(k, x, xs);
      }
    }
  }

  /** The cancellations of an accepted list are kept in the order of their instants, one for each entry. */
  lemma {:induction false} RecordedByInstant(k: Compiled, list: seq<CancelledFork>)
    requires CL.Ticks(k.cl) && Apply(k, list).Some?
    ensures ByInstant(k, Apply(k, list).value.cancellations)
    ensures |Apply(k, list).value.cancellations| == |list|
    decreases |list|
  {
    if list != [] {
      var front, f := list[..|list| - 1], list[|list| - 1];
      RecordedByInstant(k, front);
      var n := Apply(k, front).value;
      InsertStaysByInstant(k, n.cancellations, CancelOne(k, n.cl, f).value.1);
      SizeOfInsert(k, n.cancellations, CancelOne(k, n.cl, f).value.1);
    }
  }

  lemma {:induction false} SizeOfInsert(k: Compiled, xs: seq<Cancellation>, x: Cancellation)
    requires CL.Ticks(k.cl)
    ensures |InsertByInstant(k, xs, x)| == |xs| + 1
  {
    if xs != [] { SizeOfInsert(k, xs[1..], x); }
  }
}
