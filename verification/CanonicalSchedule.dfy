/** Where consensus schedules come from, and what cancellations leave of them: genesis and Fulu stay. */
module CanonicalSchedule {
  import opened Text
  import opened Sorting
  import opened Heap
  import opened Collections
  import CL = ClSchedule
  import opened Cancel
  import CD = CancelDigests

  const FULU := "fulu"
  const ELECTRA := "electra"

  /** A fork of the name is scheduled at Fulu's epoch, or Fulu is not scheduled. */
  predicate NamesFulu(c: CL.Schedule) {
    c.fulu == MAX_UINT64
    || exists i :: 0 <= i < |c.forks| && EqualFold(c.forks[i].name, FULU) && c.forks[i].epoch == c.fulu
  }

  /** In order, from genesis on, with Fulu's fork. */
  predicate Sturdy(c: CL.Schedule) {
    CL.Ordered(c) && c.forks[0].epoch == 0 && NamesFulu(c)
  }

  lemma SturdyIsSound(c: CL.Schedule)
    requires Sturdy(c)
    ensures CL.Regular(c) && CL.FuluCovered(c)
  {
  }

  // ----- cancellations -----

  lemma FuluStays(c: CL.Schedule, name: string)
    requires ForkNamed(c.forks, name).Some? && NamesFulu(c) && !EqualFold(name, FULU)
    ensures NamesFulu(c.(forks := WithoutFork(c.forks, name)))
  {
    if c.fulu != MAX_UINT64 {
      var i :| 0 <= i < |c.forks| && EqualFold(c.forks[i].name, FULU) && c.forks[i].epoch == c.fulu;
      var a, b := CD.ForkTakenOut(c.forks, name);
      var w := WithoutFork(c.forks, name);
      var gone := ForkNamed(c.forks, name).value;
      NamedHasTheName(c.forks, name);
      assert c.forks[|a|] == gone && i != |a|;
      assert w[if i < |a| then i else i - 1] == c.forks[i];
    }
  }

  lemma {:induction false} NamedHasTheName(forks: seq<CL.Fork>, name: string)
    requires ForkNamed(forks, name).Some?
    ensures EqualFold(ForkNamed(forks, name).value.name, name)
  {
    if !EqualFold(forks[0].name, name) { NamedHasTheName(forks[1..], name); }
  }

  /** Genesis is not a scheduled epoch, so no entry takes a fork from it. */
  lemma GenesisStays(forks: seq<CL.Fork>, name: string)
    requires ForkNamed(forks, name).Some? && forks[0].epoch == 0 && ForkNamed(forks, name).value.epoch != 0
    ensures WithoutFork(forks, name) != [] && WithoutFork(forks, name)[0] == forks[0]
  {
  }

  lemma OneKeepsSturdy(k: Compiled, c: CL.Schedule, f: CancelledFork)
    requires CL.Ticks(k.cl) && Sturdy(c) && CancelOne(k, c, f).Some?
    ensures Sturdy(CancelOne(k, c, f).value.0)
  {
    if f.cl.Some? && !IsBPO(f.cl.value.name) && ForkNamed(c.forks, f.cl.value.name).Some? {
      var name := f.cl.value.name;
      CD.ForkLess(c.forks, name, c.forks[0]);
      CD.BlobsLess(c.blobs, ForkNamed(c.forks, name).value.epoch);
      GenesisStays(c.forks, name);
      FuluStays(c, name);
    }
  }

  lemma {:induction false} StaysSturdy(k: Compiled, list: seq<CancelledFork>)
    requires CL.Ticks(k.cl) && Sturdy(k.cl) && Apply(k, list).Some?
    ensures Sturdy(Apply(k, list).value.cl)
    decreases |list|
  {
    if list != [] {
      var front := list[..|list| - 1];
      StaysSturdy(k, front);
      OneKeepsSturdy(k, Apply(k, front).value.cl, list[|list| - 1]);
    }
  }

  lemma OneKeepsTiming(k: Compiled, c: CL.Schedule, f: CancelledFork)
    requires CL.Ticks(k.cl) && CancelOne(k, c, f).Some?
    ensures var t := CancelOne(k, c, f).value.0;
            t.secondsPerSlot == c.secondsPerSlot && t.slotsPerEpoch == c.slotsPerEpoch
  {
  }

  lemma {:induction false} KeepsTiming(k: Compiled, list: seq<CancelledFork>)
    requires CL.Ticks(k.cl) && Apply(k, list).Some?
    ensures var t := Apply(k, list).value.cl;
            t.secondsPerSlot == k.cl.secondsPerSlot && t.slotsPerEpoch == k.cl.slotsPerEpoch
    decreases |list|
  {
    if list != [] {
      var front := list[..|list| - 1];
      KeepsTiming(k, front);
      OneKeepsTiming(k, Apply(k, front).value.cl, list[|list| - 1]);
    }
  }

  /** Any accepted list of cancellations leaves a sturdy schedule in order, from genesis on, with Fulu covered and
      every digest in the membership cache. */
  lemma CancellationsKeepSturdy(k: Compiled, list: seq<CancelledFork>, epoch: nat)
    requires CL.Ticks(k.cl) && Sturdy(k.cl) && Apply(k, list).Some?
    ensures var c := Apply(k, list).value.cl;
            && Sturdy(c) && CL.Regular(c) && CL.FuluCovered(c) && CL.Ticks(c)
            && (CL.DigestAt(c, epoch).Some? ==> CL.DigestAt(c, epoch).value in CL.Digests(c))
  {
    var c := Apply(k, list).value.cl;
    StaysSturdy(k, list);
    KeepsTiming(k, list);
    SturdyIsSound(c);
    if CL.DigestAt(c, epoch).Some? { CL.EveryDigestIsMember(c, epoch); }
  }

  // ----- built-in networks -----

  const ELECTRA_MAX_BLOBS: Uint64 := 9

  function ElectraBlobs(forks: seq<CL.Fork>): seq<CL.Blob> {
    if forks == [] then []
    else
      ElectraBlobs(forks[..|forks| - 1])
      + if forks[|forks| - 1].name == ELECTRA then [CL.Blob(forks[|forks| - 1].epoch, ELECTRA_MAX_BLOBS)] else []
  }

  function FuluEpoch(forks: seq<CL.Fork>): Uint64 {
    if forks == [] then MAX_UINT64
    else if forks[|forks| - 1].name == FULU then forks[|forks| - 1].epoch
    else FuluEpoch(forks[..|forks| - 1])
  }

  function Built(genesis: Uint64, forks: seq<CL.Fork>, bpos: seq<CL.Blob>): CL.Schedule {
    CL.Schedule(genesis, 12, 32, forks, FuluEpoch(forks), ElectraBlobs(forks) + bpos, {})
  }

  /** compiledCL: Fulu's epoch and the Electra blob entry come from the named forks. */
  method CompiledCL(genesis: Uint64, forks: seq<CL.Fork>, bpos: seq<CL.Blob>) returns (c: CL.Schedule)
    ensures c == Built(genesis, forks, bpos)
  {
    var kept: seq<CL.Fork>, blobs: seq<CL.Blob>, fulu: Uint64 := [], [], MAX_UINT64;
    for i := 0 to |forks|
      invariant kept == forks[..i] && blobs == ElectraBlobs(forks[..i]) && fulu == FuluEpoch(forks[..i])
    {
      assert forks[..i + 1][..i] == forks[..i];
      kept := kept + [forks[i]];
      if forks[i].name == ELECTRA {
        blobs := blobs + [CL.Blob(forks[i].epoch, ELECTRA_MAX_BLOBS)];
      } else if forks[i].name == FULU {
        fulu := forks[i].epoch;
      }
    }
    assert forks[..|forks|] == forks;
    c := CL.Schedule(genesis, 12, 32, kept, fulu, blobs + bpos, {});
  }

  /** Fulu is covered in every built-in schedule, whatever its table says. */
  lemma {:induction false} BuiltCoversFulu(genesis: Uint64, forks: seq<CL.Fork>, bpos: seq<CL.Blob>)
    ensures NamesFulu(Built(genesis, forks, bpos)) && CL.FuluCovered(Built(genesis, forks, bpos))
    decreases |forks|
  {
    var c := Built(genesis, forks, bpos);
    if forks != [] {
      var front := forks[..|forks| - 1];
      BuiltCoversFulu(genesis, front, bpos);
      if c.fulu != MAX_UINT64 {
        if forks[|forks| - 1].name == FULU {
          assert EqualFold(forks[|forks| - 1].name, FULU);
        } else {
          var i :| 0 <= i < |front| && EqualFold(front[i].name, FULU) && front[i].epoch == c.fulu;
          assert c.forks[i] == front[i];
        }
      }
    }
  }

  lemma {:induction false} ElectraBlobsFollow(forks: seq<CL.Fork>)
    requires CL.SortedForks(forks)
    ensures CL.SortedBlobs(ElectraBlobs(forks))
    ensures forall b :: b in ElectraBlobs(forks) ==> exists f :: f in forks && f.name == ELECTRA && f.epoch == b.epoch
    decreases |forks|
  {
    if forks != [] {
      var front, last := forks[..|forks| - 1], forks[|forks| - 1];
      ElectraBlobsFollow(front);
      assert forks == front + [last];
      forall b | b in ElectraBlobs(front) ensures b.epoch <= last.epoch {
        var f :| f in front && f.name == ELECTRA && f.epoch == b.epoch;
        var i :| 0 <= i < |front| && front[i] == f;
        assert forks[i] == f;
      }
    }
  }

  /** A table in epoch order from genesis on, whose blob forks come after Electra, gives a sturdy schedule. */
  lemma BuiltIsSturdy(genesis: Uint64, forks: seq<CL.Fork>, bpos: seq<CL.Blob>)
    requires CL.SortedForks(forks) && CL.SortedBlobs(bpos) && forks != [] && forks[0].epoch == 0
    requires forall f, b :: f in forks && f.name == ELECTRA && b in bpos ==> f.epoch <= b.epoch
    ensures Sturdy(Built(genesis, forks, bpos)) && CL.Ticks(Built(genesis, forks, bpos))
  {
    ElectraBlobsFollow(forks);
    BuiltCoversFulu(genesis, forks, bpos);
    var e := ElectraBlobs(forks);
    forall i, j | 0 <= i < j < |e + bpos| ensures (e + bpos)[i].epoch <= (e + bpos)[j].epoch {
      if i < |e| <= j {
        assert e[i] in e;
        var f :| f in forks && f.name == ELECTRA && f.epoch == e[i].epoch;
        assert bpos[j - |e|] in bpos;
      }
    }
  }

  // ----- devnets -----

  /** A configured fork; its version is as written in the file. */
  datatype ForkConfig = ForkConfig(name: string, epoch: Uint64, version: string)

  function Stripped(version: string): string {
    TrimHexPrefix(TrimSpace(version))
  }

  function DecodeVersion(version: string): Option<Hash4> {
    var bytes := DecodeHex(Stripped(version));
    if bytes.Some? && |bytes.value| == 4 then Some(bytes.value) else None
  }

  /** The forks that have a version and an epoch; None when a version does not decode. */
  function DevnetForks(configs: seq<ForkConfig>): Option<seq<CL.Fork>> {
    if configs == [] then Some([])
    else
      var before, x := DevnetForks(configs[..|configs| - 1]), configs[|configs| - 1];
      if before.None? then None
      else if Stripped(x.version) == "" || x.epoch == MAX_UINT64 then before
      else
        var version := DecodeVersion(Stripped(x.version));
        if version.None? then None else Some(before.value + [CL.Fork(ToLower(x.name), x.epoch, version.value)])
  }

  /** RegisterDevnet's consensus schedule; None where it reports an error. */
  function Registered(genesis: Uint64, secondsPerSlot: Uint64, slotsPerEpoch: Uint64, configs: seq<ForkConfig>,
                      fulu: Uint64, blobs: seq<CL.Blob>): Option<CL.Schedule>
  {
    if genesis == 0 || secondsPerSlot == 0 || slotsPerEpoch == 0 || genesis > MAX_INT64
       || secondsPerSlot * slotsPerEpoch > MAX_UINT64
    then None
    else
      var forks := DevnetForks(configs);
      if forks.None? || forks.value == [] || (fulu != MAX_UINT64 && blobs == []) then None
      else Some(CL.Schedule(genesis, secondsPerSlot, slotsPerEpoch, Sort(ByKey(CD.ForkKey), forks.value), fulu,
                            Sort(ByKey(CD.BlobKey), blobs), {}))
  }

  lemma KeyIsWeak<T(!new)>(key: T -> int)
    ensures WeakOrder(ByKey(key))
  {
  }

  lemma AscendingIsSorted<T(!new)>(key: T -> int, list: seq<T>)
    requires Ascending(ByKey(key), list)
    ensures CD.SortedBy(key, list)
  {
    forall i, j | 0 <= i < j < |list| ensures key(list[i]) <= key(list[j]) {
      assert !ByKey(key)(list[j], list[i]);
    }
  }

  /** A registered devnet's schedule ticks and is in order. */
  lemma RegisteredIsOrdered(genesis: Uint64, secondsPerSlot: Uint64, slotsPerEpoch: Uint64, configs: seq<ForkConfig>,
                            fulu: Uint64, blobs: seq<CL.Blob>)
    requires Registered(genesis, secondsPerSlot, slotsPerEpoch, configs, fulu, blobs).Some?
    ensures var c := Registered(genesis, secondsPerSlot, slotsPerEpoch, configs, fulu, blobs).value;
            CL.Ticks(c) && CL.Ordered(c)
  {
    var c := Registered(genesis, secondsPerSlot, slotsPerEpoch, configs, fulu, blobs).value;
    var forks := DevnetForks(configs).value;
    assert secondsPerSlot * slotsPerEpoch > 0;
    KeyIsWeak(CD.ForkKey);
    KeyIsWeak(CD.BlobKey);
    SortAscends(ByKey(CD.ForkKey), forks);
    SortAscends(ByKey(CD.BlobKey), blobs);
    SortContent(ByKey(CD.ForkKey), forks);
    AscendingIsSorted(CD.ForkKey, c.forks);
    AscendingIsSorted(CD.BlobKey, c.blobs);
    assert CD.SortedBy(CD.ForkKey, c.forks) && CD.SortedBy(CD.BlobKey, c.blobs);
  }

  /** What the loader reads from a devnet's files: versions in file order, epochs by name. */
  datatype DevnetFiles = DevnetFiles(order: seq<string>, versions: map<string, string>, epochs: map<string, Uint64>,
                                     electra: CL.Blob, blobs: seq<CL.Blob>)

  const FULU_KEY := "FULU"

  function VersionOf(d: DevnetFiles, name: string): string {
    if name in d.versions then d.versions[name] else ""
  }

  function EpochOf(d: DevnetFiles, name: string): Uint64 {
    if name in d.epochs then d.epochs[name] else MAX_UINT64
  }

  function Configs(d: DevnetFiles): seq<ForkConfig> {
    seq(|d.order|, i requires 0 <= i < |d.order| =>
      ForkConfig(d.order[i], EpochOf(d, d.order[i]), VersionOf(d, d.order[i])))
  }

  /** A name is listed for every version that is not empty. */
  predicate Listed(d: DevnetFiles) {
    forall n :: n in d.versions && d.versions[n] != "" ==> n in d.order
  }

  /** Only a Fulu with a version text and an epoch brings the blob schedule with it. */
  function Loaded(d: DevnetFiles, genesis: Uint64, secondsPerSlot: Uint64, slotsPerEpoch: Uint64): Option<CL.Schedule> {
    var active := EpochOf(d, FULU_KEY) != MAX_UINT64 && VersionOf(d, FULU_KEY) != "";
    Registered(genesis, secondsPerSlot, slotsPerEpoch, Configs(d), EpochOf(d, FULU_KEY),
               if active then [d.electra] + d.blobs else [])
  }

  lemma {:induction false} KeptFork(configs: seq<ForkConfig>, x: ForkConfig)
    requires DevnetForks(configs).Some? && x in configs && Stripped(x.version) != "" && x.epoch != MAX_UINT64
    ensures exists f :: f in DevnetForks(configs).value && f.name == ToLower(x.name) && f.epoch == x.epoch
    decreases |configs|
  {
    var front, last := configs[..|configs| - 1], configs[|configs| - 1];
    assert configs == front + [last];
    if x in front {
      KeptFork(front, x);
      var f :| f in DevnetForks(front).value && f.name == ToLower(x.name) && f.epoch == x.epoch;
      assert f in DevnetForks(configs).value;
    } else {
      var all := DevnetForks(configs).value;
      assert all[|all| - 1] in all;
    }
  }

  lemma SortedHas(forks: seq<CL.Fork>, f: CL.Fork) returns (j: nat)
    requires f in forks
    ensures var s := Sort(ByKey(CD.ForkKey), forks); j < |s| && s[j] == f
  {
    var s := Sort(ByKey(CD.ForkKey), forks);
    SortContent(ByKey(CD.ForkKey), forks);
    SameElements(s, forks);
    j :| 0 <= j < |s| && s[j] == f;
  }

  lemma FuluIsKept(d: DevnetFiles) returns (f: CL.Fork)
    requires Listed(d) && DevnetForks(Configs(d)).Some?
    requires EpochOf(d, FULU_KEY) != MAX_UINT64 && Stripped(VersionOf(d, FULU_KEY)) != ""
    requires VersionOf(d, FULU_KEY) != ""
    ensures f in DevnetForks(Configs(d)).value && EqualFold(f.name, FULU) && f.epoch == EpochOf(d, FULU_KEY)
  {
    var i :| 0 <= i < |d.order| && d.order[i] == FULU_KEY;
    var x := ForkConfig(FULU_KEY, EpochOf(d, FULU_KEY), VersionOf(d, FULU_KEY));
    assert Configs(d)[i] == x;
    KeptFork(Configs(d), x);
    f :| f in DevnetForks(Configs(d)).value && f.name == ToLower(FULU_KEY) && f.epoch == x.epoch;
    ToLowerIdempotent(FULU_KEY);
  }

  /** A loaded devnet covers Fulu when the Fulu version is more than a bare prefix. */
  lemma LoadedCoversFulu(d: DevnetFiles, genesis: Uint64, secondsPerSlot: Uint64, slotsPerEpoch: Uint64)
    requires Listed(d) && Loaded(d, genesis, secondsPerSlot, slotsPerEpoch).Some?
    requires VersionOf(d, FULU_KEY) != "" ==> Stripped(VersionOf(d, FULU_KEY)) != ""
    ensures NamesFulu(Loaded(d, genesis, secondsPerSlot, slotsPerEpoch).value)
    ensures CL.FuluCovered(Loaded(d, genesis, secondsPerSlot, slotsPerEpoch).value)
  {
    var c := Loaded(d, genesis, secondsPerSlot, slotsPerEpoch).value;
    if c.fulu != MAX_UINT64 {
      var f := FuluIsKept(d);
      var j := SortedHas(DevnetForks(Configs(d)).value, f);
      assert c.forks[j] == f;
    }
  }

  lemma {:induction false} KeptFrom(configs: seq<ForkConfig>, f: CL.Fork)
    requires DevnetForks(configs).Some? && f in DevnetForks(configs).value
    ensures exists x :: x in configs && Stripped(x.version) != "" && x.epoch == f.epoch
    decreases |configs|
  {
    var front, last := configs[..|configs| - 1], configs[|configs| - 1];
    assert configs == front + [last];
    if f in DevnetForks(front).value {
      KeptFrom(front, f);
      var x :| x in front && Stripped(x.version) != "" && x.epoch == f.epoch;
      assert x in configs;
    } else {
      assert last in configs;
    }
  }

  /** The files put some fork with a usable version, or some blob entry, at Fulu's epoch. */
  ghost predicate FuluListed(d: DevnetFiles) {
    var fulu := EpochOf(d, FULU_KEY);
    || fulu == MAX_UINT64 || fulu == 0
    || (exists n :: n in d.order && EpochOf(d, n) == fulu && Stripped(VersionOf(d, n)) != "")
    || (exists b :: b in [d.electra] + d.blobs && b.epoch == fulu)
  }

  lemma ListedFork(d: DevnetFiles, forks: seq<CL.Fork>)
    requires DevnetForks(Configs(d)) == Some(forks) && EpochOf(d, FULU_KEY) != MAX_UINT64
    ensures (exists f :: f in forks && f.epoch == EpochOf(d, FULU_KEY)) <==>
            (exists n :: n in d.order && EpochOf(d, n) == EpochOf(d, FULU_KEY) && Stripped(VersionOf(d, n)) != "")
  {
    var fulu := EpochOf(d, FULU_KEY);
    if n :| n in d.order && EpochOf(d, n) == fulu && Stripped(VersionOf(d, n)) != "" {
      var i :| 0 <= i < |d.order| && d.order[i] == n;
      KeptFork(Configs(d), Configs(d)[i]);
    }
    if f :| f in forks && f.epoch == fulu {
      KeptFrom(Configs(d), f);
      var x :| x in Configs(d) && Stripped(x.version) != "" && x.epoch == f.epoch;
      assert x.name in d.order;
    }
  }

  /** The digest of a loaded devnet is constant up to the computed next epoch exactly when its files list a transition
      at Fulu's epoch. */
  lemma LoadedIsConstantExactly(d: DevnetFiles, genesis: Uint64, secondsPerSlot: Uint64, slotsPerEpoch: Uint64)
    requires Loaded(d, genesis, secondsPerSlot, slotsPerEpoch).Some?
    ensures CL.ConstantUntilNext(Loaded(d, genesis, secondsPerSlot, slotsPerEpoch).value) <==> FuluListed(d)
  {
    var c := Loaded(d, genesis, secondsPerSlot, slotsPerEpoch).value;
    var fulu := EpochOf(d, FULU_KEY);
    var blobs := if fulu != MAX_UINT64 && VersionOf(d, FULU_KEY) != "" then [d.electra] + d.blobs else [];
    RegisteredIsOrdered(genesis, secondsPerSlot, slotsPerEpoch, Configs(d), fulu, blobs);
    CL.DigestConstantUntilNext(c);
    if fulu != MAX_UINT64 {
      var forks := DevnetForks(Configs(d)).value;
      ListedFork(d, forks);
      SameContent(ByKey(CD.ForkKey), forks);
      SameContent(ByKey(CD.BlobKey), blobs);
      assert (exists f :: f in c.forks && f.epoch == fulu) <==> exists f :: f in forks && f.epoch == fulu;
      assert (exists b :: b in c.blobs && b.epoch == fulu) <==> exists b :: b in blobs && b.epoch == fulu;
    }
  }

  lemma SameContent<T(!new)>(less: (T, T) -> bool, list: seq<T>)
    ensures forall x :: x in Sort(less, list) <==> x in list
  {
    SortContent(less, list);
    SameElements(Sort(less, list), list);
  }

  lemma EncodedIsStripped(h: Hash4)
    ensures Stripped(EncodeHex(h)) == EncodeHex(h) && DecodeVersion(EncodeHex(h)) == Some(h)
  {
    var s := EncodeHex(h);
    HexDigitsOnly(h);
    assert HexValue(s[0]).Some? && HexValue(s[1]).Some? && HexValue(s[|s| - 1]).Some?;
    assert TrimLeft(s) == s && TrimRight(s) == s;
    DecodeEncode(h);
  }

  lemma ForkTaken(configs: seq<ForkConfig>, x: ForkConfig, h: Hash4)
    requires DevnetForks(configs).Some? && x.version == EncodeHex(h) && x.epoch != MAX_UINT64
    ensures DevnetForks(configs + [x]) == Some(DevnetForks(configs).value + [CL.Fork(ToLower(x.name), x.epoch, h)])
  {
    EncodedIsStripped(h);
    assert (configs + [x])[..|configs|] == configs;
  }

  lemma ForkDropped(configs: seq<ForkConfig>, x: ForkConfig)
    requires Stripped(x.version) == ""
    ensures DevnetForks(configs + [x]) == DevnetForks(configs)
  {
    assert (configs + [x])[..|configs|] == configs;
  }

  lemma BareIsEmpty()
    ensures Stripped("0x") == ""
  {
    var s := "0x";
    assert s[0] == '0' && s[1] == 'x' && |s| == 2;
    assert TrimLeft(s) == s;
    assert TrimRight(s) == s;
  }

  const GENESIS_KEY := "GENESIS"

  /** Two forks, Fulu at epoch 10 with nothing after the prefix of its version. */
  function BareFulu(genesis: Hash4): DevnetFiles {
    DevnetFiles([GENESIS_KEY, FULU_KEY], map[GENESIS_KEY := EncodeHex(genesis), FULU_KEY := "0x"],
                map[GENESIS_KEY := 0, FULU_KEY := 10], CL.Blob(0, 9), [])
  }

  lemma BareForks(genesis: Hash4)
    ensures DevnetForks(Configs(BareFulu(genesis))) == Some([CL.Fork(ToLower(GENESIS_KEY), 0, genesis)])
  {
    var one := ForkConfig(GENESIS_KEY, 0, EncodeHex(genesis));
    var two := ForkConfig(FULU_KEY, 10, "0x");
    assert FULU_KEY != GENESIS_KEY;
    assert Configs(BareFulu(genesis)) == [one] + [two];
    BareIsEmpty();
    ForkTaken([], one, genesis);
    ForkDropped([one], two);
    var f := CL.Fork(ToLower(GENESIS_KEY), 0, genesis);
    assert [] + [one] == [one] && [] + [f] == [f];
  }

  /** With a bare prefix for its version the loader drops Fulu's fork and keeps its epoch: such a devnet is registered,
      and its digest changes at an epoch that is none of its transitions. */
  lemma BarePrefixUncoversFulu(genesis: Hash4)
    ensures var c := Loaded(BareFulu(genesis), 1, 12, 32);
            c.Some? && CL.Ordered(c.value) && !CL.FuluCovered(c.value)
            && !CL.ConstantUntilNext(c.value)
  {
    var f := CL.Fork(ToLower(GENESIS_KEY), 0, genesis);
    BareForks(genesis);
    CD.SortedStays(CD.ForkKey, [f]);
    CD.SortedStays(CD.BlobKey, [CL.Blob(0, 9)]);
    assert [CL.Blob(0, 9)] + [] == [CL.Blob(0, 9)];
    var c := CL.Schedule(1, 12, 32, [f], 10, [CL.Blob(0, 9)], {});
    assert Loaded(BareFulu(genesis), 1, 12, 32) == Some(c);
    assert CL.Ordered(c) && !CL.FuluCovered(c);
    CL.DigestConstantUntilNext(c);
  }
}
