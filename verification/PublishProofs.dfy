/** Safety of the commit protocol over every run. */
module PublishProofs {
  import opened Text
  import opened Publish

  // ----- systems and runs -----

  /** commits records every manifest write that took effect; instants every generation instant an attempt used. */
  datatype System = System(store: Store, procs: map<nat, Process>, commits: seq<Commit>, instants: set<int>,
                           distinct: bool)

  function ReplyOf(e: Event): Option<Reply> {
    match e
    case GetVersion(r) => Some(r)
    case Reconcile(r) => Some(r)
    case CleanupRead(r) => Some(r)
    case Restart(r, _) => Some(r)
    case _ => None
  }

  /** Every manifest that was ever stored. */
  predicate WasStored(s: System, m: Option<Manifest>) {
    m == s.store.manifest
    || exists i :: 0 <= i < |s.commits| && (m == s.commits[i].replaced || m == Some(s.commits[i].next))
  }

  /** Reads may be stale, but report only what was once stored. */
  predicate Honest(s: System, e: Event) {
    var r := ReplyOf(e);
    r.Some? && r.value.Seen? ==> WasStored(s, r.value.manifest)
  }

  predicate Linearizable(s: System, e: Event) {
    var r := ReplyOf(e);
    r.Some? && r.value.Seen? ==> r.value.manifest == s.store.manifest
  }

  function Advance(s: System, id: nat, e: Event): Option<System>
    requires id in s.procs
  {
    var o := Step(s.store, s.procs[id], e);
    if o.None? then None
    else
      var p := o.value.process;
      var began := s.procs[id].pc.Idle? && p.pc.Uploading?;
      Some(System(o.value.store, s.procs[id := p],
                  if o.value.commit.Some? then s.commits + [o.value.commit.value] else s.commits,
                  if began then s.instants + {p.pc.m.at} else s.instants,
                  s.distinct && (began ==> p.pc.m.at !in s.instants)))
  }

  ghost predicate Next(s: System, t: System) {
    exists id, e :: id in s.procs && Honest(s, e) && Advance(s, id, e) == Some(t)
  }

  /** Generation keys of a stored manifest are the ones its instant dictates, which reading validates. */
  predicate WellKeyed(m: Manifest) {
    forall n :: n in m.networks ==> m.networks[n].key == Generation(n, m.at)
  }

  predicate NotStarted(p: Process) {
    p.pc == Stopped && p.issued == 0 && p.prev == None && !p.forceUsed && !p.forcePending
  }

  ghost predicate Init(s: System) {
    && s.commits == [] && s.distinct
    && ContentMatches(s.store)
    && (s.store.manifest.Some? ==> WellKeyed(s.store.manifest.value) && s.store.manifest.value.at in s.instants)
    && forall id :: id in s.procs ==> s.procs[id].id == id && NotStarted(s.procs[id])
  }

  ghost predicate Run(states: seq<System>) {
    states != [] && Init(states[0]) && forall i :: 0 <= i < |states| - 1 ==> Next(states[i], states[i + 1])
  }

  // ----- the properties -----

  predicate Complete(st: Store) {
    st.manifest.Some? ==> forall n :: n in st.manifest.value.networks ==>
        st.manifest.value.networks[n].key in st.objects
  }

  predicate ContentMatches(st: Store) {
    st.manifest.Some? ==> forall n :: n in st.manifest.value.networks ==>
      var g := st.manifest.value.networks[n]; g.key in st.objects && st.objects[g.key] == g.sum
  }

  predicate Supersedes(c: Commit) {
    c.replaced.Some? ==>
      && c.next.at > c.replaced.value.at
      && (c.replaced == c.prev || c.replaced.value.run == c.next.run)
  }

  // ----- every writer interleaved: what a committed manifest replaces -----

  predicate Chained(s: System) {
    && (forall i :: 0 <= i < |s.commits| ==> Supersedes(s.commits[i]))
    && (forall i :: 0 <= i < |s.commits| - 1 ==> s.commits[i + 1].replaced == Some(s.commits[i].next))
    && (s.commits != [] ==> s.store.manifest == Some(s.commits[|s.commits| - 1].next))
  }

  lemma {:induction false} LaterIsLater(s: System, i: nat, j: nat)
    requires Chained(s) && i < j < |s.commits|
    ensures s.commits[i].next.at < s.commits[j].next.at
    decreases j
  {
    assert s.commits[(j - 1) + 1].replaced == Some(s.commits[j - 1].next);
    if i < j - 1 { LaterIsLater(s, i, j - 1); }
  }

  /** Two manifests that were both stored and share an instant are one manifest. */
  lemma StoredOnce(s: System, a: Manifest, b: Manifest)
    requires Chained(s) && WasStored(s, Some(a)) && WasStored(s, Some(b)) && a.at == b.at
    ensures a == b
  {
    var i := StoredIndex(s, a);
    var j := StoredIndex(s, b);
    if s.commits != [] {
      if 0 <= i < j { LaterIsLater(s, i, j); }
      if 0 <= j < i { LaterIsLater(s, j, i); }
      if i == -1 && j >= 0 && j > 0 { LaterIsLater(s, 0, j); }
      if j == -1 && i >= 0 && i > 0 { LaterIsLater(s, 0, i); }
    }
  }

  /** A stored manifest is the first one ever or the result of a recorded commit. */
  lemma StoredIndex(s: System, m: Manifest) returns (i: int)
    requires Chained(s) && WasStored(s, Some(m))
    ensures -1 <= i < |s.commits|
    ensures i == -1 ==> if s.commits == [] then s.store.manifest == Some(m) else s.commits[0].replaced == Some(m)
    ensures i >= 0 ==> s.commits[i].next == m
  {
    if Some(m) == s.store.manifest {
      i := |s.commits| - 1;
    } else {
      var k :| 0 <= k < |s.commits| && (Some(m) == s.commits[k].replaced || Some(m) == Some(s.commits[k].next));
      if Some(m) == Some(s.commits[k].next) { i := k; } else if k == 0 { i := -1; } else {
        i := k - 1;
        assert s.commits[(k - 1) + 1].replaced == Some(s.commits[k - 1].next);
      }
    }
  }

  /** prev is a manifest that was stored, or one of this run at an instant whose stored manifest is also of this run. */
  ghost predicate PrevKnown(s: System, p: Process) {
    p.prev.Some? ==>
      WasStored(s, p.prev)
      || (p.prev.value.run == p.run && exists m :: WasStored(s, Some(m)) && m.run == p.run && m.at == p.prev.value.at)
  }

  /** The manifest in flight is later than prev, and a put expects a manifest it may replace. */
  predicate InFlight(s: System, p: Process) {
    match p.pc
    case Uploading(m, _, _) => Later(p, m)
    case Committing(m, _) => Later(p, m)
    case Reconciling(m, _, _) => Later(p, m)
    case Putting(m, _, expected) =>
      && Later(p, m)
      && (expected.Some? ==>
            && WasStored(s, expected) && expected.value.at < m.at
            && (expected.value.run == m.run || (p.prev.Some? && expected.value.at == p.prev.value.at)))
    case _ => true
  }

  predicate Later(p: Process, m: Manifest) {
    m.run == p.run && m.crawler == p.cfg.crawler && (p.prev.Some? ==> m.at > p.prev.value.at)
  }

  ghost predicate ChainInv(s: System) {
    && Chained(s)
    && forall id :: id in s.procs ==> PrevKnown(s, s.procs[id]) && InFlight(s, s.procs[id])
  }

  lemma StoredStays(s: System, t: System, id: nat, e: Event, m: Option<Manifest>)
    requires id in s.procs && Advance(s, id, e) == Some(t) && WasStored(s, m)
    ensures WasStored(t, m)
  {
    if m == s.store.manifest {
      if t.commits != s.commits { assert t.commits[|s.commits|].replaced == m; }
    } else {
      var i :| 0 <= i < |s.commits| && (m == s.commits[i].replaced || m == Some(s.commits[i].next));
      assert t.commits[i] == s.commits[i];
    }
  }

  lemma CommitSupersedes(s: System, p: Process)
    requires ChainInv(s) && p.id in s.procs && s.procs[p.id] == p && p.pc.Putting? && s.store.manifest == p.pc.expected
    ensures Supersedes(Commit(p.id, p.incarnation, p.pc.forced, p.prev, s.store.manifest, p.pc.m))
  {
    assert PrevKnown(s, p) && InFlight(s, p);
    var e := p.pc.expected;
    if e.Some? && e.value.run != p.pc.m.run {
      if WasStored(s, p.prev) {
        StoredOnce(s, e.value, p.prev.value);
      } else {
        var m :| WasStored(s, Some(m)) && m.run == p.run && m.at == p.prev.value.at;
        StoredOnce(s, e.value, m);
      }
    }
  }

  lemma ChainStep(s: System, t: System, id: nat, e: Event)
    requires ChainInv(s) && id in s.procs && s.procs[id].id == id && Honest(s, e) && Advance(s, id, e) == Some(t)
    ensures ChainInv(t)
  {
    var p, p' := s.procs[id], t.procs[id];
    assert PrevKnown(s, p) && InFlight(s, p);
    ChainGrows(s, t, id, e);
    OthersCarried(s, t, id, e);
    Carry(s, t, id, e, p);
    PrevStep(s, t, id, e);
    FlightStep(s, t, id, e);
  }

  lemma ChainGrows(s: System, t: System, id: nat, e: Event)
    requires ChainInv(s) && id in s.procs && s.procs[id].id == id && Advance(s, id, e) == Some(t)
    ensures Chained(t)
  {
    if e.PutIfVersion? {
      if e.effect { CommitSupersedes(s, s.procs[id]); }
    } else {
      StoresNothing(s.store, s.procs[id], e);
    }
  }

  lemma StoresNothing(st: Store, p: Process, e: Event)
    requires !e.PutIfVersion? && Step(st, p, e).Some?
    ensures var o := Step(st, p, e).value; o.commit.None? && o.store.manifest == st.manifest
  {
  }

  lemma OthersCarried(s: System, t: System, id: nat, e: Event)
    requires ChainInv(s) && id in s.procs && Advance(s, id, e) == Some(t)
    ensures forall other :: other in t.procs && other != id ==>
        PrevKnown(t, t.procs[other]) && InFlight(t, t.procs[other])
  {
    forall other | other in t.procs && other != id ensures PrevKnown(t, t.procs[other]) && InFlight(t, t.procs[other]) {
      var q := s.procs[other];
      assert PrevKnown(s, q) && InFlight(s, q);
      Carry(s, t, id, e, q);
    }
  }

  lemma Carry(s: System, t: System, id: nat, e: Event, q: Process)
    requires id in s.procs && Advance(s, id, e) == Some(t) && PrevKnown(s, q) && InFlight(s, q)
    ensures PrevKnown(t, q) && InFlight(t, q)
  {
    if q.prev.Some? {
      if WasStored(s, q.prev) {
        StoredStays(s, t, id, e, q.prev);
      } else {
        var m :| WasStored(s, Some(m)) && m.run == q.run && m.at == q.prev.value.at;
        StoredStays(s, t, id, e, Some(m));
      }
    }
    if q.pc.Putting? && q.pc.expected.Some? {
      StoredStays(s, t, id, e, q.pc.expected);
    }
  }

  lemma PutPrev(st: Store, p: Process, effect: bool, put: PutReply)
    requires PutStep(st, p, effect, put).Some?
    ensures var o := PutStep(st, p, effect, put).value;
            && o.process.run == p.run
            && (o.process.prev == p.prev || (o.process.prev == o.store.manifest == Some(p.pc.m)))
  {
  }

  lemma ReconcilePrev(p: Process, m: Manifest, forced: bool, error: CommitError, reply: Reply)
    ensures var p' := ReconcileStep(p, m, forced, error, reply);
            && p'.run == p.run
            && (p'.prev == p.prev || (reply.Seen? && reply.manifest.Some? && (
                  p'.prev == reply.manifest || (p'.prev == Some(m) && StoredIsOwn(reply.manifest, m)))))
  {
  }

  lemma OthersKeepPrev(st: Store, p: Process, e: Event)
    requires !e.PutIfVersion? && !e.Reconcile? && !e.Restart? && Step(st, p, e).Some?
    ensures var p' := Step(st, p, e).value.process; p'.prev == p.prev && p'.run == p.run
  {
  }

  /** Only a commit, an adoption or a restart changes prev, each to a manifest that was stored or to this run's own. */
  lemma PrevStep(s: System, t: System, id: nat, e: Event)
    requires id in s.procs && Honest(s, e) && Advance(s, id, e) == Some(t)
    requires PrevKnown(t, s.procs[id]) && InFlight(t, s.procs[id])
    ensures PrevKnown(t, t.procs[id])
  {
    var p, p' := s.procs[id], t.procs[id];
    if e.PutIfVersion? {
      PutPrev(s.store, p, e.effect, e.put);
    } else if e.Reconcile? {
      ReconcilePrev(p, p.pc.m, p.pc.forced, p.pc.error, e.reply);
      if p'.prev != p.prev {
        StoredStays(s, t, id, e, e.reply.manifest);
        assert WasStored(t, Some(e.reply.manifest.value));
      }
    } else if e.Restart? {
      StoredStays(s, t, id, e, e.reply.manifest);
    } else {
      OthersKeepPrev(s.store, p, e);
    }
  }

  predicate Aloft(pc: PC) {
    pc.Uploading? || pc.Committing? || pc.Putting? || pc.Reconciling?
  }

  predicate FliesOn(p: Process, p': Process, e: Event) {
    Aloft(p'.pc) ==>
      && p'.run == p.run && p'.cfg == p.cfg && p'.prev == p.prev
      && (Aloft(p.pc) ==> p'.pc.m == p.pc.m && p'.pc.forced == p.pc.forced)
      && (!Aloft(p.pc) ==> p.pc.Idle? && p'.pc.Uploading? && Later(p', p'.pc.m))
      && (p'.pc.Putting? ==> p' == p || (e.GetVersion? && p.pc.Committing?))
  }

  lemma PutLands(st: Store, p: Process, effect: bool, put: PutReply)
    requires PutStep(st, p, effect, put).Some?
    ensures var p' := PutStep(st, p, effect, put).value.process;
            Aloft(p'.pc) ==> (
              && p'.run == p.run && p'.cfg == p.cfg && p'.prev == p.prev && p'.pc.Reconciling?
              && p'.pc.m == p.pc.m && p'.pc.forced == p.pc.forced)
  {
  }

  lemma ReconcileLands(p: Process, m: Manifest, forced: bool, error: CommitError, reply: Reply)
    ensures !Aloft(ReconcileStep(p, m, forced, error, reply).pc)
  {
  }

  lemma StaysDown(st: Store, p: Process, e: Event)
    requires !Aloft(p.pc) && !e.Begin? && Step(st, p, e).Some?
    ensures !Aloft(Step(st, p, e).value.process.pc)
  {
  }

  /** A manifest takes off only in Begin, and then only moves on or lands. */
  lemma TakesOff(st: Store, p: Process, e: Event)
    requires Step(st, p, e).Some?
    ensures FliesOn(p, Step(st, p, e).value.process, e)
  {
    if e.PutIfVersion? { PutLands(st, p, e.effect, e.put); }
    else if e.Reconcile? { ReconcileLands(p, p.pc.m, p.pc.forced, p.pc.error, e.reply); }
    else if !Aloft(p.pc) && !e.Begin? { StaysDown(st, p, e); }
  }

  lemma FlightStep(s: System, t: System, id: nat, e: Event)
    requires id in s.procs && Honest(s, e) && Advance(s, id, e) == Some(t)
    requires InFlight(t, s.procs[id])
    ensures InFlight(t, t.procs[id])
  {
    var p, p' := s.procs[id], t.procs[id];
    TakesOff(s.store, p, e);
    if Aloft(p'.pc) {
      assert Later(p', p'.pc.m);
      if p'.pc.Putting? && p' != p && p'.pc.expected.Some? {
        StoredStays(s, t, id, e, e.reply.manifest);
      }
    }
  }

  predicate OwnIds(s: System) {
    forall id :: id in s.procs ==> s.procs[id].id == id
  }

  lemma IdsStay(s: System, t: System, id: nat, e: Event)
    requires id in s.procs && OwnIds(s) && Advance(s, id, e) == Some(t)
    ensures OwnIds(t)
  {
    assert t.procs[id].id == s.procs[id].id;
  }

  lemma InitChained(s: System)
    requires Init(s)
    ensures ChainInv(s) && OwnIds(s)
  {
  }

  /** In every run of any number of processes with possibly stale reads, each committed manifest is strictly
      later than the one it replaced, and that one was absent, the writer's own prev, or of the same run. */
  lemma {:induction false} EveryCommitSupersedes(states: seq<System>, k: nat)
    requires Run(states) && k < |states|
    ensures ChainInv(states[k]) && OwnIds(states[k])
    ensures forall i :: 0 <= i < |states[k].commits| ==> Supersedes(states[k].commits[i])
    decreases k
  {
    if k == 0 {
      InitChained(states[0]);
    } else {
      EveryCommitSupersedes(states, k - 1);
      assert Next(states[k - 1], states[(k - 1) + 1]);
      var id, e :| id in states[k - 1].procs && Honest(states[k - 1], e)
          && Advance(states[k - 1], id, e) == Some(states[k]);
      ChainStep(states[k - 1], states[k], id, e);
      IdsStay(states[k - 1], states[k], id, e);
    }
  }

  // ----- the shrink guard is overridden at most once per process -----

  /** A forced write was sent and its publish has not returned, or never will. */
  predicate Unreturned(pc: PC) {
    match pc
    case Reconciling(_, forced, _) => forced
    case Cleaning(_, after) => after == Stop || after == Settle(true)
    case Deleting(_, after) => after == Stop || after == Settle(true)
    case Stopped => true
    case _ => false
  }

  predicate AheadOfPut(pc: PC) {
    pc.Uploading? || pc.Committing? || pc.Putting?
  }

  predicate ForceState(p: Process) {
    && p.issued <= 1
    && (p.issued == 1 ==> p.forceUsed || p.forcePending || Unreturned(p.pc))
    && (AheadOfPut(p.pc) && p.pc.forced ==> p.issued == 0)
  }

  lemma ForcePut(st: Store, p: Process, effect: bool, put: PutReply)
    requires ForceState(p) && PutStep(st, p, effect, put).Some?
    ensures ForceState(PutStep(st, p, effect, put).value.process)
  {
  }

  lemma ForceReconcile(p: Process, reply: Reply)
    requires ForceState(p) && p.pc.Reconciling?
    ensures ForceState(ReconcileStep(p, p.pc.m, p.pc.forced, p.pc.error, reply))
  {
  }

  lemma ForceBegin(p: Process, e: Event)
    requires ForceState(p) && e.Begin? && p.pc.Idle?
    ensures ForceState(BeginStep(p, e))
  {
  }

  lemma ForceOther(st: Store, p: Process, e: Event)
    requires ForceState(p) && !e.Begin? && !e.PutIfVersion? && !e.Reconcile? && Step(st, p, e).Some?
    ensures ForceState(Step(st, p, e).value.process)
  {
  }

  lemma ForceStep(st: Store, p: Process, e: Event)
    requires ForceState(p) && Step(st, p, e).Some?
    ensures ForceState(Step(st, p, e).value.process)
  {
    if e.Begin? { ForceBegin(p, e); }
    else if e.PutIfVersion? { ForcePut(st, p, e.effect, e.put); }
    else if e.Reconcile? { ForceReconcile(p, e.reply); }
    else { ForceOther(st, p, e); }
  }

  /** A recorded commit comes from a known process, and a forced one from a write that process issued. */
  predicate Accounted(s: System, c: Commit) {
    && c.id in s.procs
    && c.incarnation <= s.procs[c.id].incarnation
    && (c.forced && c.incarnation == s.procs[c.id].incarnation ==> s.procs[c.id].issued == 1)
  }

  predicate ForcedCommits(s: System) {
    && (forall id :: id in s.procs ==> ForceState(s.procs[id]))
    && (forall i :: 0 <= i < |s.commits| ==> Accounted(s, s.commits[i]))
    && AtMostOneForced(s.commits)
  }

  /** Whatever the next publish measures, its guard will not be overridden. */
  ghost predicate CannotForce(p: Process) {
    forall now, rows, forked, serialized ::
      var pc := BeginStep(p, Begin(now, rows, forked, serialized)).pc; pc.Uploading? ==> !pc.forced
  }

  predicate AtMostOneForced(commits: seq<Commit>) {
    forall i, j :: 0 <= i < j < |commits| && commits[i].forced && commits[j].forced ==>
      commits[i].id != commits[j].id || commits[i].incarnation != commits[j].incarnation
  }

  predicate Issues(p: Process, o: Outcome) {
    var p' := o.process;
    && p'.incarnation >= p.incarnation
    && (p'.incarnation == p.incarnation ==> p'.issued >= p.issued)
    && (o.commit.Some? ==>
          && o.commit.value.id == p.id && o.commit.value.incarnation == p.incarnation == p'.incarnation
          && (o.commit.value.forced ==> AheadOfPut(p.pc) && p.pc.forced && p'.issued == p.issued + 1))
  }

  lemma PutIssues(st: Store, p: Process, effect: bool, put: PutReply)
    requires PutStep(st, p, effect, put).Some?
    ensures Issues(p, PutStep(st, p, effect, put).value)
  {
  }

  lemma IssuedGrows(st: Store, p: Process, e: Event)
    requires Step(st, p, e).Some?
    ensures Issues(p, Step(st, p, e).value)
  {
    if e.PutIfVersion? { PutIssues(st, p, e.effect, e.put); }
  }

  lemma ForcedStep(s: System, t: System, id: nat, e: Event)
    requires ForcedCommits(s) && id in s.procs && OwnIds(s) && Advance(s, id, e) == Some(t)
    ensures ForcedCommits(t)
  {
    ForceStep(s.store, s.procs[id], e);
    IssuedGrows(s.store, s.procs[id], e);
    forall i | 0 <= i < |t.commits| ensures Accounted(t, t.commits[i]) {
      if i < |s.commits| { assert t.commits[i] == s.commits[i] && Accounted(s, s.commits[i]); }
    }
    forall i | 0 <= i < |s.commits| ensures Accounted(s, s.commits[i]) && t.commits[i] == s.commits[i] {}
  }

  /** Over every run: a process that sent a forced manifest write never admits another forced publish, and at
      most one committed manifest per process was admitted past the shrink guard. */
  lemma {:induction false} GuardOverriddenOnce(states: seq<System>, k: nat)
    requires Run(states) && k < |states|
    ensures OwnIds(states[k]) && ForcedCommits(states[k])
    ensures AtMostOneForced(states[k].commits)
    ensures forall id :: id in states[k].procs ==>
      var p := states[k].procs[id]; p.issued >= 1 && p.pc.Idle? ==> CannotForce(p)
    decreases k
  {
    if k > 0 {
      GuardOverriddenOnce(states, k - 1);
      assert Next(states[k - 1], states[(k - 1) + 1]);
      var id, e :| id in states[k - 1].procs && Honest(states[k - 1], e)
          && Advance(states[k - 1], id, e) == Some(states[k]);
      IdsStay(states[k - 1], states[k], id, e);
      ForcedStep(states[k - 1], states[k], id, e);
    }
  }

  /** An admitted manifest is marked forced exactly when the shrink guard fired on it. */
  lemma ForcedMeansShrank(p: Process, e: Event)
    requires e.Begin? && p.pc.Idle? && BeginStep(p, e).pc.Uploading?
    ensures var pc := BeginStep(p, e).pc;
            && (pc.forced <==> ShrankTooMuch(p.prev, pc.m, p.cfg.maxCollapsePct, e.forked))
            && (pc.forced ==> p.cfg.force && !p.forceUsed && !p.forcePending)
            && !BelowFloor(pc.m, p.cfg.networks, p.cfg.minCurrent)
  {
  }

  // ----- one writer: the committed manifest never names a missing object -----

  predicate WellFormed(p: Process, m: Manifest) {
    WellKeyed(m) && m.networks.Keys == set n | n in p.cfg.networks
  }

  /** The first count networks of the configuration have their generation at m's instant stored. */
  predicate Uploaded(st: Store, p: Process, m: Manifest, count: nat) {
    count <= |p.cfg.networks| && forall i :: 0 <= i < count ==> Generation(p.cfg.networks[i], m.at) in st.objects
  }

  predicate Names(st: Store, k: Key) {
    st.manifest.Some? && k.network in st.manifest.value.networks && k.at == st.manifest.value.at
  }

  /** Pruning for the networks in todo spares whatever the stored manifest names. */
  predicate Spares(st: Store, current: Option<Manifest>, todo: seq<string>) {
    st.manifest.Some? ==>
      && current.Some? && WellKeyed(current.value) && current.value.at == st.manifest.value.at
      && forall n :: n in todo && n in st.manifest.value.networks ==> n in current.value.networks
  }

  predicate SolePC(st: Store, p: Process) {
    match p.pc
    case Uploading(m, _, next) => WellFormed(p, m) && next < |p.cfg.networks| && Uploaded(st, p, m, next)
    case Committing(m, _) => WellFormed(p, m) && Uploaded(st, p, m, |p.cfg.networks|)
    case Putting(m, _, _) => WellFormed(p, m) && Uploaded(st, p, m, |p.cfg.networks|)
    case Reconciling(m, _, _) => WellFormed(p, m)
    case Deleting(keys, _) => forall k :: k in keys ==> !Names(st, k)
    case PruneNext(current, todo) => Spares(st, current, todo)
    case Pruning(current, todo, oldest, _) =>
      Spares(st, current, todo) && todo != [] && forall k :: k in oldest ==> k.network == todo[0]
    case _ => true
  }

  predicate Sole(st: Store, p: Process) {
    && Complete(st)
    && (st.manifest.Some? ==> WellKeyed(st.manifest.value))
    && SolePC(st, p)
  }

  predicate SawStored(st: Store, e: Event) {
    var r := ReplyOf(e);
    r.Some? && r.value.Seen? ==> r.value.manifest == st.manifest
  }

  lemma BeginWellFormed(st: Store, p: Process, e: Event)
    requires e.Begin? && p.pc.Idle?
    ensures var p' := BeginStep(p, e);
            && p'.cfg == p.cfg
            && (p'.pc == Idle
                || (p'.pc.Uploading? && p'.pc.next == 0 && p.cfg.networks != [] && WellFormed(p, p'.pc.m)))
  {
  }

  predicate SoleAfter(o: Option<Outcome>) {
    o.Some? ==> Sole(o.value.store, o.value.process)
  }

  lemma UploadKeeps(st: Store, p: Process, effect: bool, ok: bool)
    requires Sole(st, p)
    ensures SoleAfter(UploadStep(st, p, effect, ok))
  {
  }

  /** A commit names only what was uploaded. */
  lemma UploadedIsComplete(st: Store, p: Process, m: Manifest)
    requires WellFormed(p, m) && Uploaded(st, p, m, |p.cfg.networks|)
    ensures Complete(st.(manifest := Some(m)))
  {
    forall n | n in m.networks ensures m.networks[n].key in st.objects {
      var i :| 0 <= i < |p.cfg.networks| && p.cfg.networks[i] == n;
      assert m.networks[n].key == Generation(n, m.at);
    }
  }

  lemma PutKeeps(st: Store, p: Process, effect: bool, put: PutReply)
    requires Sole(st, p)
    ensures SoleAfter(PutStep(st, p, effect, put))
  {
    if p.pc.Putting? { UploadedIsComplete(st, p, p.pc.m); }
  }

  lemma ReconcileKeeps(st: Store, p: Process, reply: Reply)
    requires Sole(st, p) && p.pc.Reconciling? && (reply.Seen? ==> reply.manifest == st.manifest)
    ensures Sole(st, ReconcileStep(p, p.pc.m, p.pc.forced, p.pc.error, reply))
  {
  }

  lemma CleanupReadKeeps(st: Store, p: Process, reply: Reply)
    requires Sole(st, p) && (reply.Seen? ==> reply.manifest == st.manifest)
    ensures SoleAfter(CleanupReadStep(st, p, reply))
  {
    if reply.Seen? {
      forall k | Names(st, k) ensures k in Protected(reply) {
        assert st.manifest.value.networks[k.network].key == k;
      }
    }
  }

  /** Without an object the stored manifest does not name, it is as complete as before. */
  lemma DeletedElsewhere(st: Store, gone: Key)
    requires Complete(st) && (st.manifest.Some? ==> WellKeyed(st.manifest.value)) && !Names(st, gone)
    ensures Complete(st.(objects := st.objects - {gone}))
  {
    if st.manifest.Some? {
      forall n | n in st.manifest.value.networks ensures st.manifest.value.networks[n].key != gone {
        assert Names(st, st.manifest.value.networks[n].key);
      }
    }
  }

  lemma CleanupKeeps(st: Store, p: Process, effect: bool)
    requires Sole(st, p)
    ensures SoleAfter(CleanupDeleteStep(st, p, effect))
  {
    if p.pc.Deleting? && p.pc.keys != [] {
      DeletedElsewhere(st, p.pc.keys[0]);
      assert forall k :: k in p.pc.keys[1..] ==> k in p.pc.keys;
    }
  }

  lemma PruneListKeeps(st: Store, p: Process, listed: Option<seq<Key>>)
    requires Sole(st, p)
    ensures SoleAfter(PruneListStep(st, p, listed))
  {
  }

  lemma NamedIsProtected(st: Store, current: Option<Manifest>, todo: seq<string>, k: Key)
    requires Spares(st, current, todo) && todo != [] && k.network == todo[0] && Names(st, k)
    ensures ProtectedKey(current, todo[0]) == Some(k)
  {
  }

  lemma PruneRestKeeps(st: Store, p: Process)
    requires Sole(st, p) && p.pc.Pruning?
    ensures Sole(st, p.(pc := PruneRest(p.pc.current, p.pc.todo)))
  {
  }

  /** Pruning goes on with what is left of the listing. */
  lemma PruningKeeps(st: Store, st': Store, p: Process, toDelete: nat)
    requires Sole(st, p) && p.pc.Pruning? && p.pc.oldest != [] && st'.manifest == st.manifest && Complete(st')
    ensures Sole(st', p.(pc := p.pc.(oldest := p.pc.oldest[1..], toDelete := toDelete)))
  {
    assert forall x :: x in p.pc.oldest[1..] ==> x in p.pc.oldest;
  }

  lemma PruneKeeps(st: Store, p: Process, effect: bool, ok: bool)
    requires Sole(st, p)
    ensures SoleAfter(PruneDeleteStep(st, p, effect, ok))
  {
    if p.pc.Pruning? {
      PruneRestKeeps(st, p);
      if p.pc.oldest != [] && p.pc.toDelete > 0 {
        var k := p.pc.oldest[0];
        var st' := st.(objects := st.objects - {k});
        PruningKeeps(st, st, p, p.pc.toDelete);
        PruningKeeps(st, st, p, p.pc.toDelete - 1);
        if Names(st, k) {
          NamedIsProtected(st, p.pc.current, p.pc.todo, k);
        } else {
          DeletedElsewhere(st, k);
          PruningKeeps(st, st', p, p.pc.toDelete);
          PruningKeeps(st, st', p, p.pc.toDelete - 1);
        }
      }
    }
  }

  lemma SoleStep(st: Store, p: Process, e: Event)
    requires Sole(st, p) && SawStored(st, e)
    ensures SoleAfter(Step(st, p, e))
  {
    match e
    case Begin(_, _, _, _) => if p.pc.Idle? { BeginWellFormed(st, p, e); }
    case Upload(effect, ok) => UploadKeeps(st, p, effect, ok);
    case GetVersion(_) =>
    case PutIfVersion(effect, put) => PutKeeps(st, p, effect, put);
    case Reconcile(reply) => if p.pc.Reconciling? { ReconcileKeeps(st, p, reply); }
    case CleanupRead(reply) => CleanupReadKeeps(st, p, reply);
    case CleanupDelete(effect) => CleanupKeeps(st, p, effect);
    case PruneList(listed) => PruneListKeeps(st, p, listed);
    case PruneDelete(effect, ok) => PruneKeeps(st, p, effect, ok);
    case Crash =>
    case Restart(_, _) =>
  }

  // ----- when its content is the recorded one -----

  /** The attempt in flight has written what its manifest records. */
  predicate Faithful(st: Store, p: Process) {
    match p.pc
    case Uploading(m, _, next) => Recorded(st, p, m, next)
    case Committing(m, _) => Recorded(st, p, m, |p.cfg.networks|)
    case Putting(m, _, _) => Recorded(st, p, m, |p.cfg.networks|)
    case _ => true
  }

  predicate Recorded(st: Store, p: Process, m: Manifest, count: nat) {
    count <= |p.cfg.networks| && forall i :: 0 <= i < count ==> HoldsSum(st, m, p.cfg.networks[i])
  }

  predicate HoldsSum(st: Store, m: Manifest, n: string) {
    n in m.networks && Generation(n, m.at) in st.objects && st.objects[Generation(n, m.at)] == m.networks[n].sum
  }

  /** An upload that takes effect on an object the stored manifest names, with another content than it records. */
  predicate Overwrites(st: Store, p: Process, e: Event) {
    && e.Upload? && e.effect && UploadStep(st, p, e.effect, e.ok).Some? && st.manifest.Some?
    && st.manifest.value.at == p.pc.m.at
    && var n := p.cfg.networks[p.pc.next];
       n in st.manifest.value.networks && st.manifest.value.networks[n].sum != p.pc.m.networks[n].sum
  }

  lemma UploadRecords(st: Store, p: Process, effect: bool, ok: bool)
    requires Sole(st, p) && Faithful(st, p) && UploadStep(st, p, effect, ok).Some?
    ensures var o := UploadStep(st, p, effect, ok).value; Faithful(o.store, o.process)
  {
    var net := p.cfg.networks[p.pc.next];
    assert p.pc.m.networks[net].key == Generation(net, p.pc.m.at);
  }

  /** An upload breaks the stored manifest's content exactly when it overwrites. */
  lemma UploadBreaksExactly(st: Store, p: Process, e: Event)
    requires e.Upload? && Sole(st, p) && ContentMatches(st) && UploadStep(st, p, e.effect, e.ok).Some?
    ensures ContentMatches(UploadStep(st, p, e.effect, e.ok).value.store) <==> !Overwrites(st, p, e)
  {
    var net := p.cfg.networks[p.pc.next];
    assert p.pc.m.networks[net].key == Generation(net, p.pc.m.at);
    if st.manifest.Some? {
      var stored := st.manifest.value;
      forall n | n in stored.networks ensures stored.networks[n].key == Generation(n, stored.at) {
      }
    }
  }

  /** A commit records its own content, whatever was stored before. */
  lemma CommitMatches(st: Store, p: Process, m: Manifest)
    requires WellFormed(p, m) && Recorded(st, p, m, |p.cfg.networks|)
    ensures ContentMatches(st.(manifest := Some(m)))
  {
    forall n | n in m.networks
      ensures m.networks[n].key in st.objects && st.objects[m.networks[n].key] == m.networks[n].sum {
      var i :| 0 <= i < |p.cfg.networks| && p.cfg.networks[i] == n;
      assert HoldsSum(st, m, p.cfg.networks[i]);
      assert m.networks[n].key == Generation(n, m.at);
    }
  }

  lemma PutRecords(st: Store, p: Process, effect: bool, put: PutReply)
    requires Sole(st, p) && Faithful(st, p) && PutStep(st, p, effect, put).Some?
    ensures var o := PutStep(st, p, effect, put).value;
            Faithful(o.store, o.process) && (ContentMatches(st) ==> ContentMatches(o.store))
  {
    CommitMatches(st, p, p.pc.m);
  }

  predicate OnlyDeleted(st: Store, st': Store) {
    && st'.manifest == st.manifest
    && forall k :: k in st'.objects ==> k in st.objects && st'.objects[k] == st.objects[k]
  }

  lemma OnlyDeletes(st: Store, p: Process, e: Event)
    requires !e.Upload? && !e.PutIfVersion? && Step(st, p, e).Some?
    ensures var o := Step(st, p, e).value;
            OnlyDeleted(st, o.store) && (AheadOfPut(p.pc) ==> o.store == st)
  {
  }

  /** Deletions leave the stored manifest's objects alone, so they leave their content alone. */
  lemma DeletedKeepsContent(st: Store, st': Store)
    requires OnlyDeleted(st, st') && Complete(st') && ContentMatches(st)
    ensures ContentMatches(st')
  {
  }

  lemma OtherStepFaithful(st: Store, p: Process, e: Event)
    requires !e.Upload? && !e.PutIfVersion? && Step(st, p, e).Some? && Faithful(st, p)
    ensures var o := Step(st, p, e).value; Faithful(o.store, o.process)
  {
    OnlyDeletes(st, p, e);
    TakesOff(st, p, e);
  }

  lemma OtherStepRecords(st: Store, p: Process, e: Event)
    requires !e.Upload? && !e.PutIfVersion? && Step(st, p, e).Some?
    requires Complete(Step(st, p, e).value.store) && ContentMatches(st)
    ensures ContentMatches(Step(st, p, e).value.store)
  {
    OnlyDeletes(st, p, e);
    DeletedKeepsContent(st, Step(st, p, e).value.store);
  }

  /** One step: what is in flight stays faithful, and content that matched goes on matching unless it is overwritten. */
  lemma ContentStep(st: Store, p: Process, e: Event)
    requires Sole(st, p) && SawStored(st, e) && Faithful(st, p) && Step(st, p, e).Some?
    ensures var o := Step(st, p, e).value; Sole(o.store, o.process) && Faithful(o.store, o.process)
    ensures ContentMatches(st) ==> (ContentMatches(Step(st, p, e).value.store) <==> !Overwrites(st, p, e))
  {
    SoleStep(st, p, e);
    if e.Upload? {
      UploadRecords(st, p, e.effect, e.ok);
      if ContentMatches(st) { UploadBreaksExactly(st, p, e); }
    } else if e.PutIfVersion? {
      PutRecords(st, p, e.effect, e.put);
    } else {
      OtherStepFaithful(st, p, e);
      if ContentMatches(st) { OtherStepRecords(st, p, e); }
    }
  }

  predicate Fresh(st: Store, m: Manifest) {
    st.manifest.Some? ==> st.manifest.value.at != m.at
  }

  predicate FreshInFlight(st: Store, p: Process) {
    AheadOfPut(p.pc) ==> Fresh(st, p.pc.m)
  }

  /** A fresh attempt overwrites nothing, and stays fresh until its own put. */
  lemma FreshStep(st: Store, p: Process, e: Event)
    requires Sole(st, p) && FreshInFlight(st, p) && Step(st, p, e).Some?
    requires var p' := Step(st, p, e).value.process; p.pc.Idle? && p'.pc.Uploading? ==> Fresh(st, p'.pc.m)
    ensures !Overwrites(st, p, e)
    ensures var o := Step(st, p, e).value; FreshInFlight(o.store, o.process)
  {
    TakesOff(st, p, e);
    if !e.Upload? && !e.PutIfVersion? { OnlyDeletes(st, p, e); }
  }

  ghost predicate SoleInv(s: System, id: nat) {
    && s.procs.Keys == {id}
    && Sole(s.store, s.procs[id]) && Faithful(s.store, s.procs[id])
    && (s.store.manifest.Some? ==> s.store.manifest.value.at in s.instants)
    && (AheadOfPut(s.procs[id].pc) ==> s.procs[id].pc.m.at in s.instants)
    && (s.distinct ==> ContentMatches(s.store) && FreshInFlight(s.store, s.procs[id]))
  }

  lemma SoleInvStep(s: System, t: System, id: nat, e: Event)
    requires SoleInv(s, id) && Linearizable(s, e) && Advance(s, id, e) == Some(t)
    ensures SoleInv(t, id)
    ensures ContentMatches(s.store) ==> (ContentMatches(t.store) <==> !Overwrites(s.store, s.procs[id], e))
  {
    var p := s.procs[id];
    ContentStep(s.store, p, e);
    InstantsStep(s, t, id, e);
    if t.distinct { FreshStep(s.store, p, e); }
  }

  /** Instants in use are recorded. */
  lemma InstantsStep(s: System, t: System, id: nat, e: Event)
    requires id in s.procs && Advance(s, id, e) == Some(t)
    requires s.store.manifest.Some? ==> s.store.manifest.value.at in s.instants
    requires AheadOfPut(s.procs[id].pc) ==> s.procs[id].pc.m.at in s.instants
    ensures t.store.manifest.Some? ==> t.store.manifest.value.at in t.instants
    ensures AheadOfPut(t.procs[id].pc) ==> t.procs[id].pc.m.at in t.instants
  {
    TakesOff(s.store, s.procs[id], e);
    if !e.Upload? && !e.PutIfVersion? { OnlyDeletes(s.store, s.procs[id], e); }
  }

  /** A run of one writer whose reads are linearizable; every errored call is settled when it returns, and the
      process may crash at any step and restart from the stored manifest. */
  ghost predicate SoleRun(states: seq<System>, id: nat) {
    && states != [] && Init(states[0]) && states[0].procs.Keys == {id}
    && forall i :: 0 <= i < |states| - 1 ==> SoleNext(states[i], states[i + 1], id)
  }

  ghost predicate SoleNext(s: System, t: System, id: nat) {
    id in s.procs && exists e :: Linearizable(s, e) && Advance(s, id, e) == Some(t)
  }

  /** The committed manifest never names a missing generation object, and every object it names has the
      recorded content as long as no two attempts used one instant. */
  lemma {:induction false} CommittedIsServable(states: seq<System>, id: nat, k: nat)
    requires SoleRun(states, id) && k < |states|
    ensures SoleInv(states[k], id)
    ensures Complete(states[k].store)
    ensures states[k].distinct ==> ContentMatches(states[k].store)
    decreases k
  {
    if k > 0 {
      CommittedIsServable(states, id, k - 1);
      assert SoleNext(states[k - 1], states[(k - 1) + 1], id);
      var e :| Linearizable(states[k - 1], e) && Advance(states[k - 1], id, e) == Some(states[k]);
      SoleInvStep(states[k - 1], states[k], id, e);
    }
  }

  /** The step from s to t overwrote an object the stored manifest names. */
  ghost predicate Damages(s: System, t: System, id: nat) {
    id in s.procs
    && exists e :: Linearizable(s, e) && Advance(s, id, e) == Some(t) && Overwrites(s.store, s.procs[id], e)
  }

  lemma StepDamages(s: System, t: System, id: nat)
    requires SoleInv(s, id) && SoleNext(s, t, id) && ContentMatches(s.store)
    ensures ContentMatches(t.store) <==> !Damages(s, t, id)
  {
    var e :| Linearizable(s, e) && Advance(s, id, e) == Some(t);
    SoleInvStep(s, t, id, e);
    if Damages(s, t, id) {
      var d :| Linearizable(s, d) && Advance(s, id, d) == Some(t) && Overwrites(s.store, s.procs[id], d);
      SoleInvStep(s, t, id, d);
    }
  }

  /** In a run of one writer the committed content matches the recorded one in every state if and only if no upload
      ever took effect on an object the stored manifest names with another content. */
  lemma {:induction false} ContentMatchesExactly(states: seq<System>, id: nat, k: nat)
    requires SoleRun(states, id) && k < |states|
    ensures (forall i :: 0 <= i <= k ==> ContentMatches(states[i].store))
            <==> (forall i :: 0 <= i < k ==> !Damages(states[i], states[i + 1], id))
    decreases k
  {
    if k > 0 {
      ContentMatchesExactly(states, id, k - 1);
      CommittedIsServable(states, id, k - 1);
      assert SoleNext(states[k - 1], states[(k - 1) + 1], id);
      if forall i :: 0 <= i <= k - 1 ==> ContentMatches(states[i].store) {
        assert ContentMatches(states[k - 1].store);
        StepDamages(states[k - 1], states[k], id);
      }
    }
  }

  /** The attempt that the step from s to t begins, if any, takes another instant than the stored manifest's. */
  predicate BeginsFresh(s: System, t: System, id: nat)
    requires id in s.procs && id in t.procs
  {
    s.procs[id].pc.Idle? && t.procs[id].pc.Uploading? ==> Fresh(s.store, t.procs[id].pc.m)
  }

  /** It suffices that each attempt takes another instant than the manifest stored when it begins, whatever other
      attempts used: a retry of a failed attempt may take its instant again. */
  lemma {:induction false} FreshAttemptsKeepContent(states: seq<System>, id: nat, k: nat)
    requires SoleRun(states, id) && k < |states|
    requires forall i :: 0 <= i < |states| ==> id in states[i].procs
    requires forall i :: 0 <= i < k ==> BeginsFresh(states[i], states[i + 1], id)
    ensures ContentMatches(states[k].store) && FreshInFlight(states[k].store, states[k].procs[id])
    decreases k
  {
    if k > 0 {
      FreshAttemptsKeepContent(states, id, k - 1);
      CommittedIsServable(states, id, k - 1);
      assert SoleNext(states[k - 1], states[(k - 1) + 1], id);
      var e :| Linearizable(states[k - 1], e) && Advance(states[k - 1], id, e) == Some(states[k]);
      assert BeginsFresh(states[k - 1], states[(k - 1) + 1], id);
      FreshStep(states[k - 1].store, states[k - 1].procs[id], e);
      SoleInvStep(states[k - 1], states[k], id, e);
    }
  }

  // A run after a backward clock step: the first attempt's commit is lost, its retry takes the same instant.

  const DEMO_CONFIG := Config(["n"], "c", 100, 0, 0, false)
  const DEMO_BASE := Manifest(4, "c", "r0", map["n" := NetworkSnapshot(Generation("n", 4), 1, 1, 9)])

  function DemoManifest(content: Content): Manifest {
    Manifest(5, "c", "r1", map["n" := NetworkSnapshot(Generation("n", 5), 1, 1, content)])
  }

  function DemoBegin(content: Content): Event {
    Begin(0, map["n" := Measured(1, 1, content)], {}, true)
  }

  function DemoProcess(pc: PC): Process {
    Process(0, DEMO_CONFIG, "r1", 1, Some(DEMO_BASE), 0, false, false, pc, 0)
  }

  lemma DemoBegins(content: Content)
    ensures BeginStep(DemoProcess(Idle), DemoBegin(content)) == DemoProcess(Uploading(DemoManifest(content), false, 0))
  {
    var m := Build(DEMO_CONFIG, "r1", 5, DemoBegin(content).rows);
    assert "n" in DEMO_CONFIG.networks;
    assert m.networks.Keys == {"n"};
    assert m == DemoManifest(content);
    assert !ShrankTooMuch(Some(DEMO_BASE), m, 100, {});
  }

  function DemoSystem(st: Store, pc: PC, commits: seq<Commit>, distinct: bool): System {
    System(st, map[0 := DemoProcess(pc)], commits, {4, 5}, distinct)
  }

  /** A run extended by one step of its only process. */
  lemma DemoStep(states: seq<System>, p: Process, e: Event, t: System, p': Process)
    requires SoleRun(states, 0)
    requires var s := states[|states| - 1];
             && s.procs == map[0 := p] && t.procs == map[0 := p'] && Linearizable(s, e)
             && Step(s.store, p, e).Some?
             && var o := Step(s.store, p, e).value;
                && o.store == t.store && o.process == p'
                && t.commits == (if o.commit.Some? then s.commits + [o.commit.value] else s.commits)
                && t.instants == (if p.pc.Idle? && p'.pc.Uploading? then s.instants + {p'.pc.m.at} else s.instants)
                && t.distinct == (s.distinct && (p.pc.Idle? && p'.pc.Uploading? ==> p'.pc.m.at !in s.instants))
    ensures SoleRun(states + [t], 0)
  {
    var s := states[|states| - 1];
    assert s.procs[0 := p'] == t.procs;
    assert Advance(s, 0, e) == Some(t);
    forall i | 0 <= i < |states| ensures SoleNext((states + [t])[i], (states + [t])[i + 1], 0) {
      if i < |states| - 1 { assert SoleNext(states[i], states[i + 1], 0); }
    }
  }

  const DEMO_STORE := Store(map[Generation("n", 4) := 9], Some(DEMO_BASE))
  const DEMO_STOPPED := Process(0, DEMO_CONFIG, "", 0, None, 0, false, false, Stopped, 0)

  lemma DemoStarted() returns (states: seq<System>)
    ensures SoleRun(states, 0)
    ensures states[|states| - 1] == System(DEMO_STORE, map[0 := DemoProcess(Idle)], [], {4}, true)
  {
    var s0 := System(DEMO_STORE, map[0 := DEMO_STOPPED], [], {4}, true);
    assert "n" in DEMO_BASE.networks && DEMO_BASE.networks["n"].key == Generation("n", 4);
    states := [s0];
    assert Init(s0) && SoleRun(states, 0);
    var s1 := System(DEMO_STORE, map[0 := DemoProcess(Idle)], [], {4}, true);
    DemoStep(states, DEMO_STOPPED, Restart(Seen(Some(DEMO_BASE)), "r1"), s1, DemoProcess(Idle));
    states := states + [s1];
  }

  lemma DemoBegun() returns (states: seq<System>)
    ensures SoleRun(states, 0)
    ensures states[|states| - 1] == DemoSystem(DEMO_STORE, Uploading(DemoManifest(10), false, 0), [], true)
  {
    states := DemoStarted();
    var m := DemoManifest(10);
    DemoBegins(10);
    assert {4} + {5} == {4, 5};
    var s2 := DemoSystem(DEMO_STORE, Uploading(m, false, 0), [], true);
    DemoStep(states, DemoProcess(Idle), DemoBegin(10), s2, DemoProcess(Uploading(m, false, 0)));
    states := states + [s2];
  }

  const DEMO_UPLOADED := DEMO_STORE.(objects := DEMO_STORE.objects[Generation("n", 5) := 10])

  lemma DemoSent() returns (states: seq<System>)
    ensures SoleRun(states, 0)
    ensures states[|states| - 1] == DemoSystem(DEMO_UPLOADED, Putting(DemoManifest(10), false, Some(DEMO_BASE)), [],
                                               true)
  {
    states := DemoBegun();
    var m := DemoManifest(10);
    var uploaded := DEMO_UPLOADED;
    var s3 := DemoSystem(uploaded, Committing(m, false), [], true);
    DemoStep(states, DemoProcess(Uploading(m, false, 0)), Upload(true, true), s3, DemoProcess(Committing(m, false)));
    states := states + [s3];
    var put := DemoProcess(Putting(m, false, Some(DEMO_BASE)));
    var s4 := DemoSystem(uploaded, put.pc, [], true);
    DemoStep(states, DemoProcess(Committing(m, false)), GetVersion(Seen(Some(DEMO_BASE))), s4, put);
    states := states + [s4];
  }

  lemma DemoAttempt() returns (states: seq<System>, m: Manifest, st: Store, commits: seq<Commit>)
    ensures SoleRun(states, 0) && states[|states| - 1] == DemoSystem(st, Reconciling(m, false, Other), commits, true)
    ensures m == DemoManifest(10) && st.manifest == Some(m) && Generation("n", 5) in st.objects
  {
    states := DemoSent();
    m := DemoManifest(10);
    var put := DemoProcess(Putting(m, false, Some(DEMO_BASE)));
    st := DEMO_UPLOADED.(manifest := Some(m));
    commits := [Commit(0, 1, false, Some(DEMO_BASE), Some(DEMO_BASE), m)];
    assert [] + commits == commits;
    var s5 := DemoSystem(st, Reconciling(m, false, Other), commits, true);
    DemoStep(states, put, PutIfVersion(true, PutFailed), s5, DemoProcess(s5.procs[0].pc));
    states := states + [s5];
  }

  lemma DemoRetry() returns (states: seq<System>, m: Manifest, st: Store, commits: seq<Commit>)
    ensures SoleRun(states, 0) && states[|states| - 1] == DemoSystem(st, Idle, commits, true)
    ensures m == DemoManifest(10) && st.manifest == Some(m) && Generation("n", 5) in st.objects
  {
    states, m, st, commits := DemoAttempt();
    var cleaning := DemoProcess(Cleaning(Keys(DEMO_CONFIG, 5), Settle(false)));
    var s6 := DemoSystem(st, cleaning.pc, commits, true);
    DemoStep(states, DemoProcess(Reconciling(m, false, Other)), Reconcile(Errored), s6, cleaning);
    states := states + [s6];
    var s7 := DemoSystem(st, Idle, commits, true);
    DemoStep(states, cleaning, CleanupRead(Errored), s7, DemoProcess(Idle));
    states := states + [s7];
  }

  lemma DemoRetrying() returns (states: seq<System>, m: Manifest, st: Store, commits: seq<Commit>)
    ensures SoleRun(states, 0)
    ensures states[|states| - 1] == DemoSystem(st, Uploading(DemoManifest(11), false, 0), commits, false)
    ensures m == DemoManifest(10) && st.manifest == Some(m) && Generation("n", 5) in st.objects
  {
    states, m, st, commits := DemoRetry();
    DemoBegins(11);
    assert {4, 5} + {5} == {4, 5};
    var uploading := DemoProcess(Uploading(DemoManifest(11), false, 0));
    var s8 := DemoSystem(st, uploading.pc, commits, false);
    DemoStep(states, DemoProcess(Idle), DemoBegin(11), s8, uploading);
    states := states + [s8];
  }

  /** The proviso is needed: in this run the retry's upload overwrites the committed object. */
  lemma SharedInstantMismatch() returns (states: seq<System>)
    ensures SoleRun(states, 0)
    ensures var last := states[|states| - 1]; Complete(last.store) && !ContentMatches(last.store)
  {
    var m, st, commits;
    states, m, st, commits := DemoRetrying();
    var m2 := DemoManifest(11);
    var st' := st.(objects := st.objects[Generation("n", 5) := 11]);
    var s9 := DemoSystem(st', Committing(m2, false), commits, false);
    DemoStep(states, DemoProcess(Uploading(m2, false, 0)), Upload(true, true), s9, DemoProcess(Committing(m2, false)));
    states := states + [s9];
    assert "n" in m.networks && m.networks["n"].key == Generation("n", 5) && m.networks["n"].sum == 10;
  }
}
