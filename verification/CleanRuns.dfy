/** A publish that nothing disturbs: every store call takes effect and reports it. It commits what was measured, and
    pruning leaves each network its share of generations. */
module CleanRuns {
  import opened Text
  import opened Collections
  import opened Publish
  import opened Admission
  import opened Pruning

  /** One process and the store. */
  datatype At = At(store: Store, process: Process)

  predicate Follows(x: At, e: Event, y: At) {
    var o := Step(x.store, x.process, e);
    o.Some? && o.value.store == y.store && o.value.process == y.process
  }

  ghost predicate Leads(x: At, y: At) {
    exists e :: Follows(x, e, y)
  }

  ghost predicate Runs(xs: seq<At>) {
    xs != [] && forall i, j :: 0 <= i < |xs| - 1 && j == i + 1 ==> Leads(xs[i], xs[j])
  }

  ghost predicate Reaches(x: At, y: At) {
    exists xs :: Runs(xs) && xs[0] == x && xs[|xs| - 1] == y
  }

  lemma ReachSelf(x: At)
    ensures Reaches(x, x)
  {
    assert Runs([x]) && [x][|[x]| - 1] == x;
  }

  lemma ReachOn(x: At, e: Event, y: At, z: At)
    requires Follows(x, e, y) && Reaches(y, z)
    ensures Reaches(x, z)
  {
    assert Leads(x, y);
    var ys :| Runs(ys) && ys[0] == y && ys[|ys| - 1] == z;
    RunsOn(x, ys);
    assert ([x] + ys)[|[x] + ys| - 1] == z;
  }

  lemma RunsOn(x: At, ys: seq<At>)
    requires Runs(ys) && Leads(x, ys[0])
    ensures Runs([x] + ys)
  {
  }

  lemma RunsTail(xs: seq<At>)
    requires Runs(xs) && |xs| > 1
    ensures Leads(xs[0], xs[1]) && Runs(xs[1..])
  {
  }

  lemma {:induction false} ReachJoin(xs: seq<At>, z: At)
    requires Runs(xs) && Reaches(xs[|xs| - 1], z)
    ensures Reaches(xs[0], z)
    decreases |xs|
  {
    if |xs| > 1 {
      RunsTail(xs);
      ReachJoin(xs[1..], z);
      var e :| Follows(xs[0], e, xs[1]);
      ReachOn(xs[0], e, xs[1], z);
    }
  }

  lemma ReachBoth(x: At, y: At, z: At)
    requires Reaches(x, y) && Reaches(y, z)
    ensures Reaches(x, z)
  {
    var xs :| Runs(xs) && xs[0] == x && xs[|xs| - 1] == y;
    ReachJoin(xs, z);
  }

  // ----- uploading -----

  /** The manifest names the generation of its instant for each of the networks. */
  predicate NamesOwn(m: Manifest, networks: seq<string>) {
    forall i :: 0 <= i < |networks| ==>
      networks[i] in m.networks && m.networks[networks[i]].key == Generation(networks[i], m.at)
  }

  predicate Stored(st: Store, m: Manifest, networks: seq<string>) {
    forall n :: n in networks && n in m.networks ==>
      m.networks[n].key in st.objects && st.objects[m.networks[n].key] == m.networks[n].sum
  }

  /** Nothing but the given instant's generations differs. */
  predicate SameButAt(a: Store, b: Store, at: int) {
    && (forall k :: k in a.objects ==> k in b.objects)
    && (forall k :: k in b.objects && k.at != at ==> k in a.objects && a.objects[k] == b.objects[k])
  }

  lemma {:induction false} UploadsReach(x: At) returns (y: At)
    requires x.process.pc.Uploading? && x.process.pc.next < |x.process.cfg.networks|
    requires var p := x.process; NamesOwn(p.pc.m, p.cfg.networks)
                                 && Stored(x.store, p.pc.m, p.cfg.networks[..p.pc.next])
    ensures var p := x.process;
            && Reaches(x, y) && y.process == p.(pc := Committing(p.pc.m, p.pc.forced))
            && y.store.manifest == x.store.manifest && SameButAt(x.store, y.store, p.pc.m.at)
            && Stored(y.store, p.pc.m, p.cfg.networks)
    decreases |x.process.cfg.networks| - x.process.pc.next
  {
    var p := x.process;
    var next, m := p.pc.next, p.pc.m;
    var o := Step(x.store, p, Upload(true, true)).value;
    var z := At(o.store, o.process);
    assert Follows(x, Upload(true, true), z);
    OneStored(x.store, m, p.cfg.networks, next);
    if next + 1 == |p.cfg.networks| {
      assert p.cfg.networks[..next + 1] == p.cfg.networks;
      y := z;
      ReachSelf(y);
    } else {
      y := UploadsReach(z);
    }
    ReachOn(x, Upload(true, true), z, y);
  }

  lemma OneStored(st: Store, m: Manifest, networks: seq<string>, next: nat)
    requires next < |networks| && NamesOwn(m, networks) && Stored(st, m, networks[..next])
    ensures var g := m.networks[networks[next]]; var st' := st.(objects := st.objects[g.key := g.sum]);
            Stored(st', m, networks[..next + 1]) && SameButAt(st, st', m.at)
  {
    var g := m.networks[networks[next]];
    var st' := st.(objects := st.objects[g.key := g.sum]);
    forall n | n in networks[..next + 1] && n in m.networks
      ensures m.networks[n].key in st'.objects && st'.objects[m.networks[n].key] == m.networks[n].sum {
      var i :| 0 <= i < next + 1 && networks[i] == n;
      if n != networks[next] { assert networks[..next][i] == n; }
    }
  }

  // ----- committing -----

  /** Over the manifest the process knows, absence included, a committing process puts its own; it then knows that
      one, its quarantines are over, and a forced or unsettled write has spent the override. */
  lemma CommitReaches(x: At) returns (y: At)
    requires x.process.pc.Committing? && x.store.manifest == x.process.prev
    ensures var p := x.process; var m := p.pc.m; var spent := p.pc.forced || p.forcePending;
            && Reaches(x, y) && y.store == x.store.(manifest := Some(m))
            && y.process.pc == (if p.cfg.keep > 0 then PruneNext(Some(m), p.cfg.networks) else Idle)
            && y.process.prev == Some(m) && y.process.quarantines == 0 && y.process.cfg == p.cfg
            && (y.process.forceUsed <==> p.forceUsed || spent) && (y.process.forcePending <==> p.forcePending && !spent)
  {
    var read := GetVersion(Seen(x.store.manifest));
    var o := Step(x.store, x.process, read).value;
    var z := At(o.store, o.process);
    assert Follows(x, read, z);
    var put := PutIfVersion(true, PutOk);
    var q := Step(z.store, z.process, put).value;
    y := At(q.store, q.process);
    assert Follows(z, put, y);
    ReachSelf(y);
    ReachOn(z, put, y, y);
    ReachOn(x, read, z, y);
  }

  // ----- pruning -----

  function Generations(st: Store, network: string): set<Key> {
    set k | k in st.objects && k.network == network
  }

  /** Pruning only removes, and never what the manifest it protects names. */
  predicate Thinned(a: Store, b: Store, current: Option<Manifest>) {
    && b.manifest == a.manifest
    && (forall k :: k in b.objects ==> k in a.objects && b.objects[k] == a.objects[k])
    && (forall k :: k in a.objects && NamedIn(current, k) ==> k in b.objects)
  }

  lemma ThinnedBoth(a: Store, b: Store, c: Store, current: Option<Manifest>)
    requires Thinned(a, b, current) && Thinned(b, c, current)
    ensures Thinned(a, c, current)
  {
  }

  lemma FewerGenerations(a: Store, b: Store, current: Option<Manifest>, network: string)
    requires Thinned(a, b, current)
    ensures |Generations(b, network)| <= |Generations(a, network)|
  {
    Subset(Generations(b, network), Generations(a, network));
  }

  predicate KeysOwn(current: Option<Manifest>) {
    current.Some? ==> forall n :: n in current.value.networks ==> current.value.networks[n].key.network == n
  }

  lemma {:induction false} NetworkPruned(x: At) returns (y: At)
    requires x.process.pc.Pruning? && x.process.pc.todo != [] && x.process.cfg.keep > 0
    requires var pc := x.process.pc;
             && KeysOwn(pc.current) && Distinct(pc.oldest)
             && (forall k :: k in pc.oldest ==> k in Generations(x.store, pc.todo[0]))
             && |Generations(x.store, pc.todo[0])| == x.process.cfg.keep + pc.toDelete
             && pc.toDelete + Unit(exists k :: k in pc.oldest && NamedIn(pc.current, k)) <= |pc.oldest|
    ensures var pc := x.process.pc;
            && Reaches(x, y) && y.process == x.process.(pc := PruneRest(pc.current, pc.todo))
            && Thinned(x.store, y.store, pc.current)
            && |Generations(y.store, pc.todo[0])| == x.process.cfg.keep
    decreases |x.process.pc.oldest|
  {
    var pc := x.process.pc;
    var e := PruneDelete(true, true);
    var o := Step(x.store, x.process, e).value;
    var z := At(o.store, o.process);
    assert Follows(x, e, z);
    if pc.toDelete == 0 {
      y := z;
      ReachSelf(y);
    } else {
      OneLess(x.store, x.process);
      y := NetworkPruned(z);
      ThinnedBoth(x.store, z.store, y.store, pc.current);
    }
    ReachOn(x, e, z, y);
  }

  lemma OneLess(st: Store, p: Process)
    requires p.pc.Pruning? && p.pc.todo != [] && KeysOwn(p.pc.current) && Distinct(p.pc.oldest)
    requires p.pc.toDelete > 0 && p.pc.oldest != []
    requires forall k :: k in p.pc.oldest ==> k in Generations(st, p.pc.todo[0])
    requires p.pc.toDelete + Unit(exists k :: k in p.pc.oldest && NamedIn(p.pc.current, k)) <= |p.pc.oldest|
    ensures var o := PruneDeleteStep(st, p, true, true).value; var q := o.process.pc;
            && o.process == p.(pc := q) && q.Pruning? && q.todo == p.pc.todo && q.current == p.pc.current
            && q.oldest == p.pc.oldest[1..] && Distinct(q.oldest)
            && (forall k :: k in q.oldest ==> k in Generations(o.store, p.pc.todo[0]))
            && |Generations(o.store, p.pc.todo[0])| - q.toDelete == |Generations(st, p.pc.todo[0])| - p.pc.toDelete
            && q.toDelete + Unit(exists k :: k in q.oldest && NamedIn(p.pc.current, k)) <= |q.oldest|
            && Thinned(st, o.store, p.pc.current)
  {
    var net, k := p.pc.todo[0], p.pc.oldest[0];
    assert k in Generations(st, net);
    SparedIsNamed(p.pc.current, net, k);
    OnlyOneNamed(p.pc.current, p.pc.oldest, Generations(st, net), net);
    if !NamedIn(p.pc.current, k) { OneGone(st, net, k, p.pc.current); }
  }

  lemma OneGone(st: Store, network: string, k: Key, current: Option<Manifest>)
    requires k in Generations(st, network) && !NamedIn(current, k)
    ensures var st' := st.(objects := st.objects - {k});
            && Generations(st', network) == Generations(st, network) - {k}
            && |Generations(st', network)| == |Generations(st, network)| - 1
            && Thinned(st, st', current)
  {
    var st' := st.(objects := st.objects - {k});
    assert Generations(st', network) == Generations(st, network) - {k};
    Removed(Generations(st, network), k);
  }

  /** Past the named one no other listed generation is named. */
  lemma OnlyOneNamed(current: Option<Manifest>, l: seq<Key>, all: set<Key>, network: string)
    requires l != [] && Distinct(l) && KeysOwn(current)
    requires forall k :: k in l ==> k in all
    requires forall k :: k in all ==> k.network == network
    ensures Distinct(l[1..]) && l[0] !in l[1..] && l == [l[0]] + l[1..]
    ensures NamedIn(current, l[0]) ==> forall k :: k in l[1..] ==> !NamedIn(current, k)
  {
    forall k | k in l[1..] ensures k in l && k != l[0] && k.network == network {
      var i :| 0 <= i < |l[1..]| && l[1..][i] == k;
      assert l[i + 1] == k;
    }
    assert l[0] in l;
  }

  lemma SparedIsNamed(current: Option<Manifest>, network: string, k: Key)
    requires k.network == network
    ensures ProtectedKey(current, network) == Some(k) <==> NamedIn(current, k)
  {
  }

  lemma {:induction false} SortedByAt(keys: set<Key>, network: string) returns (l: seq<Key>)
    requires forall k :: k in keys ==> k.network == network
    ensures forall k :: k in l <==> k in keys
    ensures |l| == |keys| && forall i, j :: 0 <= i < j < |l| ==> l[i].at < l[j].at
    decreases keys
  {
    if keys == {} {
      l := [];
    } else {
      var last := Latest(keys);
      var front := SortedByAt(keys - {last}, network);
      forall i | 0 <= i < |front| ensures front[i].at < last.at {
        assert front[i] in keys - {last};
        assert front[i] == Generation(network, front[i].at) && last == Generation(network, last.at);
      }
      l := front + [last];
    }
  }

  lemma {:induction false} Latest(keys: set<Key>) returns (last: Key)
    requires keys != {}
    ensures last in keys && forall k :: k in keys ==> k.at <= last.at
    decreases keys
  {
    last :| last in keys;
    if keys - {last} != {} {
      var other := Latest(keys - {last});
      if other.at > last.at { last := other; }
    }
  }

  /** The next network, left with at most keep generations. */
  lemma NextPruned(x: At) returns (y: At)
    requires x.process.pc.PruneNext? && x.process.pc.todo != [] && x.process.cfg.keep > 0
    requires KeysOwn(x.process.pc.current)
    ensures var pc := x.process.pc;
            && Reaches(x, y) && y.process == x.process.(pc := PruneRest(pc.current, pc.todo))
            && Thinned(x.store, y.store, pc.current)
            && |Generations(y.store, pc.todo[0])| <= x.process.cfg.keep
  {
    var pc := x.process.pc;
    var l := SortedByAt(Generations(x.store, pc.todo[0]), pc.todo[0]);
    var e := PruneList(Some(l));
    assert Lists(x.store, pc.todo[0], l);
    var o := Step(x.store, x.process, e).value;
    var z := At(o.store, o.process);
    assert Follows(x, e, z);
    if |l| <= x.process.cfg.keep {
      y := z;
      ReachSelf(y);
    } else {
      y := NetworkPruned(z);
    }
    ReachOn(x, e, z, y);
  }

  /** Every network in turn: pruning ends, and leaves at most keep generations of each. */
  lemma {:induction false} PruningReaches(x: At) returns (y: At)
    requires x.process.pc.PruneNext? && x.process.pc.todo != [] && x.process.cfg.keep > 0
    requires KeysOwn(x.process.pc.current)
    ensures var pc := x.process.pc;
            && Reaches(x, y) && y.process == x.process.(pc := Idle) && Thinned(x.store, y.store, pc.current)
            && forall n :: n in pc.todo ==> |Generations(y.store, n)| <= x.process.cfg.keep
    decreases |x.process.pc.todo|
  {
    var pc := x.process.pc;
    var z := NextPruned(x);
    assert pc.todo == [pc.todo[0]] + pc.todo[1..];
    if |pc.todo| == 1 {
      y := z;
    } else {
      y := PruningReaches(z);
      PrunedAll(x, z, y);
    }
  }

  lemma PrunedAll(x: At, z: At, y: At)
    requires Reaches(x, z) && Reaches(z, y) && x.process.pc.PruneNext? && x.process.pc.todo != []
    requires Thinned(x.store, z.store, x.process.pc.current) && Thinned(z.store, y.store, x.process.pc.current)
    requires |Generations(z.store, x.process.pc.todo[0])| <= x.process.cfg.keep
    ensures Reaches(x, y) && Thinned(x.store, y.store, x.process.pc.current)
    ensures |Generations(y.store, x.process.pc.todo[0])| <= x.process.cfg.keep
  {
    ReachBoth(x, z, y);
    ThinnedBoth(x.store, z.store, y.store, x.process.pc.current);
    FewerGenerations(z.store, y.store, x.process.pc.current, x.process.pc.todo[0]);
  }

  // ----- a whole publish -----

  /** What an admitted publish of a lone writer achieves when nothing fails: the stored manifest describes what was
      measured, each network's generation is there with its content, and at most keep generations of each are. */
  lemma PublishCommits(x: At, e: Event) returns (y: At)
    requires x.process.pc.Idle? && e.Begin? && BeginStep(x.process, e).pc.Uploading?
    requires x.store.manifest == x.process.prev
    ensures Reaches(x, y) && y.process.pc.Idle? && y.process.quarantines == 0
    ensures y.store.manifest.Some? && y.process.prev == y.store.manifest
    ensures Describes(y.store.manifest.value, x.process, e)
    ensures Stored(y.store, y.store.manifest.value, x.process.cfg.networks)
    ensures x.process.cfg.keep > 0 ==>
              forall n :: n in x.process.cfg.networks ==> |Generations(y.store, n)| <= x.process.cfg.keep
  {
    AdmittedExactly(x.process, e);
    var begun := At(x.store, BeginStep(x.process, e));
    assert Follows(x, e, begun);
    var m := begun.process.pc.m;
    assert forall n :: n in x.process.cfg.networks ==> n in m.networks;
    var uploaded := UploadsReach(begun);
    var committed := CommitReaches(uploaded);
    ReachBoth(begun, uploaded, committed);
    if x.process.cfg.keep <= 0 {
      y := committed;
    } else {
      y := PruningReaches(committed);
      ReachBoth(begun, committed, y);
      StaysStored(committed.store, y.store, m, x.process.cfg.networks);
    }
    ReachOn(x, e, begun, y);
  }

  lemma StaysStored(a: Store, b: Store, m: Manifest, networks: seq<string>)
    requires Stored(a, m, networks) && Thinned(a, b, Some(m)) && KeysOwn(Some(m))
    ensures Stored(b, m, networks)
  {
    forall n | n in networks && n in m.networks
      ensures m.networks[n].key in b.objects && b.objects[m.networks[n].key] == m.networks[n].sum {
      assert NamedIn(Some(m), m.networks[n].key);
    }
  }

  // ----- cleaning up -----

  /** A cleanup that read the manifest deletes exactly the given keys that it does not name. */
  lemma {:induction false} CleanupReaches(x: At) returns (y: At)
    requires x.process.pc.Deleting?
    ensures Reaches(x, y) && y.process == Finish(x.process, x.process.pc.after)
    ensures y.store.manifest == x.store.manifest
    ensures forall k :: k in y.store.objects <==> k in x.store.objects && k !in x.process.pc.keys
    ensures forall k :: k in y.store.objects ==> y.store.objects[k] == x.store.objects[k]
    decreases |x.process.pc.keys|
  {
    var e := CleanupDelete(true);
    var o := Step(x.store, x.process, e).value;
    var z := At(o.store, o.process);
    assert Follows(x, e, z);
    if x.process.pc.keys == [] {
      y := z;
      ReachSelf(y);
    } else {
      assert x.process.pc.keys == [x.process.pc.keys[0]] + x.process.pc.keys[1..];
      y := CleanupReaches(z);
    }
    ReachOn(x, e, z, y);
  }

  lemma {:induction false} UnprotectedExactly(keys: seq<Key>, named: set<Key>)
    ensures forall k :: k in Unprotected(keys, named) <==> k in keys && k !in named
  {
    if keys != [] { UnprotectedExactly(keys[1..], named); }
  }

  // ----- whose manifest a write may replace -----

  /** After a version read a process goes on to put its manifest exactly over nothing when it knows of nothing, over the
      manifest it knows, and over an earlier one of its own run. */
  lemma PutsOverExactly(p: Process, m: Manifest, forced: bool, reply: Reply)
    ensures Decide(p, m, forced, reply).Putting? <==>
              reply.Seen?
              && (if reply.manifest.None? then p.prev.None?
                  else var cur := reply.manifest.value;
                       || (cur.run == m.run && cur.at < m.at)
                       || (p.prev.Some? && cur.crawler == p.prev.value.crawler && cur.at == p.prev.value.at))
    ensures Decide(p, m, forced, reply).Putting? ==> Decide(p, m, forced, reply).expected == reply.manifest
    ensures reply.Seen? && !Decide(p, m, forced, reply).Putting? ==>
              Decide(p, m, forced, reply) ==
                Reconciling(m, forced, if reply.manifest.None? then Conflict else Competitor)
  {
  }

  /** After a conflict the process goes on only when its own write landed, its run wrote later than what it knew, or
      what it knew is still there; otherwise it cleans up and stops. */
  lemma ConflictSettles(p: Process, m: Manifest, forced: bool, stored: Option<Manifest>)
    requires p.pc == Reconciling(m, forced, Conflict) && p.prev.Some? && p.cfg.keep <= 0
    ensures var q := ReconcileStep(p, m, forced, Conflict, Seen(stored));
            var landed := stored.Some? && stored.value.run == m.run && stored.value.at == m.at;
            var later := stored.Some? && stored.value.run == m.run && stored.value.at > p.prev.value.at;
            var still := stored.Some? && stored.value.crawler == p.prev.value.crawler
                         && stored.value.at == p.prev.value.at;
            && (q.pc.Idle? <==> landed || later || still)
            && (!q.pc.Idle? ==> q.pc == Cleaning(Keys(p.cfg, m.at), Stop) && q.prev == p.prev)
            && (landed ==> q.prev == Some(m) && q.quarantines == 0)
            && (!landed && later ==>
                  && q.prev == stored
                  && (q.forceUsed <==> p.forceUsed || forced || p.forcePending)
                  && (q.forcePending <==> p.forcePending && !(forced || p.forcePending)))
            && (!landed && !later && still ==>
                  q.prev == p.prev && q.forceUsed == p.forceUsed && q.forcePending == (p.forcePending || forced))
  {
  }
}
