/** Pruning one network's generations when every deletion succeeds: which ones are left. */
module Pruning {
  import opened Text
  import opened Publish

  /** The store once the network's pruning is over. */
  function Pruned(st: Store, p: Process): Store
    requires p.pc.Pruning? && p.pc.todo != []
    decreases |p.pc.oldest|
  {
    var o := PruneDeleteStep(st, p, true, true).value;
    if o.process.pc.Pruning? then Pruned(o.store, o.process) else o.store
  }

  function Unit(b: bool): nat {
    if b then 1 else 0
  }

  /** A deletion whose answer was lost still counts as one to come, although its generation is gone. */
  lemma LostAnswerDeletesAnyway(st: Store, p: Process)
    requires p.pc.Pruning? && p.pc.todo != [] && p.pc.oldest != [] && p.pc.toDelete > 0
    requires ProtectedKey(p.pc.current, p.pc.todo[0]) != Some(p.pc.oldest[0])
    ensures var o := PruneDeleteStep(st, p, true, false).value;
            && o.store == st.(objects := st.objects - {p.pc.oldest[0]})
            && o.process.pc == p.pc.(oldest := p.pc.oldest[1..])
  {
  }

  predicate Distinct(keys: seq<Key>) {
    forall i, j :: 0 <= i < j < |keys| ==> keys[i] != keys[j]
  }

  /** The i-th listed generation goes: it is not the spared one, and fewer than toDelete others go before it. */
  predicate Goes(l: seq<Key>, spared: Option<Key>, toDelete: nat, i: nat)
    requires i < |l|
  {
    spared != Some(l[i]) && i - Unit(spared.Some? && spared.value in l[..i]) < toDelete
  }

  lemma GoesNext(l: seq<Key>, spared: Option<Key>, d: nat, i: nat)
    requires Distinct(l) && 0 < i < |l| && d > 0
    ensures Goes(l, spared, d, i) <==> Goes(l[1..], spared, if spared == Some(l[0]) then d else d - 1, i - 1)
  {
    assert l[..i] == [l[0]] + l[1..][..i - 1];
    if spared.Some? {
      assert spared.value in l[..i] <==> spared.value == l[0] || spared.value in l[1..][..i - 1];
      if spared.value == l[0] { assert spared.value !in l[1..][..i - 1]; }
    }
  }

  /** Pruning touches nothing but the listed generations. */
  lemma {:induction false} OthersStay(st: Store, p: Process)
    requires p.pc.Pruning? && p.pc.todo != []
    ensures forall k :: k !in p.pc.oldest ==> (k in Pruned(st, p).objects <==> k in st.objects)
    ensures forall k :: k in Pruned(st, p).objects ==> k in st.objects && Pruned(st, p).objects[k] == st.objects[k]
    ensures Pruned(st, p).manifest == st.manifest
    decreases |p.pc.oldest|
  {
    var o := PruneDeleteStep(st, p, true, true).value;
    if o.process.pc.Pruning? {
      OthersStay(o.store, o.process);
      assert forall k :: k in p.pc.oldest[1..] ==> k in p.pc.oldest;
    }
  }

  /** Of the listed generations the first toDelete ones go, the protected one neither going nor counting. */
  lemma {:induction false} PrunedAt(st: Store, p: Process, spared: Option<Key>, i: nat)
    requires p.pc.Pruning? && p.pc.todo != [] && Distinct(p.pc.oldest) && i < |p.pc.oldest|
    requires spared == ProtectedKey(p.pc.current, p.pc.todo[0])
    requires forall k :: k in p.pc.oldest ==> k in st.objects
    ensures p.pc.oldest[i] in Pruned(st, p).objects <==> !Goes(p.pc.oldest, spared, p.pc.toDelete, i)
    decreases |p.pc.oldest|
  {
    var l, d := p.pc.oldest, p.pc.toDelete;
    var o := PruneDeleteStep(st, p, true, true).value;
    if o.process.pc.Pruning? {
      assert l[0] !in l[1..] && l[..0] == [];
      OthersStay(o.store, o.process);
      if i > 0 {
        GoesNext(l, spared, d, i);
        PrunedAt(o.store, o.process, spared, i - 1);
      }
    } else {
      assert d == 0;
    }
  }

  /** The manifest being protected names the generation for its network. */
  predicate NamedIn(current: Option<Manifest>, k: Key) {
    current.Some? && k.network in current.value.networks && current.value.networks[k.network].key == k
  }

  /** Some generation older than the newest ones is the one the manifest names. */
  predicate NamesOlder(current: Option<Manifest>, listed: seq<Key>, older: nat) {
    exists s :: 0 <= s < older <= |listed| && NamedIn(current, listed[s])
  }

  /** Of a longer listing the generation the manifest names is left, and the keep newest ones; but when the named one is
      none of these, the oldest of the newest goes in its place. */
  lemma NewestSurvive(st: Store, p: Process, listed: seq<Key>)
    requires p.pc.PruneNext? && p.pc.todo != [] && 0 < p.cfg.keep < |listed| && Lists(st, p.pc.todo[0], listed)
    requires forall n :: p.pc.current.Some? && n in p.pc.current.value.networks ==>
               p.pc.current.value.networks[n].key.network == n
    ensures var q := PruneListStep(st, p, Some(listed)).value.process; var older := |listed| - p.cfg.keep;
            && q.pc.Pruning? && q.pc.todo == p.pc.todo
            && var after := Pruned(st, q).objects;
               && (forall i :: 0 <= i < |listed| ==>
                     (listed[i] in after <==> NamedIn(p.pc.current, listed[i])
                                              || i >= older + Unit(NamesOlder(p.pc.current, listed, older))))
               && (listed[older] in after <==> !NamesOlder(p.pc.current, listed, older))
               && forall k :: k !in listed ==> (k in after <==> k in st.objects)
  {
    var q := PruneListStep(st, p, Some(listed)).value.process;
    var older := |listed| - p.cfg.keep;
    var spared := ProtectedKey(p.pc.current, p.pc.todo[0]);
    OthersStay(st, q);
    forall i | 0 <= i < |listed| ensures NamedIn(p.pc.current, listed[i]) <==> spared == Some(listed[i]) {
      assert listed[i] in listed;
    }
    forall i | 0 <= i < |listed|
      ensures listed[i] in Pruned(st, q).objects <==>
                spared == Some(listed[i]) || i >= older + Unit(NamesOlder(p.pc.current, listed, older)) {
      PrunedAt(st, q, spared, i);
      GoExactly(listed, spared, older, i);
    }
  }

  lemma GoExactly(l: seq<Key>, spared: Option<Key>, older: nat, i: nat)
    requires Distinct(l) && older < |l| && i < |l|
    ensures Goes(l, spared, older, i) <==>
              spared != Some(l[i]) && i < older + Unit(exists s :: 0 <= s < older && spared == Some(l[s]))
  {
    if spared.Some? && spared.value in l {
      var s :| 0 <= s < |l| && l[s] == spared.value;
      SparedBefore(l, s);
    }
  }

  lemma SparedBefore(listed: seq<Key>, s: nat)
    requires Distinct(listed) && s < |listed|
    ensures forall i :: 0 <= i < |listed| ==> (listed[s] in listed[..i] <==> s < i)
  {
    forall i | s < i < |listed| ensures listed[s] in listed[..i] { assert listed[..i][s] == listed[s]; }
  }
}
