/** A live zone while trees are published into it.

    The state is one domain's records and the publisher's durable artifacts; each step is one record change,
    and a cycle may be cut off after any of them. A non-root name is the hash of its record, so it fixes the
    record's content; Records.text is that function, and links gives the names a record's content refers to. */
module LiveZone {
  import opened Text
  import Zone

  datatype Records = Records(root: string, links: string -> set<string>, text: string -> string, seqOf: string -> nat)

  datatype Tree = Tree(sequence: nat, records: map<string, string>)

  /** What building and signing a tree guarantees: links resolve inside it, and names fix content. */
  predicate ValidTree(w: Records, t: Tree) {
    && w.root in t.records && w.seqOf(t.records[w.root]) == t.sequence
    && forall n :: n in t.records ==>
         && w.links(t.records[n]) <= t.records.Keys - {w.root}
         && (n != w.root ==> t.records[n] == w.text(n))
  }

  /** A Sync in progress: entries still to write, whether the root is still to write, records to prune. */
  datatype Syncing = Syncing(tree: Tree, left: set<string>, rootLeft: bool, stale: set<string>)

  /** zone holds the live records. recorded is the tree the published artifact carries, older the one it carried
      before that, built the sequence floor of the build artifact, pending a tree built and not yet pushed. served
      names the tree whose root is live. */
  datatype State = State(zone: map<string, string>, recorded: Option<Tree>, older: Option<Tree>, built: nat,
                         pending: Option<Tree>, sync: Option<Syncing>, served: Option<Tree>)

  /** treeSequence: later than everything built before, whatever the generation instant. */
  function TreeSequence(generatedAt: nat, previous: nat): (next: nat)
    ensures next > previous && next >= generatedAt
    ensures next == previous + 1 || next == generatedAt
  {
    if generatedAt <= previous then previous + 1 else generatedAt
  }

  // ----- steps -----

  /** What planSync asks for, as far as the zone's content goes: at least every missing or different entry is
      written, nothing the tree or the retained generation holds is pruned, and nothing at all without one. */
  predicate PlanCovers(w: Records, s: State, y: Syncing) {
    && y.left <= y.tree.records.Keys - {w.root}
    && (forall n :: n in y.tree.records && n != w.root && n !in y.left ==>
          n in s.zone && s.zone[n] == y.tree.records[n])
    && w.root in y.tree.records
    && (!y.rootLeft ==> w.root in s.zone && s.zone[w.root] == y.tree.records[w.root])
    && (s.recorded.None? ==> y.stale == {})
    && (forall n :: n in y.stale ==> n !in y.tree.records && (s.recorded.Some? ==> n !in s.recorded.value.records))
  }

  /** planSync's plan is such a Sync, when a record it leaves alone has the wanted content. */
  lemma PlanIsCovered<R(!new)>(w: Records, s: State, domain: string, have: map<string, R>, contentOf: R -> string,
                         want: map<string, string>, retain: Option<map<string, string>>,
                         same: (string, string, R) -> bool, p: Zone.SyncPlan, y: Syncing)
    requires w.root == Zone.DnsKey(domain) && Zone.IsPlan(p, have, domain, want, retain, same)
    requires have.Keys == s.zone.Keys && forall n :: n in have ==> contentOf(have[n]) == s.zone[n]
    requires forall n, c, r: R :: same(n, c, r) ==> contentOf(r) == c
    requires y.tree.records == p.wanted && w.root in p.wanted && y.rootLeft == p.writeRoot
    requires forall n :: n in y.left <==> n in p.entries
    requires forall n :: n in y.stale <==> n in p.stale
    requires retain.Some? <==> s.recorded.Some?
    requires s.recorded.Some? ==> s.recorded.value.records.Keys == Zone.RetainedKeys(retain.value)
    ensures PlanCovers(w, s, y)
  {
    forall n | n in p.wanted && Zone.UpToDate(have, n, p.wanted[n], same)
      ensures n in s.zone && s.zone[n] == y.tree.records[n]
    {
      assert same(n, p.wanted[n], have[n]);
    }
    assert forall n :: n in y.left ==> n in y.tree.records && n != w.root;
    assert forall n :: n in y.tree.records && n != w.root && n !in y.left ==> Zone.UpToDate(have, n, p.wanted[n], same);
    assert forall n :: n in y.stale ==> retain.Some? && n !in y.tree.records && n !in Zone.RetainedKeys(retain.value);
  }

  datatype Step =
    | Build(generatedAt: nat, tree: Tree)   // tree built and its artifact written, push not started
    | Begin(y: Syncing)
    | WriteEntry(name: string)
    | WriteRoot
    | Prune(name: string)
    | Finish                                // success: the published artifact now carries the tree
    | CutOff                                // error, crash or a prune given up: nothing recorded

  /** The state after a step; None when it does not apply. A write that errored after taking effect is the
      write followed by CutOff. */
  function Apply(w: Records, s: State, e: Step): Option<State> {
    match e
    case Build(at, tree) =>
      if s.sync.None? && ValidTree(w, tree) && tree.sequence == TreeSequence(at, s.built)
      then Some(s.(built := tree.sequence, pending := Some(tree))) else None
    case Begin(y) =>
      if s.sync.None? && s.pending == Some(y.tree) && PlanCovers(w, s, y)
      then Some(s.(pending := None, sync := Some(y))) else None
    case WriteEntry(n) =>
      if s.sync.Some? && n in s.sync.value.left && n in s.sync.value.tree.records
      then Some(s.(zone := s.zone[n := s.sync.value.tree.records[n]],
                   sync := Some(s.sync.value.(left := s.sync.value.left - {n}))))
      else None
    case WriteRoot =>
      if s.sync.Some? && s.sync.value.left == {} && s.sync.value.rootLeft && w.root in s.sync.value.tree.records
      then Some(s.(zone := s.zone[w.root := s.sync.value.tree.records[w.root]], older := None,
                   sync := Some(s.sync.value.(rootLeft := false)), served := Some(s.sync.value.tree)))
      else None
    case Prune(n) =>
      if s.sync.Some? && s.sync.value.left == {} && !s.sync.value.rootLeft && n in s.sync.value.stale
      then Some(s.(zone := s.zone - {n})) else None
    case Finish =>
      if s.sync.Some? && s.sync.value.left == {} && !s.sync.value.rootLeft
      then Some(s.(sync := None, older := s.recorded, recorded := Some(s.sync.value.tree))) else None
    case CutOff => Some(s.(pending := None, sync := None))
  }

  ghost predicate Next(w: Records, s: State, t: State) {
    exists e :: Apply(w, s, e) == Some(t)
  }

  // ----- what every state keeps -----

  /** Every entry of the tree is live with its content. */
  predicate Holds(w: Records, zone: map<string, string>, t: Tree) {
    forall n :: n in t.records && n != w.root ==> n in zone && zone[n] == t.records[n]
  }

  predicate Kept(w: Records, s: State, t: Option<Tree>) {
    t.Some? ==> ValidTree(w, t.value) && t.value.sequence <= s.built && Holds(w, s.zone, t.value)
  }

  predicate Serves(w: Records, s: State) {
    && (s.served.Some? <==> w.root in s.zone)
    && (s.served.Some? ==> w.root in s.served.value.records && s.zone[w.root] == s.served.value.records[w.root])
  }

  /** The tree is the latest built, and later than the one served. */
  predicate Outranks(s: State, t: Tree) {
    t.sequence == s.built && (s.served.Some? ==> s.served.value.sequence < t.sequence)
  }

  predicate SyncInv(w: Records, s: State, y: Syncing) {
    && ValidTree(w, y.tree) && PlanCovers(w, s, y)
    && (if y.rootLeft then Outranks(s, y.tree)
        else y.tree.sequence == s.built && s.served == Some(y.tree) && s.older.None?)
  }

  predicate Inv(w: Records, s: State) {
    && Serves(w, s) && Kept(w, s, s.served) && Kept(w, s, s.recorded) && Kept(w, s, s.older)
    && (s.sync.Some? ==> s.pending.None? && SyncInv(w, s, s.sync.value))
    && (s.pending.Some? ==> ValidTree(w, s.pending.value) && Outranks(s, s.pending.value))
  }

  /** A started domain: nothing in progress, and a root someone already serves comes with its entries. */
  ghost predicate Init(w: Records, s: State) {
    s.sync.None? && s.pending.None? && s.older.None? && Inv(w, s)
  }

  lemma BeginKeeps(w: Records, s: State, y: Syncing)
    requires Inv(w, s) && Apply(w, s, Begin(y)).Some?
    ensures y.rootLeft && Inv(w, Apply(w, s, Begin(y)).value)
  {
    assert s.served.Some? ==> w.seqOf(s.zone[w.root]) == s.served.value.sequence;
  }

  lemma WriteKeeps(w: Records, s: State, n: string)
    requires Inv(w, s) && Apply(w, s, WriteEntry(n)).Some?
    ensures Inv(w, Apply(w, s, WriteEntry(n)).value)
  {
    assert s.sync.value.tree.records[n] == w.text(n);
  }

  lemma StepKeeps(w: Records, s: State, e: Step)
    requires Inv(w, s) && Apply(w, s, e).Some?
    ensures Inv(w, Apply(w, s, e).value)
  {
    match e
    case Build(_, _) =>
    case Begin(y) => BeginKeeps(w, s, y);
    case WriteEntry(n) => WriteKeeps(w, s, n);
    case WriteRoot =>
    case Prune(_) =>
    case Finish =>
    case CutOff =>
  }

  ghost predicate Run(w: Records, states: seq<State>) {
    states != [] && Init(w, states[0]) && forall i :: 0 <= i < |states| - 1 ==> Next(w, states[i], states[i + 1])
  }

  lemma {:induction false} RunKeeps(w: Records, states: seq<State>, k: nat)
    requires Run(w, states) && k < |states|
    ensures Inv(w, states[k])
    decreases k
  {
    if k > 0 {
      RunKeeps(w, states, k - 1);
      assert Next(w, states[k - 1], states[(k - 1) + 1]);
      var e :| Apply(w, states[k - 1], e) == Some(states[k]);
      StepKeeps(w, states[k - 1], e);
    }
  }

  // ----- resolving a tree -----

  /** A client that read content resolves path name by name, each name linked from the record before it. */
  predicate Follows(w: Records, zone: map<string, string>, content: string, path: seq<string>)
    decreases |path|
  {
    path != [] ==>
      path[0] in w.links(content) && (|path| > 1 ==> path[0] in zone && Follows(w, zone, zone[path[0]], path[1..]))
  }

  /** Every name a client can reach from content resolves. */
  ghost predicate Walkable(w: Records, zone: map<string, string>, content: string) {
    forall path :: path != [] && Follows(w, zone, content, path) ==> path[|path| - 1] in zone
  }

  lemma {:induction false} HeldPathResolves(w: Records, zone: map<string, string>, t: Tree, content: string,
                                            path: seq<string>)
    requires ValidTree(w, t) && Holds(w, zone, t)
    requires w.links(content) <= t.records.Keys - {w.root}
    requires path != [] && Follows(w, zone, content, path)
    ensures path[|path| - 1] in zone && path[|path| - 1] in t.records
    ensures zone[path[|path| - 1]] == t.records[path[|path| - 1]]
    decreases |path|
  {
    var n := path[0];
    assert n in t.records && n != w.root && zone[n] == t.records[n];
    if |path| > 1 {
      HeldPathResolves(w, zone, t, zone[n], path[1..]);
      assert path[1..][|path| - 2] == path[|path| - 1];
    }
  }

  lemma HeldIsWalkable(w: Records, zone: map<string, string>, t: Tree)
    requires ValidTree(w, t) && Holds(w, zone, t)
    ensures Walkable(w, zone, t.records[w.root])
  {
    forall path | path != [] && Follows(w, zone, t.records[w.root], path) ensures path[|path| - 1] in zone {
      HeldPathResolves(w, zone, t, t.records[w.root], path);
    }
  }

  /** Walkable content is closed: every name it links to is there, and what that name holds is walkable again. */
  lemma WalkableIsClosed(w: Records, zone: map<string, string>, content: string, n: string)
    requires Walkable(w, zone, content) && n in w.links(content)
    ensures n in zone && Walkable(w, zone, zone[n])
  {
    assert Follows(w, zone, content, [n]);
    assert [n][|[n]| - 1] == n;
    forall path | path != [] && Follows(w, zone, zone[n], path) ensures path[|path| - 1] in zone {
      var longer := [n] + path;
      assert longer[1..] == path;
      assert Follows(w, zone, content, longer);
      assert longer[|longer| - 1] == path[|path| - 1];
    }
  }

  /** At every point of every run, cut off anywhere: the served root, the last recorded tree, and until the
      next root is written the tree recorded before it, all resolve completely. */
  lemma ZoneAlwaysWalkable(w: Records, states: seq<State>, k: nat)
    requires Run(w, states) && k < |states|
    ensures var s := states[k];
            && (w.root in s.zone ==> Walkable(w, s.zone, s.zone[w.root]))
            && (s.recorded.Some? && w.root in s.recorded.value.records ==>
                  Walkable(w, s.zone, s.recorded.value.records[w.root]))
            && (s.older.Some? && w.root in s.older.value.records ==>
                  Walkable(w, s.zone, s.older.value.records[w.root]))
  {
    RunKeeps(w, states, k);
    var s := states[k];
    if s.served.Some? { HeldIsWalkable(w, s.zone, s.served.value); }
    if s.recorded.Some? { HeldIsWalkable(w, s.zone, s.recorded.value); }
    if s.older.Some? { HeldIsWalkable(w, s.zone, s.older.value); }
  }

  predicate RootRises(w: Records, s: State, t: State) {
    w.root in s.zone ==>
      && w.root in t.zone
      && (t.zone[w.root] == s.zone[w.root] || w.seqOf(t.zone[w.root]) > w.seqOf(s.zone[w.root]))
  }

  lemma StepRises(w: Records, s: State, e: Step)
    requires Inv(w, s) && Apply(w, s, e).Some?
    ensures RootRises(w, s, Apply(w, s, e).value)
  {
    if e.WriteRoot? && s.served.Some? {
      assert w.seqOf(s.zone[w.root]) == s.served.value.sequence;
    }
  }

  /** The sequence a resolver sees at the root never falls, and rises whenever the root changes. */
  lemma ServedSequenceRises(w: Records, states: seq<State>, k: nat)
    requires Run(w, states) && k + 1 < |states|
    ensures RootRises(w, states[k], states[k + 1])
    ensures var before, after := states[k].zone, states[k + 1].zone;
            w.root in before ==>
              w.root in after && (after[w.root] != before[w.root] ==> w.seqOf(after[w.root]) > w.seqOf(before[w.root]))
  {
    RunKeeps(w, states, k);
    assert Next(w, states[k], states[k + 1]);
    var e :| Apply(w, states[k], e) == Some(states[k + 1]);
    StepRises(w, states[k], e);
  }

  // ----- a walk spread over time -----

  /** A client reads names[j] in state times[j]; each name is linked from the record read before it. */
  predicate TimedWalk(w: Records, states: seq<State>, root: string, names: seq<string>, times: seq<nat>) {
    && |names| == |times|
    && (forall j :: 0 <= j < |times| ==> times[j] < |states|)
    && (forall j :: 0 <= j < |names| ==> Linked(w, states, root, names, times, j))
  }

  /** Name j is linked from the record read before it, the first from the root. */
  predicate Linked(w: Records, states: seq<State>, root: string, names: seq<string>, times: seq<nat>, j: nat)
    requires j < |names| == |times| && forall i :: 0 <= i < |times| ==> times[i] < |states|
  {
    names[j] in w.links(if j == 0 then root else ReadAt(states, names[j - 1], times[j - 1]))
  }

  function ReadAt(states: seq<State>, name: string, time: nat): string
    requires time < |states|
  {
    if name in states[time].zone then states[time].zone[name] else ""
  }

  /** While a tree stays recorded, or stays recorded and then the older one, a client that took its root can
      finish its walk whatever Sync cycles run meanwhile: every read finds the tree's own record. */
  lemma {:induction false} HeldRootFinishes(w: Records, states: seq<State>, t: Tree, names: seq<string>,
                                            times: seq<nat>, j: nat)
    requires Run(w, states) && w.root in t.records
    requires TimedWalk(w, states, t.records[w.root], names, times) && j < |names|
    requires forall i :: 0 <= i < |times| ==> states[times[i]].recorded == Some(t) || states[times[i]].older == Some(t)
    ensures names[j] in t.records && names[j] != w.root
    ensures names[j] in states[times[j]].zone && states[times[j]].zone[names[j]] == t.records[names[j]]
    decreases j
  {
    RunKeeps(w, states, times[j]);
    assert ValidTree(w, t) && Holds(w, states[times[j]].zone, t);
    assert Linked(w, states, t.records[w.root], names, times, j);
    if j > 0 {
      HeldRootFinishes(w, states, t, names, times, j - 1);
      assert ReadAt(states, names[j - 1], times[j - 1]) == t.records[names[j - 1]];
    }
  }

  // ----- a Sync that nothing cuts off -----

  predicate Writable(w: Records, y: Syncing) {
    y.left <= y.tree.records.Keys - {w.root} && w.root in y.tree.records && y.stale !! y.tree.records.Keys
  }

  /** The zone once everything planned is written and pruned. */
  function FinalZone(w: Records, zone: map<string, string>, y: Syncing): map<string, string>
    requires Writable(w, y)
  {
    var written := y.left + if y.rootLeft then {w.root} else {};
    map n | n in zone.Keys + written && n !in y.stale :: if n in written then y.tree.records[n] else zone[n]
  }

  ghost predicate Steps(w: Records, states: seq<State>) {
    states != [] && forall i :: 0 <= i < |states| - 1 ==> Next(w, states[i], states[i + 1])
  }

  lemma StepsOn(w: Records, s: State, e: Step, rest: seq<State>)
    requires Steps(w, rest) && Apply(w, s, e) == Some(rest[0])
    ensures Steps(w, [s] + rest)
  {
    forall i | 0 <= i < |[s] + rest| - 1 ensures Next(w, ([s] + rest)[i], ([s] + rest)[i + 1]) {
      if i == 0 { assert Apply(w, s, e) == Some(rest[0]); }
      else { assert Next(w, rest[i - 1], rest[i - 1 + 1]); }
    }
  }

  predicate Over(s: State)
    requires s.sync.Some?
  {
    s.sync.value.left == {} && !s.sync.value.rootLeft && s.sync.value.stale !! s.zone.Keys
  }

  /** Entries before the root before prunes. */
  lemma NextWrite(w: Records, s: State) returns (e: Step)
    requires s.sync.Some? && Writable(w, s.sync.value) && !Over(s)
    ensures (e.WriteEntry? || e.WriteRoot? || e.Prune?) && Apply(w, s, e).Some?
    ensures e.WriteEntry? ==> e.name in s.sync.value.left
    ensures e.WriteRoot? ==> s.sync.value.rootLeft
    ensures e.Prune? ==> e.name in s.sync.value.stale && e.name in s.zone
  {
    var y := s.sync.value;
    if n :| n in y.left {
      e := WriteEntry(n);
    } else if y.rootLeft {
      e := WriteRoot;
    } else {
      var n :| n in y.stale && n in s.zone;
      e := Prune(n);
    }
  }

  lemma LastStep(w: Records, s: State)
    requires s.sync.Some? && Writable(w, s.sync.value) && Over(s)
    ensures var y := s.sync.value;
            Apply(w, s, Finish) == Some(s.(sync := None, older := s.recorded, recorded := Some(y.tree)))
            && FinalZone(w, s.zone, y) == s.zone
  {
  }

  function Unpruned(s: State): set<string>
    requires s.sync.Some?
  {
    s.sync.value.stale * s.zone.Keys
  }

  /** From any point of a Sync its remaining writes and prunes can all be made, and it then finishes with its tree
      recorded. */
  lemma {:induction false} SyncCompletes(w: Records, s: State) returns (states: seq<State>)
    requires s.sync.Some? && Writable(w, s.sync.value)
    ensures Steps(w, states) && states[0] == s
    ensures var y := s.sync.value; var t := states[|states| - 1];
            && t.sync.None? && t.recorded == Some(y.tree) && t.older == s.recorded && t.built == s.built
            && t.served == (if y.rootLeft then Some(y.tree) else s.served)
            && t.zone == FinalZone(w, s.zone, y)
    decreases s.sync.value.left, s.sync.value.rootLeft, Unpruned(s)
  {
    if Over(s) {
      LastStep(w, s);
      states := [s, Apply(w, s, Finish).value];
      assert Apply(w, s, Finish) == Some(states[1]);
    } else {
      var e := NextWrite(w, s);
      SameFinalZone(w, s, e);
      StepShrinks(w, s, e);
      var rest := SyncCompletes(w, Apply(w, s, e).value);
      StepsOn(w, s, e, rest);
      states := [s] + rest;
      assert states[|states| - 1] == rest[|rest| - 1];
    }
  }

  lemma StepShrinks(w: Records, s: State, e: Step)
    requires s.sync.Some? && Apply(w, s, e).Some? && (e.WriteEntry? || e.WriteRoot? || e.Prune?)
    requires e.WriteEntry? ==> e.name in s.sync.value.left
    requires e.Prune? ==> e.name in s.sync.value.stale && e.name in s.zone
    ensures var t := Apply(w, s, e).value; var y, z := s.sync.value, t.sync.value;
            && t.recorded == s.recorded && t.built == s.built && z.tree == y.tree && t.sync.Some?
            && (e.WriteEntry? ==> z.left < y.left && z.rootLeft == y.rootLeft && t.served == s.served)
            && (e.WriteRoot? ==> z.left == y.left && !z.rootLeft && y.rootLeft && t.served == Some(y.tree))
            && (e.Prune? ==> z == y && Unpruned(t) < Unpruned(s) && t.served == s.served)
  {
    if e.Prune? { assert Unpruned(Apply(w, s, e).value) == Unpruned(s) - {e.name}; }
  }

  lemma SameFinalZone(w: Records, s: State, e: Step)
    requires s.sync.Some? && Writable(w, s.sync.value) && (e.WriteEntry? || e.WriteRoot? || e.Prune?)
    requires Apply(w, s, e).Some?
    ensures var t := Apply(w, s, e).value;
            && t.sync.Some? && Writable(w, t.sync.value)
            && FinalZone(w, t.zone, t.sync.value) == FinalZone(w, s.zone, s.sync.value)
  {
  }

  /** A whole cycle, from any state between Syncs: a tree later than everything built can be built, pushed as planned,
      and ends up live and recorded. */
  lemma CycleCompletes(w: Records, s: State, at: nat, tree: Tree, y: Syncing) returns (states: seq<State>)
    requires s.sync.None? && ValidTree(w, tree) && y.tree == tree && PlanCovers(w, s, y)
    requires tree.sequence > s.built && tree.sequence >= at
             && (tree.sequence == s.built + 1 || tree.sequence == at)
    ensures Steps(w, states) && states[0] == s
    ensures var t := states[|states| - 1];
            && t.sync.None? && t.recorded == Some(tree) && t.older == s.recorded && t.built == tree.sequence
            && forall n :: n in tree.records ==> n in t.zone && t.zone[n] == tree.records[n]
  {
    var built := Apply(w, s, Build(at, tree)).value;
    var begun := Apply(w, built, Begin(y)).value;
    var rest := SyncCompletes(w, begun);
    StepsOn(w, built, Begin(y), rest);
    StepsOn(w, s, Build(at, tree), [built] + rest);
    states := [s] + ([built] + rest);
    assert states[|states| - 1] == rest[|rest| - 1];
  }
}
