/** The snapshot commit protocol: a crawler uploads generation objects, then advances one manifest
    pointer by compare-and-swap.

    The protocol is a state machine with one step per store call. A call may fail before or after taking
    effect, a process may crash between any two calls and restart from the stored manifest, and any number
    of processes may be interleaved. Objects and manifests are named by their content, which stands for an
    injective hash, so a version check compares the manifests themselves. */
module Publish {
  import opened Text

  /** A generation object's key; the rendered key is injective in the network and the instant. */
  datatype Key = Generation(network: string, at: int)

  type Content = nat

  datatype NetworkSnapshot = NetworkSnapshot(key: Key, nodes: nat, current: nat, sum: Content)

  datatype Manifest = Manifest(at: int, crawler: string, run: string, networks: map<string, NetworkSnapshot>)

  datatype Store = Store(objects: map<Key, Content>, manifest: Option<Manifest>)

  // ----- configuration and guards -----

  datatype Config = Config(networks: seq<string>, crawler: string, maxCollapsePct: int, minCurrent: int,
                           keep: int, force: bool)

  /** What one crawl measured for a network, and the serialized rows it would upload. */
  datatype Measured = Measured(nodes: nat, current: nat, content: Content)

  predicate Shrank(after: int, before: int, maxPct: int) {
    before > 0 && after * 100 < before * (100 - maxPct)
  }

  /** The network lost too many rows, or too many current rows without a fork activation. */
  predicate NetworkShrank(before: NetworkSnapshot, after: NetworkSnapshot, maxPct: int, forkActivated: bool) {
    Shrank(after.nodes, before.nodes, maxPct) || (Shrank(after.current, before.current, maxPct) && !forkActivated)
  }

  predicate ShrankTooMuch(prev: Option<Manifest>, m: Manifest, maxPct: int, forked: set<string>) {
    prev.Some? && exists n :: n in prev.value.networks && n in m.networks
                              && NetworkShrank(prev.value.networks[n], m.networks[n], maxPct, n in forked)
  }

  predicate BelowFloor(m: Manifest, networks: seq<string>, minCurrent: int) {
    minCurrent > 0 && exists n :: n in networks && (n !in m.networks || m.networks[n].current < minCurrent)
  }

  /** Later than the previous manifest even when the wall clock stepped back. */
  function GenerationTime(prev: Option<Manifest>, now: int): int {
    if prev.Some? && now <= prev.value.at then prev.value.at + 1 else now
  }

  function Build(cfg: Config, run: string, at: int, rows: map<string, Measured>): Manifest {
    Manifest(at, cfg.crawler, run,
             map n | n in cfg.networks ::
               if n in rows then NetworkSnapshot(Generation(n, at), rows[n].nodes, rows[n].current, rows[n].content)
               else NetworkSnapshot(Generation(n, at), 0, 0, 0))
  }

  // ----- one process -----

  datatype CommitError = Conflict | Competitor | Other

  /** What follows a cleanup: stop the crawler, note a forced write as unsettled, or just end the publish. */
  datatype After = Stop | Settle(forced: bool) | Resume

  datatype PC =
    | Idle
    | Uploading(m: Manifest, forced: bool, next: nat)
    | Committing(m: Manifest, forced: bool)
    | Putting(m: Manifest, forced: bool, expected: Option<Manifest>)
    | Reconciling(m: Manifest, forced: bool, error: CommitError)
    | Cleaning(keys: seq<Key>, after: After)
    | Deleting(keys: seq<Key>, after: After)
    | PruneNext(current: Option<Manifest>, todo: seq<string>)
    | Pruning(current: Option<Manifest>, todo: seq<string>, oldest: seq<Key>, toDelete: nat)
    | Stopped

  /** issued counts the forced manifest writes this process sent; it guides no step. */
  datatype Process = Process(id: nat, cfg: Config, run: string, incarnation: nat, prev: Option<Manifest>,
                             quarantines: nat, forceUsed: bool, forcePending: bool, pc: PC, issued: nat)

  /** A read reports what it saw, absence included, or fails. */
  datatype Reply = Seen(manifest: Option<Manifest>) | Errored

  datatype PutReply = PutOk | PutConflict | PutFailed

  datatype Event =
    | Begin(now: int, rows: map<string, Measured>, forked: set<string>, serialized: bool)
    | Upload(effect: bool, ok: bool)
    | GetVersion(reply: Reply)
    | PutIfVersion(effect: bool, put: PutReply)
    | Reconcile(reply: Reply)
    | CleanupRead(reply: Reply)
    | CleanupDelete(effect: bool)
    | PruneList(listed: Option<seq<Key>>)
    | PruneDelete(effect: bool, ok: bool)
    | Crash
    | Restart(reply: Reply, newRun: string)

  function Keys(cfg: Config, at: int): seq<Key> {
    seq(|cfg.networks|, i requires 0 <= i < |cfg.networks| => Generation(cfg.networks[i], at))
  }

  predicate StoredIsOwn(stored: Option<Manifest>, m: Manifest) {
    stored.Some? && stored.value.run == m.run && stored.value.at == m.at
  }

  /** Begin: build the manifest, run the guards, serialize. */
  function BeginStep(p: Process, e: Event): Process
    requires e.Begin?
  {
    var m := Build(p.cfg, p.run, GenerationTime(p.prev, e.now), e.rows);
    var shrank := ShrankTooMuch(p.prev, m, p.cfg.maxCollapsePct, e.forked);
    if BelowFloor(m, p.cfg.networks, p.cfg.minCurrent) then p.(quarantines := p.quarantines + 1)
    else if shrank && (!p.cfg.force || p.forceUsed || p.forcePending) then p.(quarantines := p.quarantines + 1)
    else if !e.serialized || p.cfg.networks == [] then p
    else p.(pc := Uploading(m, shrank, 0))
  }

  /** WriteConditional's verdict on the manifest it read. */
  function Decide(p: Process, m: Manifest, forced: bool, reply: Reply): PC {
    match reply
    case Errored => Reconciling(m, forced, Other)
    case Seen(None) => if p.prev.Some? then Reconciling(m, forced, Conflict) else Putting(m, forced, None)
    case Seen(Some(cur)) =>
      var ownWrite := cur.run == m.run && m.at > cur.at;
      if !ownWrite && (p.prev.None? || cur.crawler != p.prev.value.crawler || cur.at != p.prev.value.at)
      then Reconciling(m, forced, Competitor)
      else Putting(m, forced, Some(cur))
  }

  function Committed(p: Process, m: Manifest, forced: bool): Process {
    var settled := if forced || p.forcePending then p.(forceUsed := true, forcePending := false) else p;
    settled.(prev := Some(m), quarantines := 0,
             pc := if p.cfg.keep <= 0 then Idle else PruneNext(Some(m), p.cfg.networks))
  }

  /** recoverConflict: None when another writer may have caused the conflict. */
  function RecoverConflict(p: Process, stored: Option<Manifest>, m: Manifest, forced: bool): Option<Process> {
    if p.prev.None? || stored.None? then None
    else if stored.value.run == m.run && stored.value.at > p.prev.value.at then
      var adopted := p.(prev := stored);
      Some(if forced || p.forcePending then adopted.(forceUsed := true, forcePending := false) else adopted)
    else if stored.value.crawler == p.prev.value.crawler && stored.value.at == p.prev.value.at then
      Some(if forced then p.(forcePending := true) else p)
    else None
  }

  function ReconcileStep(p: Process, m: Manifest, forced: bool, error: CommitError, reply: Reply): Process {
    var stored := if reply.Seen? then reply.manifest else None;
    if StoredIsOwn(stored, m) then Committed(p, m, forced)
    else match error
      case Competitor => p.(pc := Cleaning(Keys(p.cfg, m.at), Stop))
      case Conflict =>
        var recovered := RecoverConflict(p, stored, m, forced);
        if recovered.Some? then recovered.value.(pc := Idle) else p.(pc := Cleaning(Keys(p.cfg, m.at), Stop))
      case Other => p.(pc := Cleaning(Keys(p.cfg, m.at), Settle(forced)))
  }

  function Finish(p: Process, after: After): Process {
    match after
    case Stop => p.(pc := Stopped)
    case Settle(forced) => p.(pc := Idle, forcePending := p.forcePending || forced)
    case Resume => p.(pc := Idle)
  }

  function Protected(reply: Reply): set<Key>
    requires reply.Seen?
  {
    if reply.manifest.None? then {}
    else set n | n in reply.manifest.value.networks :: reply.manifest.value.networks[n].key
  }

  function Unprotected(keys: seq<Key>, protected: set<Key>): (r: seq<Key>)
    ensures forall k :: k in r ==> k in keys && k !in protected
  {
    if keys == [] then []
    else (if keys[0] in protected then [] else [keys[0]]) + Unprotected(keys[1..], protected)
  }

  /** The generation pruning must not delete: the one the given manifest names for the network. */
  function ProtectedKey(current: Option<Manifest>, network: string): Option<Key> {
    if current.Some? && network in current.value.networks then Some(current.value.networks[network].key) else None
  }

  /** A listing of one network's generations, oldest first. */
  predicate Lists(st: Store, network: string, keys: seq<Key>) {
    && (forall k :: k in keys ==> k in st.objects && k.network == network)
    && (forall k :: k in st.objects && k.network == network ==> k in keys)
    && (forall i, j :: 0 <= i < j < |keys| ==> keys[i].at < keys[j].at)
  }

  function PruneRest(current: Option<Manifest>, todo: seq<string>): PC
    requires todo != []
  {
    if |todo| == 1 then Idle else PruneNext(current, todo[1..])
  }

  datatype Commit = Commit(id: nat, incarnation: nat, forced: bool, prev: Option<Manifest>,
                           replaced: Option<Manifest>, next: Manifest)

  datatype Outcome = Outcome(store: Store, process: Process, commit: Option<Commit>)

  // ----- the steps; None when the event does not apply -----

  /** One generation object; a failed upload may have taken effect. */
  function UploadStep(st: Store, p: Process, effect: bool, ok: bool): Option<Outcome> {
    if !p.pc.Uploading? || p.pc.next >= |p.cfg.networks| || (ok && !effect) then None
    else
      var net := p.cfg.networks[p.pc.next];
      if net !in p.pc.m.networks then None
      else
        var gen := p.pc.m.networks[net];
        var st' := if effect then st.(objects := st.objects[gen.key := gen.sum]) else st;
        var pc' := if !ok then Cleaning(Keys(p.cfg, p.pc.m.at)[..p.pc.next + 1], Resume)
                   else if p.pc.next + 1 == |p.cfg.networks| then Committing(p.pc.m, p.pc.forced)
                   else p.pc.(next := p.pc.next + 1);
        Some(Outcome(st', p.(pc := pc'), None))
  }

  /** The conditional put; a failed one may have taken effect. */
  function PutStep(st: Store, p: Process, effect: bool, put: PutReply): Option<Outcome> {
    if !p.pc.Putting? || (effect && st.manifest != p.pc.expected) || (put.PutOk? && !effect) then None
    else
      var m, forced := p.pc.m, p.pc.forced;
      var sent := if forced then p.(issued := p.issued + 1) else p;
      var p' := match put
        case PutOk => Committed(sent, m, forced)
        case PutConflict => sent.(pc := Reconciling(m, forced, Conflict))
        case PutFailed => sent.(pc := Reconciling(m, forced, Other));
      if effect then
        Some(Outcome(st.(manifest := Some(m)), p', Some(Commit(p.id, p.incarnation, forced, p.prev, st.manifest, m))))
      else Some(Outcome(st, p', None))
  }

  function CleanupReadStep(st: Store, p: Process, reply: Reply): Option<Outcome> {
    if !p.pc.Cleaning? then None
    else if reply.Errored? then Some(Outcome(st, Finish(p, p.pc.after), None))
    else Some(Outcome(st, p.(pc := Deleting(Unprotected(p.pc.keys, Protected(reply)), p.pc.after)), None))
  }

  function CleanupDeleteStep(st: Store, p: Process, effect: bool): Option<Outcome> {
    if !p.pc.Deleting? then None
    else if p.pc.keys == [] then Some(Outcome(st, Finish(p, p.pc.after), None))
    else
      var st' := if effect then st.(objects := st.objects - {p.pc.keys[0]}) else st;
      Some(Outcome(st', p.(pc := p.pc.(keys := p.pc.keys[1..])), None))
  }

  function PruneListStep(st: Store, p: Process, listed: Option<seq<Key>>): Option<Outcome> {
    if !p.pc.PruneNext? || p.pc.todo == [] then None
    else if listed.None? || |listed.value| <= p.cfg.keep then
      Some(Outcome(st, p.(pc := PruneRest(p.pc.current, p.pc.todo)), None))
    else if !Lists(st, p.pc.todo[0], listed.value) || p.cfg.keep <= 0 then None
    else Some(Outcome(st, p.(pc := Pruning(p.pc.current, p.pc.todo, listed.value, |listed.value| - p.cfg.keep)), None))
  }

  function PruneDeleteStep(st: Store, p: Process, effect: bool, ok: bool): Option<Outcome> {
    if !p.pc.Pruning? || p.pc.todo == [] || (ok && !effect) then None
    else if p.pc.oldest == [] || p.pc.toDelete == 0 then
      Some(Outcome(st, p.(pc := PruneRest(p.pc.current, p.pc.todo)), None))
    else
      var k, rest := p.pc.oldest[0], p.pc.(oldest := p.pc.oldest[1..]);
      if ProtectedKey(p.pc.current, p.pc.todo[0]) == Some(k) then Some(Outcome(st, p.(pc := rest), None))
      else
        var st' := if effect then st.(objects := st.objects - {k}) else st;
        Some(Outcome(st', p.(pc := if ok then rest.(toDelete := p.pc.toDelete - 1) else rest), None))
  }

  function RestartStep(st: Store, p: Process, reply: Reply, newRun: string): Option<Outcome> {
    if !p.pc.Stopped? || reply.Errored? then None
    else
      var restarted := Process(p.id, p.cfg, newRun, p.incarnation + 1, reply.manifest, 0, false, false, Idle, 0);
      Some(Outcome(st, if p.cfg.keep <= 0 || p.cfg.networks == [] then restarted
                       else restarted.(pc := PruneNext(reply.manifest, p.cfg.networks)), None))
  }

  /** One step of one process. */
  function Step(st: Store, p: Process, e: Event): Option<Outcome> {
    match e
    case Begin(_, _, _, _) => if p.pc.Idle? then Some(Outcome(st, BeginStep(p, e), None)) else None
    case Upload(effect, ok) => UploadStep(st, p, effect, ok)
    case GetVersion(reply) =>
      if p.pc.Committing? then Some(Outcome(st, p.(pc := Decide(p, p.pc.m, p.pc.forced, reply)), None)) else None
    case PutIfVersion(effect, put) => PutStep(st, p, effect, put)
    case Reconcile(reply) =>
      if p.pc.Reconciling? then Some(Outcome(st, ReconcileStep(p, p.pc.m, p.pc.forced, p.pc.error, reply), None))
      else None
    case CleanupRead(reply) => CleanupReadStep(st, p, reply)
    case CleanupDelete(effect) => CleanupDeleteStep(st, p, effect)
    case PruneList(listed) => PruneListStep(st, p, listed)
    case PruneDelete(effect, ok) => PruneDeleteStep(st, p, effect, ok)
    case Crash => Some(Outcome(st, p.(pc := Stopped), None))
    case Restart(reply, newRun) => RestartStep(st, p, reply, newRun)
  }
}
