/** The guards of a publish, from the outside: which measurements are published, which are quarantined, and what the
    manifest that is sent says. Everything is stated over row counts, not over the guards' own predicates. */
module Admission {
  import opened Text
  import opened Publish

  function NodesOf(rows: map<string, Measured>, n: string): nat {
    if n in rows then rows[n].nodes else 0
  }

  function CurrentOf(rows: map<string, Measured>, n: string): nat {
    if n in rows then rows[n].current else 0
  }

  /** The share of lost rows, in percent, is above the limit. */
  predicate Lost(before: nat, after: nat, maxPct: int) {
    before > 0 && 100 * (before - after) > maxPct * before
  }

  /** Some published network lost too many rows, or too many current ones with no fork to explain it. */
  predicate Collapsed(prev: Manifest, p: Process, e: Event)
    requires e.Begin?
  {
    exists n :: n in prev.networks && n in p.cfg.networks
                && (Lost(prev.networks[n].nodes, NodesOf(e.rows, n), p.cfg.maxCollapsePct)
                    || (n !in e.forked
                        && Lost(prev.networks[n].current, CurrentOf(e.rows, n), p.cfg.maxCollapsePct)))
  }

  /** Every configured network has as many current rows as the floor asks for. */
  predicate FloorMet(p: Process, e: Event)
    requires e.Begin?
  {
    p.cfg.minCurrent <= 0 || forall n :: n in p.cfg.networks ==> CurrentOf(e.rows, n) >= p.cfg.minCurrent
  }

  predicate CanOverride(p: Process) {
    p.cfg.force && !p.forceUsed && !p.forcePending
  }

  lemma ShrankIsLost(after: nat, before: nat, maxPct: int)
    ensures Shrank(after, before, maxPct) <==> Lost(before, after, maxPct)
  {
    assert before * (100 - maxPct) == 100 * before - maxPct * before;
  }

  lemma CollapsedIsShrank(prev: Manifest, p: Process, e: Event, at: int)
    requires e.Begin?
    ensures ShrankTooMuch(Some(prev), Build(p.cfg, p.run, at, e.rows), p.cfg.maxCollapsePct, e.forked)
            <==> Collapsed(prev, p, e)
  {
    var m := Build(p.cfg, p.run, at, e.rows);
    var pct := p.cfg.maxCollapsePct;
    forall n | n in prev.networks && n in p.cfg.networks
      ensures NetworkShrank(prev.networks[n], m.networks[n], pct, n in e.forked)
              <==> (Lost(prev.networks[n].nodes, NodesOf(e.rows, n), pct)
                    || (n !in e.forked && Lost(prev.networks[n].current, CurrentOf(e.rows, n), pct))) {
      ShrankIsLost(NodesOf(e.rows, n), prev.networks[n].nodes, pct);
      ShrankIsLost(CurrentOf(e.rows, n), prev.networks[n].current, pct);
    }
  }

  lemma FloorIsMet(p: Process, e: Event, at: int)
    requires e.Begin?
    ensures BelowFloor(Build(p.cfg, p.run, at, e.rows), p.cfg.networks, p.cfg.minCurrent) <==> !FloorMet(p, e)
  {
    var m := Build(p.cfg, p.run, at, e.rows);
    assert forall n :: n in p.cfg.networks ==> m.networks[n].current == CurrentOf(e.rows, n);
  }

  /** A publish is quarantined exactly when the floor is missed, or the rows collapsed and no override is left. */
  lemma QuarantinedExactly(p: Process, e: Event)
    requires e.Begin? && p.pc.Idle?
    ensures var q := BeginStep(p, e);
            && (q == p.(quarantines := p.quarantines + 1)
                <==> !FloorMet(p, e) || (p.prev.Some? && Collapsed(p.prev.value, p, e) && !CanOverride(p)))
            && (q.quarantines == p.quarantines || q == p.(quarantines := p.quarantines + 1))
  {
    var at := GenerationTime(p.prev, e.now);
    FloorIsMet(p, e, at);
    if p.prev.Some? { CollapsedIsShrank(p.prev.value, p, e, at); }
  }

  /** Otherwise it starts uploading, given something to serialize: a manifest later than the previous one, that says
      of every configured network what was measured, and that is forced exactly when the rows collapsed. */
  lemma AdmittedExactly(p: Process, e: Event)
    requires e.Begin? && p.pc.Idle?
    ensures var pc := BeginStep(p, e).pc;
            && (pc.Uploading? <==> FloorMet(p, e) && e.serialized && p.cfg.networks != []
                                   && (p.prev.Some? && Collapsed(p.prev.value, p, e) ==> CanOverride(p)))
            && (!pc.Uploading? ==> pc == Idle)
            && (pc.Uploading? ==> pc.next == 0 && (pc.forced <==> p.prev.Some? && Collapsed(p.prev.value, p, e)))
            && (pc.Uploading? ==> Describes(pc.m, p, e))
  {
    var at := GenerationTime(p.prev, e.now);
    FloorIsMet(p, e, at);
    if p.prev.Some? { CollapsedIsShrank(p.prev.value, p, e, at); }
  }

  /** The manifest a publish sends: its instant is the clock's unless that is not later than the previous one's. */
  predicate Describes(m: Manifest, p: Process, e: Event)
    requires e.Begin?
  {
    && m.crawler == p.cfg.crawler && m.run == p.run
    && m.at >= e.now && (p.prev.Some? ==> m.at > p.prev.value.at)
    && (m.at > e.now ==> p.prev.Some? && m.at == p.prev.value.at + 1)
    && m.networks.Keys == (set n | n in p.cfg.networks)
    && (forall n :: n in m.networks ==>
          && m.networks[n].key == Generation(n, m.at)
          && m.networks[n].nodes == NodesOf(e.rows, n) && m.networks[n].current == CurrentOf(e.rows, n)
          && m.networks[n].sum == if n in e.rows then e.rows[n].content else 0)
  }

  /** A publish in which no network lost a row is never held back by the shrink guard. */
  lemma NoLossIsAdmitted(p: Process, e: Event)
    requires e.Begin? && p.pc.Idle? && p.prev.Some? && 0 <= p.cfg.maxCollapsePct && FloorMet(p, e)
    requires forall n :: n in p.prev.value.networks && n in p.cfg.networks ==>
               && NodesOf(e.rows, n) >= p.prev.value.networks[n].nodes
               && CurrentOf(e.rows, n) >= p.prev.value.networks[n].current
    ensures BeginStep(p, e).quarantines == p.quarantines
    ensures e.serialized && p.cfg.networks != [] ==> BeginStep(p, e).pc.Uploading? && !BeginStep(p, e).pc.forced
  {
    assert !Collapsed(p.prev.value, p, e);
    QuarantinedExactly(p, e);
    AdmittedExactly(p, e);
  }
}
