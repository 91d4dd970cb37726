/** The bounded node set: every operation keeps the candidate counter exact and the row count within the limit. */
module NodeSet {
  import opened Text
  import opened Collections
  import opened Nodes
  import opened Eviction
  import P = Probes

  datatype Observation = Observation(accepted: bool, applied: bool, changed: bool, isNew: bool, reject: string,
                                     evicted: nat, evictedClass: string)

  const NOTHING := Observation(false, false, false, false, "", 0, "")
  const ACCEPTED := NOTHING.(accepted := true)

  function Rejected(reason: string): Observation {
    NOTHING.(reject := reason)
  }

  function ClassName(c: int): string {
    if c == VERIFIED then "verified" else if c == CLASSIFIED then "classified"
    else if c == UNCLASSIFIED then "unclassified" else if c == FALLBACK then "fallback" else ""
  }

  /** A restored snapshot row: its decoded id, whether its addresses are usable, and its fields. */
  datatype Row = Row(id: Option<Id>, usable: bool, node: Node)

  // ----- the map of rows -----

  function Candidates(m: map<Id, Node>): set<Id> {
    set id | id in m && IsELCandidate(m[id])
  }

  function RowOf(m: map<Id, Node>, id: Id): Option<Node> {
    if id in m then Some(m[id]) else None
  }

  /** The row of an id changed as one event of its probe state machine, for whatever token the event names. */
  ghost predicate RowStep(before: map<Id, Node>, after: map<Id, Node>, id: Id, event: P.Token -> P.Event) {
    forall token :: RowOf(after, id) == P.RowAfter(RowOf(before, id), event(token))
  }

  function Unit(b: bool): int {
    if b then 1 else 0
  }

  function Replaced(m: map<Id, Node>, id: Id, n: Option<Node>): map<Id, Node> {
    if n.Some? then m[id := n.value] else m - {id}
  }

  lemma CandidatesReplaced(m: map<Id, Node>, id: Id, n: Option<Node>)
    ensures |Candidates(Replaced(m, id, n))| ==
            |Candidates(m)| - Unit(id in m && IsELCandidate(m[id])) + Unit(n.Some? && IsELCandidate(n.value))
  {
    var rest := Candidates(m) - {id};
    Removed(Candidates(m), id);
    Added(rest, id);
    CandidatesAre(m, id, n);
  }

  lemma CandidatesAre(m: map<Id, Node>, id: Id, n: Option<Node>)
    ensures var rest := Candidates(m) - {id};
            Candidates(Replaced(m, id, n)) == if n.Some? && IsELCandidate(n.value) then rest + {id} else rest
  {
  }

  lemma SizeReplaced(m: map<Id, Node>, id: Id, n: Option<Node>)
    ensures |Replaced(m, id, n)| == |m| - Unit(id in m) + Unit(n.Some?)
  {
    var r := Replaced(m, id, n);
    Removed(m.Keys, id);
    Added(m.Keys - {id}, id);
    assert |m| == |m.Keys| && |r| == |r.Keys|;
    assert r.Keys == if n.Some? then m.Keys - {id} + {id} else m.Keys - {id};
  }

  lemma SizeLess(m: map<Id, Node>, ids: set<Id>)
    requires ids <= m.Keys
    ensures |m - ids| == |m| - |ids|
  {
    assert |m| == |m.Keys| && |m - ids| == |(m - ids).Keys|;
    assert (m - ids).Keys == m.Keys - ids;
  }

  // ----- admission of a new row -----

  function NewcomerClass(network: string, failedResolution: bool, pin: bool): int {
    if pin then VERIFIED else if failedResolution then FALLBACK else if network != "" then CLASSIFIED else UNCLASSIFIED
  }

  predicate Full(m: map<Id, Node>, max: int) {
    max > 0 && |m| >= max
  }

  /** The rows a full set gives up for a newcomer. */
  function Displaced(m: map<Id, Node>, max: int, newcomer: int): set<Id> {
    if Full(m, max) then Victims(m, newcomer, Batch(max)) else {}
  }

  function Fresh(id: Id, e: Extracted, via: string, now: Time, failedResolution: bool, pin: bool): Node {
    var row := NewRow(id, now, if failedResolution then DROP_BELOW else SCORE_INIT);
    Observed(Touched(row, via, now, false, failedResolution, pin).value, e, false, now)
  }

  lemma NewRowsKeepTheirId(id: Id, e: Extracted, via: string, now: Time, failedResolution: bool, pin: bool)
    ensures Fresh(id, e, via, now, failedResolution, pin).id == id
  {
  }

  /** A newcomer is admitted under the class its row then has. */
  lemma FreshClass(id: Id, e: Extracted, via: string, now: Time, failedResolution: bool, pin: bool)
    ensures CapacityClass(Fresh(id, e, via, now, failedResolution, pin))
            == NewcomerClass(e.network, failedResolution, pin)
  {
  }

  lemma DisplacedMakesRoom(m: map<Id, Node>, max: int, id: Id, n: Node)
    requires Keyed(m) && id !in m
    ensures MakesRoom(m, (m - Displaced(m, max, CapacityClass(n)))[id := n], n)
  {
    if Full(m, max) { VictimsMakeRoom(m, (m - Displaced(m, max, CapacityClass(n)))[id := n], n, Batch(max)); }
  }

  /** A full set turns a newcomer away exactly when no row gives way to it. */
  lemma TurnedAwayExactly(m: map<Id, Node>, max: int, n: Node)
    requires Keyed(m) && Full(m, max)
    ensures Displaced(m, max, CapacityClass(n)) == {} <==> !exists id :: id in m && GivesWay(m[id], n)
  {
    SomeoneGivesWay(m, n, Batch(max));
  }

  /** A sighting of a retained row touches it, deletes it, ignores an older record, or applies the record. */
  function SeenAgain(m: map<Id, Node>, id: Id, e: Extracted, via: string, now: Time, failedResolution: bool, pin: bool):
    (map<Id, Node>, Observation)
    requires id in m
  {
    var t := Touched(m[id], via, now, true, failedResolution, pin);
    if t.None? then (m - {id}, ACCEPTED)
    else if e.record.sequence < t.value.record.sequence then (m[id := t.value], ACCEPTED)
    else (m[id := Observed(t.value, e, true, now)], AppliedTo(t.value, e))
  }

  lemma TouchedKeepsId(n: Node, via: string, now: Time, failedResolution: bool, pin: bool)
    ensures var t := Touched(n, via, now, true, failedResolution, pin); t.Some? ==> t.value.id == n.id
  {
  }

  lemma ObservedKeepsId(n: Node, e: Extracted, now: Time)
    ensures Observed(n, e, true, now).id == n.id
  {
  }

  /** A sighting is a touch, and when the record is applied an observation, of the row's probe state machine. */
  lemma SightingIsEvents(m: map<Id, Node>, id: Id, e: Extracted, via: string, now: Time, failedResolution: bool,
                         pin: bool)
    requires id in m
    ensures var s := SeenAgain(m, id, e, via, now, failedResolution, pin);
            var t := P.RowAfter(RowOf(m, id), P.Touch(via, now, failedResolution, pin));
            RowOf(s.0, id) == if s.1.applied then P.RowAfter(t, P.Observe(e, now)) else t
  {
  }

  predicate Stale(n: Node, cutoff: Time, verifiedCutoff: Time) {
    && !n.pinned
    && if n.fp.done then
         verifiedCutoff != ZERO_TIME && (n.seen.resolved == ZERO_TIME || n.seen.resolved < verifiedCutoff)
       else n.seen.last < cutoff
  }

  /** The rows still to be looked at, and the fresh ones among the others. */
  function Kept(m: map<Id, Node>, todo: set<Id>, cutoff: Time, verifiedCutoff: Time): map<Id, Node> {
    map id | id in m && (id in todo || !Stale(m[id], cutoff, verifiedCutoff)) :: m[id]
  }

  lemma KeptNext(m: map<Id, Node>, todo: set<Id>, cutoff: Time, verifiedCutoff: Time, id: Id)
    requires id in m && id in todo
    ensures var k := Kept(m, todo, cutoff, verifiedCutoff);
            && id in k && k[id] == m[id]
            && Kept(m, todo - {id}, cutoff, verifiedCutoff)
               == if Stale(m[id], cutoff, verifiedCutoff) then k - {id} else k
  {
  }

  // ----- restoring rows -----

  /** Only execution probes report capabilities, so a consensus row with some holds an execution identity. */
  function Restored(r: Row): Node
    requires r.id.Some?
  {
    var n := r.node.(id := r.id.value, fp := r.node.fp.(inFlight := false, refresh := false),
                     membership := r.node.membership.(creditAt := ZERO_TIME));
    if n.layer == "cl" && n.identity.caps != "" then ClearedFingerprint(n) else n
  }

  datatype Ingested = Ingested(m: map<Id, Node>, dropped: nat, evicted: nat)

  /** A restored row takes the place of the one held, or of the victims, or is dropped. */
  function Placed(m: map<Id, Node>, max: int, n: Node): Ingested {
    if n.id in m then Ingested(m[n.id := n], 0, 0)
    else
      var gone := Displaced(m, max, CapacityClass(n));
      if Full(m, max) && gone == {} then Ingested(m, 1, 0) else Ingested((m - gone)[n.id := n], 0, |gone|)
  }

  function IngestOne(m: map<Id, Node>, max: int, r: Row): Ingested {
    if r.id.None? || !r.usable then Ingested(m, 1, 0) else Placed(m, max, Restored(r))
  }

  function IngestAll(m: map<Id, Node>, max: int, rows: seq<Row>): Ingested {
    if rows == [] then Ingested(m, 0, 0)
    else
      var before := IngestAll(m, max, rows[..|rows| - 1]);
      var now := IngestOne(before.m, max, rows[|rows| - 1]);
      Ingested(now.m, before.dropped + now.dropped, before.evicted + now.evicted)
  }

  // ----- the set -----

  class Set {
    var m: map<Id, Node>
    var candidates: int
    const max: int

    /** The counter is exact and a positive limit holds. */
    predicate Valid()
      reads this
    {
      Keyed(m) && candidates == |Candidates(m)| && (max > 0 ==> |m| <= max)
    }

    constructor (max: int)
      ensures Valid() && m == map[] && this.max == max
    {
      m, candidates := map[], 0;
      this.max := max;
    }

    /** A row changed, inserted or deleted, with the counter kept up to date. */
    method Replace(id: Id, n: Option<Node>)
      requires Valid() && (n.Some? ==> n.value.id == id && (id in m || !Full(m, max)))
      modifies this
      ensures Valid() && m == Replaced(old(m), id, n)
    {
      CandidatesReplaced(m, id, n);
      SizeReplaced(m, id, n);
      var was := id in m && IsELCandidate(m[id]);
      var isOne := n.Some? && IsELCandidate(n.value);
      if isOne && !was { candidates := candidates + 1; } else if was && !isOne { candidates := candidates - 1; }
      m := Replaced(m, id, n);
    }

    /** evictForLocked. */
    method EvictFor(newcomer: int) returns (count: nat, className: string)
      requires Valid() && max > 0 && 0 <= newcomer
      modifies this
      ensures Valid() && m == old(m) - Victims(old(m), newcomer, Batch(max))
      ensures count == |Victims(old(m), newcomer, Batch(max))|
      ensures count > 0 ==> |m| < max
      ensures forall id :: id in Victims(old(m), newcomer, Batch(max)) ==>
          className == ClassName(CapacityClass(old(m)[id]))
      ensures forall n: Node :: CapacityClass(n) == newcomer ==> MakesRoom(old(m), m, n)
    {
      forall n: Node | CapacityClass(n) == newcomer
        ensures MakesRoom(m, m - Victims(m, newcomer, Batch(max)), n) {
        VictimsMakeRoom(m, m - Victims(m, newcomer, Batch(max)), n, Batch(max));
      }
      var victims, worst := ChooseVictims(m, newcomer, Batch(max));
      count, className := |victims|, if victims == [] then "" else ClassName(worst);
      VictimClasses(m, victims, worst);
      SizeLess(m, IdsOf(victims));
      DeleteAll(victims);
    }

    method DeleteAll(victims: seq<Node>)
      requires Valid()
      modifies this
      ensures Valid() && m == old(m) - IdsOf(victims)
    {
      for i := 0 to |victims|
        invariant Valid() && m == old(m) - IdsOf(victims[..i])
      {
        OneMoreId(victims, i);
        Replace(victims[i].id, None);
        MinusBoth(old(m), IdsOf(victims[..i]), victims[i].id);
      }
      assert victims[..|victims|] == victims;
    }

    /** observe's first critical section: a sighting of a record older than the one held. */
    method ObserveStale(id: Id, sequence: nat, via: string, now: Time, failedResolution: bool, pin: bool)
      returns (stale: bool)
      requires Valid()
      modifies this
      ensures Valid() && stale == (id in old(m) && sequence < old(m)[id].record.sequence)
      ensures m == if stale then Replaced(old(m), id, Touched(old(m)[id], via, now, true, failedResolution, pin))
                   else old(m)
      ensures stale ==> RowStep(old(m), m, id, (t: P.Token) => P.Touch(via, now, failedResolution, pin))
    {
      stale := id in m && sequence < m[id].record.sequence;
      if stale {
        Replace(id, Touched(m[id], via, now, true, failedResolution, pin));
      }
    }

    /** observe's second critical section, on a retained row. */
    method ObserveRow(id: Id, e: Extracted, via: string, now: Time, failedResolution: bool, pin: bool)
      returns (o: Observation)
      requires Valid() && id in m
      modifies this
      ensures Valid() && (m, o) == SeenAgain(old(m), id, e, via, now, failedResolution, pin)
    {
      TouchedKeepsId(m[id], via, now, failedResolution, pin);
      var t := Touched(m[id], via, now, true, failedResolution, pin);
      o := ACCEPTED;
      if t.None? || e.record.sequence < t.value.record.sequence {
        Replace(id, t);
        return;
      }
      o := AppliedTo(t.value, e);
      ObservedKeepsId(t.value, e, now);
      Replace(id, Some(Observed(t.value, e, true, now)));
    }

    /** observe's second critical section, on a new row. */
    method ObserveNew(id: Id, e: Extracted, via: string, now: Time, failedResolution: bool, pin: bool)
      returns (o: Observation)
      requires Valid() && id !in m
      modifies this
      ensures Valid()
      ensures var gone := Displaced(old(m), max, NewcomerClass(e.network, failedResolution, pin));
              if Full(old(m), max) && gone == {} then m == old(m) && o == Rejected("capacity")
              else m == (old(m) - gone)[id := Fresh(id, e, via, now, failedResolution, pin)]
                   && o == NOTHING.(accepted := true, applied := true, changed := true, isNew := true,
                                    evicted := |gone|, evictedClass := o.evictedClass)
                   && forall v :: v in gone ==> o.evictedClass == ClassName(CapacityClass(old(m)[v]))
      ensures o.isNew ==> MakesRoom(old(m), m, Fresh(id, e, via, now, failedResolution, pin))
      ensures o.isNew ==>
                RowStep(old(m), m, id, (t: P.Token) => P.Insert(Fresh(id, e, via, now, failedResolution, pin)))
    {
      var evicted, evictedClass := 0, "";
      if max > 0 && |m| >= max {
        evicted, evictedClass := EvictFor(NewcomerClass(e.network, failedResolution, pin));
        if evicted == 0 {
          NoVictims(old(m), Displaced(old(m), max, NewcomerClass(e.network, failedResolution, pin)));
          return Rejected("capacity");
        }
      } else {
        assert m - {} == m;
      }
      NewRowsKeepTheirId(id, e, via, now, failedResolution, pin);
      FreshClass(id, e, via, now, failedResolution, pin);
      DisplacedMakesRoom(old(m), max, id, Fresh(id, e, via, now, failedResolution, pin));
      Replace(id, Some(Fresh(id, e, via, now, failedResolution, pin)));
      o := NOTHING.(accepted := true, applied := true, changed := true, isNew := true,
                    evicted := evicted, evictedClass := evictedClass);
    }

    /** ObserveCandidateEL; reject is the address check's verdict. */
    method ObserveCandidateEL(id: Id, reject: string, e: Extracted, now: Time, limit: int) returns (o: Observation)
      requires Valid()
      modifies this
      ensures Valid()
      ensures if reject != "" then m == old(m) && o == Rejected(reject)
              else if e.record.endpoint.ip == "" && e.record.endpoint.ip6 == "" then
                m == old(m) && o == Rejected("no_address")
              else if id in old(m) then
                m == old(m)[id := CandidateSeen(old(m)[id], e, now)]
                && o == CandidateOutcome(old(m)[id], e)
              else if Full(old(m), max) then m == old(m) && o == Rejected("capacity")
              else if limit > 0 && |Candidates(old(m))| >= limit then m == old(m) && o == Rejected("candidate_cap")
              else if !Fingerprintable(NewCandidate(id, e, now)) then m == old(m) && o == Rejected("no_address")
              else m == old(m)[id := NewCandidate(id, e, now)] && o == ACCEPTED.(applied := true, isNew := true)
      ensures o.accepted && id in old(m) ==> RowStep(old(m), m, id, (t: P.Token) => P.Candidate(e, now))
      ensures limit > 0 && |Candidates(old(m))| <= limit ==> |Candidates(m)| <= limit
    {
      if reject != "" { return Rejected(reject); }
      if e.record.endpoint.ip == "" && e.record.endpoint.ip6 == "" { return Rejected("no_address"); }
      if id in m {
        o := CandidateOutcome(m[id], e);
        CandidatesReplaced(m, id, Some(CandidateSeen(m[id], e, now)));
        Replace(id, Some(CandidateSeen(m[id], e, now)));
        return;
      }
      if max > 0 && |m| >= max { return Rejected("capacity"); }
      if limit > 0 && candidates >= limit { return Rejected("candidate_cap"); }
      var n := NewCandidate(id, e, now);
      if !Fingerprintable(n) { return Rejected("no_address"); }
      CandidatesReplaced(m, id, Some(n));
      Replace(id, Some(n));
      o := ACCEPTED.(applied := true, isNew := true);
    }

    /** The membership stamp of ObserveAuthenticatedEL and ObserveAuthenticatedCL, their last critical section. */
    method StampStatus(id: Id, layer: string, network: string, hash: string, next: nat, now: Time)
      requires Valid()
      modifies this
      ensures Valid()
      ensures m == if id in old(m) then old(m)[id := Stamped(old(m)[id], layer, network, hash, next, now)] else old(m)
      ensures RowStep(old(m), m, id, (t: P.Token) => P.Stamp(layer, network, hash, next, now))
    {
      if id in m { Replace(id, Some(Stamped(m[id], layer, network, hash, next, now))); }
    }

    method SetExecutionCandidateLayer(id: Id, limit: int) returns (ok: bool)
      requires Valid()
      modifies this
      ensures Valid()
      ensures ok == (id in old(m) && old(m)[id].layer == "" && Fingerprintable(old(m)[id].(layer := "el"))
                     && !(limit > 0 && |Candidates(old(m))| >= limit && old(m)[id].network == ""))
      ensures m == if ok then old(m)[id := old(m)[id].(layer := "el")] else old(m)
      ensures ok ==> RowStep(old(m), m, id, (t: P.Token) => P.CandidateLayer)
      ensures limit > 0 && |Candidates(old(m))| <= limit ==> |Candidates(m)| <= limit
    {
      if id !in m || m[id].layer != "" { return false; }
      var n := m[id];
      if limit > 0 && candidates >= limit && n.network == "" { return false; }
      n := n.(layer := "el");
      if !Fingerprintable(n) { return false; }
      CandidatesReplaced(m, id, Some(n));
      Replace(id, Some(n));
      ok := true;
    }

    method SetCandidateClient(id: Id, fp: Identity, direction: string) returns (ok: bool)
      requires Valid()
      modifies this
      ensures Valid() && ok == (id in old(m) && IsELCandidate(old(m)[id]))
      ensures m == if ok then old(m)[id := WithCandidateClient(old(m)[id], fp, direction)] else old(m)
      ensures RowStep(old(m), m, id, (t: P.Token) => P.CandidateClient(fp, direction))
    {
      ok := id in m && IsELCandidate(m[id]);
      if ok { Replace(id, Some(WithCandidateClient(m[id], fp, direction))); }
    }

    method SetExecutionStatusAt(id: Id, network: string, hash: string, next: nat, now: Time) returns (ok: bool)
      requires Valid()
      modifies this
      ensures Valid() && ok == (id in old(m) && old(m)[id].layer == "el" && network != "")
      ensures m == if ok then old(m)[id := WithStatus(old(m)[id], network, hash, next, now)] else old(m)
      ensures ok ==> RowStep(old(m), m, id, (t: P.Token) => P.Status(network, hash, next, now))
    {
      ok := id in m && m[id].layer == "el" && network != "";
      if ok { Replace(id, Some(WithStatus(m[id], network, hash, next, now))); }
    }

    /** A consensus Status carries no next fork, and may carry no digest. */
    method SetConsensusStatus(id: Id, network: string, digest: string, now: Time) returns (ok: bool)
      requires Valid()
      modifies this
      ensures Valid() && ok == (id in old(m) && old(m)[id].layer == "cl" && network != "")
      ensures m == if ok then
                     old(m)[id := WithStatus(old(m)[id], network,
                                             if digest != "" then digest else old(m)[id].fork.hash,
                                             old(m)[id].fork.next, now)]
                   else old(m)
      ensures ok ==> (
                var fork := old(m)[id].fork;
                RowStep(old(m), m, id,
                        (t: P.Token) => P.Status(network, if digest != "" then digest else fork.hash, fork.next, now)))
    {
      ok := id in m && m[id].layer == "cl" && network != "";
      if ok {
        Replace(id, Some(WithStatus(m[id], network, if digest != "" then digest else m[id].fork.hash,
                                    m[id].fork.next, now)));
      }
    }

    method ClaimFingerprintInfo(id: Id, now: Time) returns (ok: bool, layer: string, network: string)
      requires Valid()
      modifies this
      ensures Valid() && ok == (id in old(m) && FingerprintDue(old(m)[id], now))
      ensures m == if ok then old(m)[id := Claimed(old(m)[id])] else old(m)
      ensures ok ==> layer == old(m)[id].layer && network == old(m)[id].network
      ensures RowStep(old(m), m, id, (t: P.Token) => P.Grant(t, now))
    {
      ok, layer, network := id in m && FingerprintDue(m[id], now), "", "";
      if ok {
        layer, network := m[id].layer, m[id].network;
        Replace(id, Some(Claimed(m[id])));
      }
    }

    method UnclaimFingerprint(id: Id)
      requires Valid()
      modifies this
      ensures Valid() && m == if id in old(m) then old(m)[id := Unclaimed(old(m)[id])] else old(m)
      ensures RowStep(old(m), m, id, (t: P.Token) => P.Unclaim(t))
    {
      if id in m { Replace(id, Some(Unclaimed(m[id]))); }
    }

    method FingerprintFailed(id: Id, now: Time) returns (retry: Retry)
      requires Valid()
      modifies this
      ensures Valid() && m == if id in old(m) then old(m)[id := Failed(old(m)[id], now).0] else old(m)
      ensures retry == if id in old(m) then Failed(old(m)[id], now).1 else NO_RETRY
      ensures RowStep(old(m), m, id, (t: P.Token) => P.Fail(t, now))
    {
      retry := NO_RETRY;
      if id in m {
        retry := Failed(m[id], now).1;
        Replace(id, Some(Failed(m[id], now).0));
      }
    }

    method SetFingerprint(id: Id, layer: string, fp: Identity, direction: string, claimed: bool, now: Time)
      returns (failures: int, applied: bool)
      requires Valid()
      modifies this
      ensures Valid()
      ensures m == if id in old(m) then
                     old(m)[id := WithFingerprint(old(m)[id], layer, fp, direction, claimed, now).row]
                   else old(m)
      ensures applied == (id in old(m) && WithFingerprint(old(m)[id], layer, fp, direction, claimed, now).applied)
      ensures failures == if id in old(m) then WithFingerprint(old(m)[id], layer, fp, direction, claimed, now).failures
                          else 0
      ensures RowStep(old(m), m, id,
                      (t: P.Token) => if claimed then P.Complete(t, layer, fp, direction, now)
                                      else P.Inbound(layer, fp, direction, now))
    {
      failures, applied := 0, false;
      if id in m {
        var r := WithFingerprint(m[id], layer, fp, direction, claimed, now);
        failures, applied := r.failures, r.applied;
        Replace(id, Some(r.row));
      }
    }

    method Penalize(id: Id, now: Time)
      requires Valid()
      modifies this
      ensures Valid() && m == if id in old(m) then Replaced(old(m), id, PenalizedAt(old(m)[id], now)) else old(m)
      ensures RowStep(old(m), m, id, (t: P.Token) => P.Penalize(now))
    {
      if id in m { Replace(id, PenalizedAt(m[id], now)); }
    }

    method PruneStaleWithVerified(cutoff: Time, verifiedCutoff: Time) returns (removed: nat)
      requires Valid()
      modifies this
      ensures Valid() && m == Kept(old(m), {}, cutoff, verifiedCutoff)
      ensures removed == |old(m)| - |m|
    {
      removed := 0;
      var todo := m.Keys;
      ghost var was := m;
      while todo != {}
        invariant Valid() && todo <= m.Keys && removed == |was| - |m| && m == Kept(was, todo, cutoff, verifiedCutoff)
        decreases todo
      {
        var id :| id in todo;
        KeptNext(was, todo, cutoff, verifiedCutoff, id);
        if Stale(m[id], cutoff, verifiedCutoff) {
          SizeReplaced(m, id, None);
          Replace(id, None);
          removed := removed + 1;
        }
        todo := todo - {id};
      }
    }

    method Ingest(rows: seq<Row>) returns (dropped: nat, evicted: nat)
      requires Valid()
      modifies this
      ensures Valid() && IngestAll(old(m), max, rows) == Ingested(m, dropped, evicted)
    {
      dropped, evicted := 0, 0;
      for i := 0 to |rows|
        invariant Valid() && IngestAll(old(m), max, rows[..i]) == Ingested(m, dropped, evicted)
      {
        IngestNext(old(m), max, rows, i);
        var d, v := IngestRow(rows[i]);
        dropped, evicted := dropped + d, evicted + v;
      }
      assert rows[..|rows|] == rows;
    }

    method IngestRow(r: Row) returns (dropped: nat, evicted: nat)
      requires Valid()
      modifies this
      ensures Valid() && IngestOne(old(m), max, r) == Ingested(m, dropped, evicted)
    {
      if r.id.None? || !r.usable { return 1, 0; }
      dropped, evicted := Place(Restored(r));
    }

    /** Room for one row of the class, if there is some or some can be made. */
    method MakeRoom(newcomer: int) returns (ok: bool, evicted: nat)
      requires Valid() && 0 <= newcomer
      modifies this
      ensures Valid() && m == old(m) - Displaced(old(m), max, newcomer)
      ensures evicted == |Displaced(old(m), max, newcomer)|
      ensures ok <==> !(Full(old(m), max) && Displaced(old(m), max, newcomer) == {})
      ensures ok ==> !Full(m, max)
    {
      ok, evicted := true, 0;
      if max > 0 && |m| >= max {
        var className;
        evicted, className := EvictFor(newcomer);
        ok := evicted > 0;
        if !ok { NoVictims(old(m), Displaced(old(m), max, newcomer)); }
      } else {
        assert m - {} == m;
      }
    }

    method Place(n: Node) returns (dropped: nat, evicted: nat)
      requires Valid()
      modifies this
      ensures Valid() && Placed(old(m), max, n) == Ingested(m, dropped, evicted)
    {
      if n.id in m {
        Replace(n.id, Some(n));
        return 0, 0;
      }
      ghost var gone := Displaced(m, max, CapacityClass(n));
      PlacedNew(m, max, n, gone);
      var ok;
      ok, evicted := MakeRoom(CapacityClass(n));
      if !ok { return 1, 0; }
      Replace(n.id, Some(n));
      dropped := 0;
    }
  }

  lemma PlacedNew(m: map<Id, Node>, max: int, n: Node, gone: set<Id>)
    requires n.id !in m && gone == Displaced(m, max, CapacityClass(n))
    ensures Placed(m, max, n) == if Full(m, max) && gone == {} then Ingested(m, 1, 0)
                                 else Ingested((m - gone)[n.id := n], 0, |gone|)
    ensures gone == {} ==> m - gone == m
  {
  }

  lemma OneMoreId(victims: seq<Node>, i: nat)
    requires i < |victims|
    ensures IdsOf(victims[..i + 1]) == IdsOf(victims[..i]) + {victims[i].id}
  {
    assert victims[..i + 1] == victims[..i] + [victims[i]];
    assert forall k :: 0 <= k < i ==> victims[..i + 1][k] == victims[..i][k];
  }

  lemma MinusBoth(m: map<Id, Node>, ids: set<Id>, id: Id)
    ensures m - ids - {id} == m - (ids + {id})
  {
  }

  lemma VictimClasses(m: map<Id, Node>, victims: seq<Node>, worst: int)
    requires forall v :: v in victims ==> v.id in m && m[v.id] == v && CapacityClass(v) == worst
    ensures IdsOf(victims) <= m.Keys
    ensures forall id :: id in IdsOf(victims) ==> id in m && CapacityClass(m[id]) == worst
    ensures victims == [] ==> IdsOf(victims) == {}
  {
    forall id | id in IdsOf(victims) ensures id in m && CapacityClass(m[id]) == worst {
      var k :| 0 <= k < |victims| && victims[k].id == id;
      assert victims[k] in victims;
    }
  }

  lemma NoVictims(m: map<Id, Node>, gone: set<Id>)
    requires |gone| == 0
    ensures gone == {} && m - gone == m
  {
  }

  lemma IngestNext(m: map<Id, Node>, max: int, rows: seq<Row>, i: nat)
    requires i < |rows|
    ensures var before := IngestAll(m, max, rows[..i]); var now := IngestOne(before.m, max, rows[i]);
            IngestAll(m, max, rows[..i + 1])
            == Ingested(now.m, before.dropped + now.dropped, before.evicted + now.evicted)
  {
    assert rows[..i + 1][..i] == rows[..i];
  }

  /** What applying a record to a retained row reports. */
  function AppliedTo(n: Node, e: Extracted): Observation {
    ACCEPTED.(applied := true,
              changed := e.record.sequence != n.record.sequence || e.record.enr != n.record.enr
                         || e.record.enode != n.record.enode)
  }

  function CandidateOutcome(n: Node, e: Extracted): Observation {
    if IsELCandidate(n) then ACCEPTED.(applied := true)
    else ACCEPTED.(changed := Unsigned(n) && RecordChanged(n, e))
  }

  // ----- what restoring rows conserves -----

  /** Accepted rows whose id the set already held when they came. */
  function Repeats(m: map<Id, Node>, max: int, rows: seq<Row>): nat {
    if rows == [] then 0
    else
      var front, r := rows[..|rows| - 1], rows[|rows| - 1];
      Repeats(m, max, front) + if r.id.Some? && r.usable && r.id.value in IngestAll(m, max, front).m then 1 else 0
  }

  lemma OneConserves(m: map<Id, Node>, max: int, r: Row)
    ensures var n := IngestOne(m, max, r);
            |n.m| - |m| + n.dropped + n.evicted == if r.id.Some? && r.usable && r.id.value in m then 0 else 1
  {
    if r.id.Some? && r.usable {
      assert Restored(r).id == r.id.value;
      PlacedConserves(m, max, Restored(r));
    }
  }

  lemma PlacedConserves(m: map<Id, Node>, max: int, n: Node)
    ensures var p := Placed(m, max, n); |p.m| - |m| + p.dropped + p.evicted == 1 - Unit(n.id in m)
  {
    if n.id in m { SizeReplaced(m, n.id, Some(n)); }
    else { NewcomerConserves(m, Displaced(m, max, CapacityClass(n)), n); }
  }

  lemma NewcomerConserves(m: map<Id, Node>, gone: set<Id>, n: Node)
    requires n.id !in m && gone <= m.Keys
    ensures |(m - gone)[n.id := n]| == |m| - |gone| + 1
  {
    SizeLess(m, gone);
    SizeReplaced(m - gone, n.id, Some(n));
  }

  /** Rows added, dropped and evicted account for every restored row, save those that repeat an id: the sum is the
      number of rows exactly when no accepted row did. */
  lemma {:induction false} RestoringConserves(m: map<Id, Node>, max: int, rows: seq<Row>)
    ensures var n := IngestAll(m, max, rows);
            && |n.m| - |m| + n.dropped + n.evicted == |rows| - Repeats(m, max, rows)
            && (|n.m| - |m| + n.dropped + n.evicted == |rows| <==> Repeats(m, max, rows) == 0)
    decreases |rows|
  {
    if rows != [] {
      var front := rows[..|rows| - 1];
      RestoringConserves(m, max, front);
      OneConserves(IngestAll(m, max, front).m, max, rows[|rows| - 1]);
    }
  }
}
