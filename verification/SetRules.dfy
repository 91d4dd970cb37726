/** The node set's operations from the outside: what a newcomer's row looks like, which rows are stale, what a restart
    keeps, and what records and authenticated Statuses leave behind. */
module SetRules {
  import opened Text
  import opened Nodes
  import opened Eviction
  import opened NodeSet

  // ----- newcomers and the rows they displace -----

  /** A row that gives way is reported by what it lacks. */
  lemma EvictedClassTells(n: Node)
    requires !Guarded(n)
    ensures ClassName(CapacityClass(n)) ==
              if n.score <= 0 then "fallback" else if n.network == "" then "unclassified" else "classified"
  {
  }

  /** A newcomer's row says what its record says, has never been probed, and scores by how it was met. */
  lemma FreshExactly(id: Id, e: Extracted, via: string, now: Time, failed: bool, pin: bool)
    ensures var f := Fresh(id, e, via, now, failed, pin);
            && f.id == id && f.record == e.record && f.network == e.network
            && f.layer == (if e.layer == "unknown" then "" else e.layer)
            && f.fork == (if e.forkHash == "" then ForkClaim("", 0, "", ZERO_TIME)
                          else ForkClaim(e.forkHash, e.forkNext, "enr", now))
            && f.membership == Membership(if e.network == "" then "" else "enr", ZERO_TIME, ZERO_TIME)
            && f.score == (if pin then 10 else if failed then 0 else 1) && f.pinned == pin
            && f.seen == Seen(via == "v4", via == "v5", now, now, now, if !failed && via in {"v4", "v5"} then now
                                                                       else ZERO_TIME)
            && f.identity == (if e.client == "" then NO_IDENTITY
                              else NO_IDENTITY.(client := e.client, version := e.version))
  {
  }

  lemma FreshIsUntried(id: Id, e: Extracted, via: string, now: Time, failed: bool, pin: bool, later: Time)
    ensures var f := Fresh(id, e, via, now, failed, pin);
            && !f.fp.done && !f.fp.inFlight && !f.fp.refresh && f.fp.attempts == 0
            && (FingerprintDue(f, later) <==> Fingerprintable(f))
  {
  }

  /** A newcomer's class, in the words of its sighting. */
  lemma NewcomerGivesWay(m: map<Id, Node>, id: Id, e: Extracted, via: string, now: Time, failed: bool, pin: bool, v: Id)
    requires v in m
    ensures GivesWay(m[v], Fresh(id, e, via, now, failed, pin)) <==>
              !m[v].fp.done && !m[v].pinned
              && (pin || (!failed && (m[v].score <= 0 || (m[v].network == "" && e.network != ""))))
  {
    FreshExactly(id, e, via, now, failed, pin);
    FreshIsUntried(id, e, via, now, failed, pin, now);
  }

  /** An unsigned candidate's row: an execution row of no network, without the record's signature. */
  lemma NewCandidateExactly(id: Id, e: Extracted, now: Time, later: Time)
    ensures var n := NewCandidate(id, e, now);
            && n.id == id && n.layer == "el" && n.network == "" && n.score == 1 && !n.pinned
            && n.record == e.record.(enr := "") && n.identity == NO_IDENTITY
            && n.seen == Seen(false, false, now, now, now, ZERO_TIME)
            && (FingerprintDue(n, later) <==> Fingerprintable(n))
  {
  }

  /** Seeing a candidate again only marks it as seen, and moves its endpoint while it is unsigned and unclassified; a
      probe under way is then discarded. Sequence and signature stay. */
  lemma CandidateSeenExactly(n: Node, e: Extracted, now: Time)
    ensures var s := CandidateSeen(n, e, now);
            var open := n.layer == "el" && n.network == "" && n.record.sequence == 0 && n.record.enr == "";
            && s.seen == n.seen.(last := now, check := now)
            && s.(seen := n.seen, record := n.record, fp := n.fp) == n
            && s.record.sequence == n.record.sequence && s.record.enr == n.record.enr
            && s.record.endpoint == (if open then e.record.endpoint else n.record.endpoint)
            && (!open ==> s.record == n.record && s.fp.refresh == n.fp.refresh)
            && s.fp.(refresh := n.fp.refresh, refreshDue := n.fp.refreshDue) == n.fp
            && (n.fp.inFlight && open && e.record.endpoint != n.record.endpoint ==> s.fp.refresh)
  {
  }

  /** What a candidate sighting reports: applied on an unclassified execution row; on any other one nothing is, and an
      unsigned row whose endpoint or client is another is reported as changed. */
  lemma CandidateOutcomeExactly(n: Node, e: Extracted)
    ensures var o := CandidateOutcome(n, e);
            && o.accepted && !o.isNew && o.reject == ""
            && (o.applied <==> n.layer == "el" && n.network == "")
            && (o.changed <==> !(n.layer == "el" && n.network == "") && n.record.sequence == 0 && n.record.enr == ""
                               && (e.record.endpoint != n.record.endpoint
                                   || (n.identity.client != "" && e.client != "" && e.client != n.identity.client)))
  {
  }

  /** The counter a valid set keeps is the number of execution rows of no network. */
  lemma CounterCounts(m: map<Id, Node>)
    ensures Candidates(m) == set id | id in m && m[id].layer == "el" && m[id].network == ""
  {
  }

  // ----- records -----

  /** A record newly applied replaces the one held; it classifies, and leaves what it does not mention. */
  lemma RecordExactly(n: Node, e: Extracted, now: Time)
    ensures var o := Observed(n, e, true, now);
            && o.id == n.id && o.record == e.record && o.score == n.score && o.seen == n.seen && o.pinned == n.pinned
            && o.network == (if e.network == "" then n.network else e.network)
            && o.layer == (if e.layer == "unknown" then n.layer else e.layer)
  {
    var r := Refreshed(n, e, now);
    RefreshedIs(n, e, now);
    ClassifiedIs(r.(fork := ForkClaimed(r, e, true, now), record := e.record), e);
  }

  lemma RefreshedIs(n: Node, e: Extracted, now: Time)
    ensures var r := Refreshed(n, e, now);
            && r.(identity := n.identity, fp := n.fp) == n && (n.fp.done ==> r.fp.done && r.identity == n.identity)
            && r.fp.inFlight == n.fp.inFlight
  {
  }

  lemma ClassifiedIs(n: Node, e: Extracted)
    ensures var o := ClientFilled(Relayered(Reclassified(n, e.network), e.layer), e);
            && o.id == n.id && o.record == n.record && o.score == n.score && o.seen == n.seen && o.pinned == n.pinned
            && o.network == (if e.network == "" then n.network else e.network)
            && o.layer == (if e.layer == "unknown" then n.layer else e.layer)
            && o.fork == n.fork
  {
    var c := Reclassified(n, e.network);
    assert c.(network := n.network, membership := n.membership) == n;
    LayeredIs(c, e);
  }

  lemma LayeredIs(n: Node, e: Extracted)
    ensures var o := ClientFilled(Relayered(n, e.layer), e);
            var lost := e.layer != "unknown" && n.layer != e.layer && n.layer != "";
            var kept := if lost then NO_IDENTITY else n.identity;
            && o.(layer := n.layer, identity := n.identity, direction := n.direction, fp := n.fp) == n
            && o.layer == (if e.layer == "unknown" then n.layer else e.layer)
            && o.identity == (if kept.client == "" && e.client != ""
                              then kept.(client := e.client, version := e.version) else kept)
            && (lost ==> !o.fp.done && o.fp.attempts == 0 && o.fp.next == ZERO_TIME)
            && (!lost ==> o.fp == n.fp && o.direction == n.direction)
  {
  }

  /** A network's membership claim falls back to the record only when the network is another. */
  lemma MembershipExactly(n: Node, e: Extracted, now: Time)
    ensures var o := Observed(n, e, true, now);
            if e.network == "" then o.membership == n.membership
            else if e.network != n.network then
              o.membership == Membership("enr", ZERO_TIME, n.membership.creditAt)
            else o.membership == n.membership.(source := if n.membership.source == "" then "enr"
                                                         else n.membership.source)
  {
    var r := Refreshed(n, e, now);
    RefreshedIs(n, e, now);
    LayeredIs(Reclassified(r.(fork := ForkClaimed(r, e, true, now), record := e.record), e.network), e);
  }

  /** The fork a row carries is the record's, dated when it differs; a record that says nothing of it leaves it, and
      so does the very record a Status was taken over. */
  lemma ForkExactly(n: Node, e: Extracted, now: Time)
    ensures var o := Observed(n, e, true, now);
            var known := n.fork.source == "status" && e.record.sequence == n.record.sequence
                         && e.record.enr == n.record.enr && e.network == n.network && e.layer == n.layer;
            if e.forkHash == "" || known then o.fork == n.fork
            else if n.fork.source != "" && n.fork.hash == e.forkHash && n.fork.next == e.forkNext then o.fork == n.fork
            else o.fork == ForkClaim(e.forkHash, e.forkNext, "enr", now)
  {
    var r := Refreshed(n, e, now);
    RefreshedIs(n, e, now);
    ClassifiedIs(r.(fork := ForkClaimed(r, e, true, now), record := e.record), e);
  }

  /** A client advertised by the record names an unnamed row; a layer that changes takes the identity with it. */
  lemma IdentityExactly(n: Node, e: Extracted, now: Time)
    requires n.fp.done
    ensures var o := Observed(n, e, true, now);
            var lost := e.layer != "unknown" && n.layer != e.layer && n.layer != "";
            var kept := if lost then NO_IDENTITY else n.identity;
            && o.identity == (if kept.client == "" && e.client != ""
                              then kept.(client := e.client, version := e.version) else kept)
            && (lost ==> !o.fp.done && o.fp.attempts == 0 && o.fp.next == ZERO_TIME)
            && (!lost ==> o.fp.done && o.direction == n.direction)
  {
    var r := Refreshed(n, e, now);
    RefreshedIs(n, e, now);
    var c := Reclassified(r.(fork := ForkClaimed(r, e, true, now), record := e.record), e.network);
    assert c.layer == n.layer && c.identity == n.identity && c.fp == r.fp && c.direction == n.direction;
    LayeredIs(c, e);
  }

  /** What an applied record reports: changed when its sequence, signature or address text is another. */
  lemma AppliedExactly(n: Node, e: Extracted)
    ensures var o := AppliedTo(n, e);
            && o.accepted && o.applied && !o.isNew && o.reject == "" && o.evicted == 0
            && (o.changed <==> (e.record.sequence, e.record.enr, e.record.enode)
                               != (n.record.sequence, n.record.enr, n.record.enode))
  {
  }

  // ----- authenticated Statuses -----

  /** A Status classifies the row, dates its fork and resolves it. */
  lemma StatusExactly(n: Node, network: string, hash: string, next: nat, now: Time)
    ensures var s := WithStatus(n, network, hash, next, now);
            && s.network == network && s.fork == ForkClaim(hash, next, "status", now)
            && s.membership.source == "status" && s.membership.verifiedAt == now
            && s.seen == n.seen.(resolved := now)
            && s.(network := n.network, fork := n.fork, membership := n.membership, score := n.score,
                  seen := n.seen) == n
  {
  }

  /** It is credited as a sighting, up to a score of ten, when the last credited one for the same network is at least
      half an hour old, and otherwise leaves the credit where it was. */
  lemma CreditExactly(n: Node, network: string, hash: string, next: nat, now: Time)
    requires now != ZERO_TIME
    ensures var s := WithStatus(n, network, hash, next, now);
            var since := n.membership.creditAt;
            if n.network != network || since == ZERO_TIME then s.score == n.score && s.membership.creditAt == now
            else if n.membership.source == "status" && now - since >= 30 * 60 * 1_000_000_000 then
              s.score == (if n.score < 10 then n.score + 1 else n.score) && s.membership.creditAt == now
            else s.score == n.score && s.membership.creditAt == since
  {
  }

  /** The row after Statuses of one network at the given times. */
  function StatusesAt(n: Node, network: string, hash: string, next: nat, times: seq<Time>): Node {
    if times == [] then n
    else WithStatus(StatusesAt(n, network, hash, next, times[..|times| - 1]), network, hash, next, times[|times| - 1])
  }

  /** However often a peer connects within half an hour of a first Status, it earns no score by it. */
  lemma {:induction false} BackToBackEarnNothing(n: Node, network: string, hash: string, next: nat, times: seq<Time>)
    requires times != [] && times[0] > 0 && (n.membership.creditAt == ZERO_TIME || n.network != network)
    requires forall i :: 0 <= i < |times| ==> times[0] <= times[i] < times[0] + 30 * 60 * 1_000_000_000
    ensures var s := StatusesAt(n, network, hash, next, times);
            s.score == n.score && s.network == network && s.membership.creditAt == times[0]
    decreases |times|
  {
    var front, last := times[..|times| - 1], times[|times| - 1];
    if front == [] {
      CreditExactly(n, network, hash, next, last);
    } else {
      BackToBackEarnNothing(n, network, hash, next, front);
      CreditExactly(StatusesAt(n, network, hash, next, front), network, hash, next, last);
    }
  }

  /** The stamp of an authenticated observation applies to a row of the layer and network with no later fork claim; an
      unsigned row loses its record text. */
  lemma StampExactly(n: Node, layer: string, network: string, hash: string, next: nat, now: Time)
    ensures var s := Stamped(n, layer, network, hash, next, now);
            if n.layer == layer && n.network == network && n.fork.observedAt <= now then
              && s.fork == ForkClaim(hash, next, "status", now) && s.seen == n.seen.(resolved := now)
              && s.membership == Membership("status", now, if n.membership.creditAt == ZERO_TIME then now
                                                           else n.membership.creditAt)
              && s.record == (if n.record.sequence == 0 then n.record.(enr := "") else n.record)
              && s.(fork := n.fork, seen := n.seen, membership := n.membership, record := n.record) == n
            else s == n
  {
  }

  /** A record forced onto a network takes it, and the given layer; without one it stays, but an unknown layer with a
      TCP port is execution. */
  lemma ForcedExactly(e: Extracted, network: string, layer: string)
    ensures var f := Forced(e, network, layer);
            && f.(network := e.network, layer := e.layer) == e
            && f.network == (if network == "" then e.network else network)
            && f.layer == (if network == "" then e.layer
                           else if layer != "" then layer
                           else if e.layer == "unknown" && (e.record.endpoint.tcp != 0 || e.record.endpoint.tcp6 != 0)
                           then "el" else e.layer)
  {
  }

  // ----- leaving and restoring -----

  /** A row survives pruning when it is pinned, when it is unverified and was seen since the cutoff, or when it is
      verified and was resolved since the other one, which may be absent. */
  lemma PrunedExactly(m: map<Id, Node>, cutoff: Time, verifiedCutoff: Time, id: Id)
    ensures id in Kept(m, {}, cutoff, verifiedCutoff) <==>
              id in m
              && (|| m[id].pinned
                  || (!m[id].fp.done && m[id].seen.last >= cutoff)
                  || (m[id].fp.done && (verifiedCutoff == ZERO_TIME
                                        || (m[id].seen.resolved != ZERO_TIME
                                            && m[id].seen.resolved >= verifiedCutoff))))
    ensures id in Kept(m, {}, cutoff, verifiedCutoff) ==> Kept(m, {}, cutoff, verifiedCutoff)[id] == m[id]
  {
  }

  /** A restored row holds no claim and no Status credit. It is otherwise the stored one, unless a consensus row
      carries the capabilities only an execution probe reports: then its identity goes and it is probed anew. */
  lemma RestoredExactly(r: Row, now: Time)
    requires r.id.Some?
    ensures var n := Restored(r); var wrong := r.node.layer == "cl" && r.node.identity.caps != "";
            && n.id == r.id.value && !n.fp.inFlight && !n.fp.refresh && n.membership.creditAt == ZERO_TIME
            && n.(id := r.node.id, fp := r.node.fp, membership := r.node.membership, identity := r.node.identity,
                  direction := r.node.direction) == r.node
            && n.membership == r.node.membership.(creditAt := ZERO_TIME)
            && (wrong ==> n.identity == NO_IDENTITY && n.direction == "" && !n.fp.done
                          && (FingerprintDue(n, now) <==> Fingerprintable(n)))
            && (!wrong ==> n.identity == r.node.identity && n.direction == r.node.direction
                           && n.fp == r.node.fp.(inFlight := false, refresh := false))
  {
  }
}
