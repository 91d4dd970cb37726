/** One row of the node set: what an observation, a probe result or a penalty makes of it. */
module Nodes {
  import opened Text

  /** A 256-bit node identity; byte order is numeric order. */
  type Id = nat

  /** Nanoseconds since the zero time. */
  type Time = int

  const ZERO_TIME: Time := 0
  const MINUTE: int := 60_000_000_000
  const HOUR: int := 60 * MINUTE

  const SCORE_CAP := 10
  const SCORE_INIT := 1
  const DROP_BELOW := 0
  const PENALTY_STEP := 2
  const FAILED_AFTER := 3
  const REFRESH_AGE: int := 24 * HOUR
  const REVERIFY_GAP: int := 30 * MINUTE

  /** What a probe dials. */
  datatype Endpoint = Endpoint(ip: string, ip6: string, tcp: int, tcp6: int, quic: int, quic6: int)

  datatype Identity = Identity(client: string, version: string, os: string, lang: string, caps: string)

  const NO_IDENTITY := Identity("", "", "", "", "")

  /** The stored record; unsigned rows have sequence 0 and no ENR text. */
  datatype Record = Record(enode: string, enr: string, sequence: nat, endpoint: Endpoint, udp: int, udp6: int)

  datatype ForkClaim = ForkClaim(hash: string, next: nat, source: string, observedAt: Time)

  datatype Membership = Membership(source: string, verifiedAt: Time, creditAt: Time)

  datatype Seen = Seen(hasV4: bool, hasV5: bool, first: Time, last: Time, check: Time, resolved: Time)

  /** The probe state of a row. */
  datatype Probe = Probe(attempts: int, inFlight: bool, done: bool, refreshDue: bool, refresh: bool, at: Time,
                         next: Time)

  datatype Node = Node(id: Id, record: Record, network: string, layer: string, fork: ForkClaim, membership: Membership,
                       score: int, seen: Seen, identity: Identity, direction: string, pinned: bool, fp: Probe)

  /** What a record says of itself. */
  datatype Extracted = Extracted(record: Record, network: string, layer: string, forkHash: string, forkNext: nat,
                                 client: string, version: string)

  const NO_RECORD := Record("", "", 0, Endpoint("", "", 0, 0, 0, 0), 0, 0)

  function NewRow(id: Id, now: Time, score: int): Node {
    Node(id, NO_RECORD, "", "", ForkClaim("", 0, "", ZERO_TIME), Membership("", ZERO_TIME, ZERO_TIME), score,
         Seen(false, false, now, ZERO_TIME, ZERO_TIME, ZERO_TIME), NO_IDENTITY, "", false,
         Probe(0, false, false, false, false, ZERO_TIME, ZERO_TIME))
  }

  predicate IsELCandidate(n: Node) {
    n.layer == "el" && n.network == ""
  }

  // ----- capacity classes and the eviction order -----

  const VERIFIED := 0
  const CLASSIFIED := 1
  const UNCLASSIFIED := 2
  const FALLBACK := 3

  function CapacityClass(n: Node): (c: int)
    ensures 0 <= c <= 3
  {
    if n.fp.done || n.pinned then VERIFIED
    else if n.score <= DROP_BELOW then FALLBACK
    else if n.network != "" then CLASSIFIED
    else UNCLASSIFIED
  }

  predicate EvictBefore(a: Node, b: Node) {
    if a.score != b.score then a.score < b.score
    else if a.seen.resolved != b.seen.resolved then a.seen.resolved < b.seen.resolved
    else if a.seen.last != b.seen.last then a.seen.last < b.seen.last
    else a.id < b.id
  }

  // ----- probes -----

  predicate Fingerprintable(n: Node) {
    var e := n.record.endpoint;
    if n.layer == "el" then (e.ip != "" && e.tcp != 0) || (e.ip6 != "" && (e.tcp6 != 0 || e.tcp != 0))
    else if n.layer == "cl" then
      (e.ip != "" && (e.tcp != 0 || e.quic != 0))
      || (e.ip6 != "" && (e.tcp6 != 0 || e.tcp != 0 || e.quic6 != 0 || e.quic != 0))
    else false
  }

  predicate FingerprintDue(n: Node, now: Time) {
    if n.fp.done && !n.fp.refreshDue then false
    else if n.fp.inFlight then false
    else if !Fingerprintable(n) then false
    else n.fp.next == ZERO_TIME || now >= n.fp.next
  }

  function Claimed(n: Node): Node {
    n.(fp := n.fp.(attempts := n.fp.attempts + 1, inFlight := true))
  }

  function Unclaimed(n: Node): Node {
    if !n.fp.inFlight then n
    else
      var attempts := if n.fp.attempts > 0 then n.fp.attempts - 1 else n.fp.attempts;
      n.(fp := n.fp.(attempts := if n.fp.refresh then 0 else attempts, inFlight := false, refresh := false))
  }

  function RetryBase(i: nat): int {
    if i == 0 then MINUTE else if i == 1 then 5 * MINUTE else if i == 2 then 15 * MINUTE
    else if i == 3 then HOUR else if i == 4 then 3 * HOUR else 6 * HOUR
  }

  function Power256(i: nat): (p: nat)
    ensures p > 0
  {
    if i == 0 then 1 else 256 * Power256(i - 1)
  }

  /** Byte i of the identity, the most significant first. */
  function IdByte(id: Id, i: nat): nat
    requires i < 32
  {
    (id / Power256(31 - i)) % 256
  }

  function RetryDelay(id: Id, attempts: int): int {
    var attempt: nat := if attempts < 1 then 1 else attempts;
    var i := if attempt - 1 >= 6 then 5 else attempt - 1;
    RetryBase(i) * (900 + IdByte(id, (attempt - 1) % 32) * 200 / 255) / 1000
  }

  datatype Retry = Retry(attempts: int, retryAt: Time, becameFailed: bool, refresh: bool)

  const NO_RETRY := Retry(0, ZERO_TIME, false, false)

  function Failed(n: Node, now: Time): (Node, Retry) {
    var refresh := n.fp.done && n.fp.refreshDue;
    if n.fp.done && !n.fp.refreshDue then (n.(fp := n.fp.(inFlight := false, refresh := false)), NO_RETRY)
    else if n.fp.refresh then
      (n.(fp := n.fp.(inFlight := false, attempts := 0, refresh := false, next := ZERO_TIME)),
       NO_RETRY.(refresh := refresh))
    else
      var next := now + RetryDelay(n.id, n.fp.attempts);
      (n.(fp := n.fp.(inFlight := false, next := next)),
       Retry(n.fp.attempts, next, n.fp.attempts == FAILED_AFTER, refresh))
  }

  datatype Fingerprinted = Fingerprinted(row: Node, failures: int, applied: bool)

  /** setFingerprint on a retained row. */
  function WithFingerprint(n: Node, layer: string, fp: Identity, direction: string, claimed: bool,
                           now: Time): Fingerprinted {
    if n.layer != layer && !claimed then Fingerprinted(n, 0, false)
    else if claimed && (n.fp.refresh || n.layer != layer) then
      Fingerprinted(n.(fp := n.fp.(attempts := 0, inFlight := false, refresh := false, next := ZERO_TIME)), 0, false)
    else
      var failures := if n.fp.inFlight && n.fp.attempts > 0 then n.fp.attempts - 1 else n.fp.attempts;
      Fingerprinted(n.(identity := fp, direction := direction, seen := n.seen.(resolved := now),
                       fp := n.fp.(inFlight := n.fp.inFlight && !claimed, done := true, refreshDue := false, at := now,
                                   attempts := 0, next := ZERO_TIME)),
                    failures, true)
  }

  function WithCandidateClient(n: Node, fp: Identity, direction: string): Node {
    if IsELCandidate(n) then n.(identity := fp, direction := direction) else n
  }

  // ----- liveness -----

  function TruncatedHalf(x: int): int {
    if x >= 0 then x / 2 else -((-x) / 2)
  }

  /** None when the row is to be deleted. */
  function Penalized(n: Node): Option<Node> {
    var score := TruncatedHalf(n.score) - PENALTY_STEP;
    if score > DROP_BELOW then Some(n.(score := score))
    else if !n.fp.done && n.fp.attempts == 0 && !n.fp.inFlight then None
    else Some(n.(score := DROP_BELOW))
  }

  /** Penalize. */
  function PenalizedAt(n: Node, now: Time): Option<Node> {
    var c := n.(seen := n.seen.(check := now));
    if n.pinned then Some(c) else Penalized(c)
  }

  /** touchObservationLocked; None when the row is to be deleted. */
  function Touched(n: Node, via: string, now: Time, existed: bool, failedResolution: bool, pin: bool): Option<Node> {
    var scored := if existed && failedResolution && !n.pinned then Penalized(n)
                  else if existed && !failedResolution && n.score < SCORE_CAP then Some(n.(score := n.score + 1))
                  else Some(n);
    if scored.None? then None
    else
      var s := if pin then scored.value.(score := SCORE_CAP, pinned := true) else scored.value;
      Some(s.(seen := s.seen.(last := now, check := now,
                              resolved := if !failedResolution && (via == "v4" || via == "v5") then now
                                          else s.seen.resolved,
                              hasV4 := s.seen.hasV4 || via == "v4", hasV5 := s.seen.hasV5 || via == "v5")))
  }

  // ----- a record applied to a row -----

  predicate RecordChanged(n: Node, e: Extracted) {
    e.record.endpoint != n.record.endpoint
    || (n.identity.client != "" && e.client != "" && e.client != n.identity.client)
  }

  predicate Expired(n: Node, now: Time) {
    n.fp.done && !n.fp.refreshDue && (n.fp.at == ZERO_TIME || now - n.fp.at >= REFRESH_AGE)
  }

  /** The row without its client identity; a probe in flight is armed for discard. */
  function ClearedFingerprint(n: Node): Node {
    n.(identity := NO_IDENTITY, direction := "",
       fp := Probe(0, n.fp.inFlight, false, false, n.fp.refresh || n.fp.inFlight, ZERO_TIME, ZERO_TIME))
  }

  /** What a re-seen row's probe state becomes: a verified identity is kept until it is revalidated. */
  function Refreshed(n: Node, e: Extracted, now: Time): Node {
    var changed, expired := RecordChanged(n, e), Expired(n, now);
    if !changed && !expired then n
    else
      var fp := if n.fp.done then n.fp.(refreshDue := true) else n.fp.(at := ZERO_TIME);
      n.(identity := if n.fp.done then n.identity else NO_IDENTITY,
         fp := if changed && fp.inFlight then fp.(refresh := true)
               else if !fp.inFlight then fp.(attempts := 0, next := ZERO_TIME)
               else fp)
  }

  /** The fork a record claims; re-seeing the record already held does not undo a Status. */
  function ForkClaimed(n: Node, e: Extracted, existed: bool, now: Time): ForkClaim {
    var sameAsStatus := existed && n.fork.source == "status" && e.record.sequence == n.record.sequence
                        && e.record.enr == n.record.enr
                        && e.network == n.network && e.layer == n.layer;
    if e.forkHash != "" && !sameAsStatus
       && (n.fork.hash != e.forkHash || n.fork.next != e.forkNext || n.fork.source == "")
    then ForkClaim(e.forkHash, e.forkNext, "enr", now)
    else n.fork
  }

  function Reclassified(n: Node, network: string): Node {
    if network == "" then n
    else if n.network != network then
      n.(network := network, membership := n.membership.(source := "enr", verifiedAt := ZERO_TIME))
    else if n.membership.source == "" then n.(membership := n.membership.(source := "enr"))
    else n
  }

  function Relayered(n: Node, layer: string): Node {
    if layer == "unknown" then n
    else if n.layer != layer && n.layer != "" then ClearedFingerprint(n).(layer := layer)
    else n.(layer := layer)
  }

  function ClientFilled(n: Node, e: Extracted): Node {
    if n.identity.client == "" && e.client != ""
    then n.(identity := n.identity.(client := e.client, version := e.version))
    else n
  }

  /** The record's own fields; a less informative one does not downgrade a classification. */
  function Recorded(n: Node, e: Extracted, existed: bool, now: Time): Node {
    ClientFilled(Relayered(Reclassified(n.(fork := ForkClaimed(n, e, existed, now), record := e.record), e.network),
                           e.layer), e)
  }

  /** observe on a touched row whose record is not stale. */
  function Observed(n: Node, e: Extracted, existed: bool, now: Time): Node {
    Recorded(if existed then Refreshed(n, e, now) else n, e, existed, now)
  }

  function Forced(e: Extracted, network: string, layer: string): Extracted {
    if network == "" then e
    else
      var forced := e.(network := network);
      if layer != "" then forced.(layer := layer)
      else if e.layer == "unknown" && (e.record.endpoint.tcp != 0 || e.record.endpoint.tcp6 != 0) then
        forced.(layer := "el")
      else forced
  }

  predicate Unsigned(n: Node) {
    n.record.sequence == 0 && n.record.enr == ""
  }

  /** The endpoint fields an unsigned sighting may move; sequence and ENR stay. */
  function Redialled(r: Record, from: Record): Record {
    r.(enode := from.enode, endpoint := from.endpoint, udp := from.udp, udp6 := from.udp6)
  }

  /** ObserveCandidateEL on a retained row. */
  function CandidateSeen(n: Node, e: Extracted, now: Time): Node {
    var seen := n.(seen := n.seen.(last := now, check := now),
                   fp := n.fp.(refreshDue := n.fp.refreshDue || Expired(n, now)));
    if !IsELCandidate(seen) || !Unsigned(seen) then seen
    else
      seen.(fp := seen.fp.(refresh := seen.fp.refresh || (RecordChanged(seen, e) && seen.fp.inFlight)),
            record := Redialled(seen.record, e.record))
  }

  function NewCandidate(id: Id, e: Extracted, now: Time): Node {
    var n := NewRow(id, now, SCORE_INIT);
    n.(layer := "el", seen := n.seen.(last := now, check := now), record := e.record.(enr := ""))
  }

  // ----- authenticated Status -----

  function Credited(n: Node, network: string, now: Time): Node {
    var due := n.membership.source == "status" && n.network == network
               && n.membership.creditAt != ZERO_TIME && now - n.membership.creditAt >= REVERIFY_GAP;
    var c := if due then n.(score := if n.score < SCORE_CAP then n.score + 1 else n.score,
                            membership := n.membership.(creditAt := now))
             else n;
    if c.membership.creditAt == ZERO_TIME || c.network != network then
      c.(membership := c.membership.(creditAt := now))
    else c
  }

  /** SetExecutionStatusAt and SetConsensusStatus on a row of their layer. */
  function WithStatus(n: Node, network: string, hash: string, next: nat, now: Time): Node {
    var c := Credited(n, network, now);
    c.(network := network, fork := ForkClaim(hash, next, "status", now),
       membership := Membership("status", now, c.membership.creditAt), seen := c.seen.(resolved := now))
  }

  /** The second critical section of ObserveAuthenticatedEL and ObserveAuthenticatedCL. */
  function Stamped(n: Node, layer: string, network: string, hash: string, next: nat, now: Time): Node {
    if n.layer != layer || n.network != network || n.fork.observedAt > now then n
    else
      n.(membership := Membership("status", now,
                                  if n.membership.creditAt == ZERO_TIME then now else n.membership.creditAt),
         seen := n.seen.(resolved := now), fork := ForkClaim(hash, next, "status", now),
         record := if n.record.sequence == 0 then n.record.(enr := "") else n.record)
  }

  // ----- what these keep -----

  lemma EvictBeforeTotal(a: Node, b: Node)
    ensures EvictBefore(a, b) ==> !EvictBefore(b, a)
    ensures a.id != b.id ==> EvictBefore(a, b) || EvictBefore(b, a)
  {
  }

  predicate KeepsVerified(n: Node, o: Node, due: bool) {
    o.fp.done && (n.identity.client != "" ==> o.identity == n.identity) && (due ==> o.fp.refreshDue)
  }

  /** A record newly applied never rolls the sequence back, never takes a classification away, and never costs a
      verified identity unless the layer changed: it is revalidated instead. */
  lemma ObservationKeeps(n: Node, e: Extracted, now: Time)
    requires e.record.sequence >= n.record.sequence
    ensures var o := Observed(n, e, true, now);
            && o.record.sequence >= n.record.sequence && (n.pinned ==> o.pinned)
            && (n.network != "" ==> o.network != "")
            && (e.layer != "" && n.layer != "" ==> o.layer != "")
            && (n.fp.done && o.layer == n.layer ==> KeepsVerified(n, o, RecordChanged(n, e) || Expired(n, now)))
  {
    var r := Refreshed(n, e, now);
    RefreshKeeps(n, e, now);
    var c := Reclassified(r.(fork := ForkClaimed(r, e, true, now), record := e.record), e.network);
    assert c.record == e.record && c.pinned == r.pinned && c.layer == r.layer && c.fp == r.fp
        && c.identity == r.identity
           && (r.network != "" ==> c.network != "");
    LayerKeeps(c, e);
  }

  lemma RefreshKeeps(n: Node, e: Extracted, now: Time)
    ensures var r := Refreshed(n, e, now);
            && r.layer == n.layer && r.network == n.network && r.pinned == n.pinned && r.record == n.record
            && (n.fp.done ==> r.fp.done && r.identity == n.identity)
            && (n.fp.done && (RecordChanged(n, e) || Expired(n, now)) ==> r.fp.refreshDue)
  {
  }

  lemma LayerKeeps(n: Node, e: Extracted)
    ensures var o := ClientFilled(Relayered(n, e.layer), e);
            && o.record == n.record && o.pinned == n.pinned && o.network == n.network
            && o.layer == (if e.layer == "unknown" then n.layer else e.layer)
            && (o.layer == n.layer ==> o.fp == n.fp && (n.identity.client != "" ==> o.identity == n.identity))
  {
  }
}
