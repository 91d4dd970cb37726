/** What the row operations amount to over several calls: probing and retries, penalties and scores, identities and
    records. Instants are compared with literal durations, scores with literal bounds. */
module RowRules {
  import opened Nodes
  import opened Arithmetic
  import opened Text

  // ----- the retry ladder -----

  const SECOND: int := 1_000_000_000

  /** Minutes to wait after the first, second, … failure. */
  const LADDER: seq<int> := [1, 5, 15, 60, 180, 360]

  function Rung(attempts: int): int {
    LADDER[if attempts < 1 then 0 else if attempts > 6 then 5 else attempts - 1]
  }

  lemma JitterBounds(base: int, byte: nat)
    requires base >= 0 && base % 1000 == 0 && byte < 256
    ensures var delay := base * (900 + byte * 200 / 255) / 1000;
            && base * 9 <= delay * 10 <= base * 11
            && (byte == 0 ==> delay * 10 == base * 9) && (byte == 255 ==> delay * 10 == base * 11)
  {
    var unit, permille := base / 1000, 900 + byte * 200 / 255;
    assert base == 1000 * unit && 900 <= permille <= 1100;
    assert base * permille == 1000 * (unit * permille);
    assert base * permille / 1000 == unit * permille;
    assert unit * 900 <= unit * permille <= unit * 1100;
  }

  /** Each delay is within a tenth of its rung, the byte of the identity that the attempt selects deciding where. */
  lemma DelayFollowsLadder(id: Id, attempts: int)
    ensures var delay := RetryDelay(id, attempts); var rung := Rung(attempts) * 60 * SECOND;
            var byte := IdByte(id, (if attempts < 1 then 0 else attempts - 1) % 32);
            && rung * 9 <= delay * 10 <= rung * 11
            && (byte == 0 ==> delay * 10 == rung * 9) && (byte == 255 ==> delay * 10 == rung * 11)
  {
    var attempt: nat := if attempts < 1 then 1 else attempts;
    JitterBounds(Rung(attempts) * 60 * SECOND, IdByte(id, (attempt - 1) % 32));
  }

  /** The delays grow strictly for six failures, and from the sixth on are between five and seven hours. */
  lemma DelaysGrow(id: Id, attempts: int)
    requires attempts >= 1
    ensures attempts < 6 ==> RetryDelay(id, attempts) < RetryDelay(id, attempts + 1)
    ensures attempts >= 6 ==> 5 * 3600 * SECOND < RetryDelay(id, attempts) < 7 * 3600 * SECOND
  {
    DelayFollowsLadder(id, attempts);
    DelayFollowsLadder(id, attempts + 1);
  }

  /** The first k bytes of a 32-byte identity, as a number. */
  function Leading(id: Id, k: nat): nat
    requires k <= 32
  {
    if k == 0 then 0 else 256 * Leading(id, k - 1) + IdByte(id, k - 1)
  }

  lemma NextByte(n: nat, p: nat)
    requires p > 0
    ensures n / p == 256 * (n / (256 * p)) + (n / p) % 256
  {
    var q := n / p;
    assert q == 256 * (q / 256) + q % 256;
    NestedDivision(n, p);
  }

  lemma NestedDivision(n: nat, p: nat)
    requires p > 0
    ensures n / (256 * p) == (n / p) / 256
  {
    var q, r := n / p, n % p;
    assert n == q * p + r;
    var h, t := q / 256, q % 256;
    Split(n, p, q, r, h, t);
    Divided(n, h, t * p + r, 256 * p);
  }

  lemma Split(n: nat, p: nat, q: nat, r: nat, h: nat, t: nat)
    requires n == q * p + r && r < p && q == 256 * h + t && t < 256
    ensures n == h * (256 * p) + (t * p + r) && t * p + r < 256 * p
  {
    assert (256 * h + t) * p == 256 * h * p + t * p;
    assert 256 * h * p == h * (256 * p);
    Times(t + 1, 256, p);
    assert (t + 1) * p == t * p + p;
  }

  lemma {:induction false} LeadingIsQuotient(id: Id, k: nat)
    requires k <= 32 && id < Power256(32)
    ensures Leading(id, k) == id / Power256(32 - k)
  {
    if k == 0 {
      Divided(id, 0, id, Power256(32));
    } else {
      LeadingIsQuotient(id, k - 1);
      var p := Power256(32 - k);
      assert Power256(33 - k) == 256 * p;
      NextByte(id, p);
    }
  }

  /** The bytes of an identity are its base-256 digits, the most significant first. */
  lemma BytesSpellTheId(id: Id)
    requires id < Power256(32)
    ensures Leading(id, 32) == id && forall i :: 0 <= i < 32 ==> IdByte(id, i) < 256
  {
    LeadingIsQuotient(id, 32);
    assert Power256(0) == 1;
  }

  // ----- probing -----

  /** One address and port a probe can dial: a port serves its own address family, the IPv4 ports also the other one
      when it advertises none of its own. */
  predicate Dials(e: Endpoint, layer: string, ip: string, port: int) {
    && ip != "" && port != 0 && (layer == "el" || layer == "cl")
    && ((ip == e.ip && (port == e.tcp || (layer == "cl" && port == e.quic)))
        || (ip == e.ip6 && (port == e.tcp6 || port == e.tcp
                            || (layer == "cl" && (port == e.quic6 || port == e.quic)))))
  }

  /** A row can be probed exactly when there is something to dial. */
  lemma FingerprintableExactly(n: Node)
    ensures Fingerprintable(n) <==> exists ip, port :: Dials(n.record.endpoint, n.layer, ip, port)
  {
    var e := n.record.endpoint;
    if Fingerprintable(n) {
      assert Dials(e, n.layer, e.ip, e.tcp) || Dials(e, n.layer, e.ip, e.quic) || Dials(e, n.layer, e.ip6, e.tcp6)
        || Dials(e, n.layer, e.ip6, e.tcp) || Dials(e, n.layer, e.ip6, e.quic6) || Dials(e, n.layer, e.ip6, e.quic);
    }
  }

  /** Ready to be probed whatever the time. */
  predicate Untried(n: Node) {
    !n.fp.done && !n.fp.inFlight && !n.fp.refresh && n.fp.attempts == 0 && n.fp.next == ZERO_TIME
  }

  /** The row after failed probes at the given times, each claimed and then failed. */
  function FailedAt(n: Node, times: seq<Time>): Node {
    if times == [] then n
    else Failed(Claimed(FailedAt(n, times[..|times| - 1])), times[|times| - 1]).0
  }

  /** After k failed probes of an untried row the next one is due once the k-th delay has passed since the last failure,
      and not before; only the probe state has changed. */
  lemma {:induction false} RetriesFollowLadder(n: Node, times: seq<Time>, now: Time)
    requires Untried(n) && Fingerprintable(n) && times != [] && forall i :: 0 <= i < |times| ==> times[i] > 0
    ensures var r := FailedAt(n, times); var k := |times|;
            && (FingerprintDue(r, now) <==> now >= times[k - 1] + RetryDelay(n.id, k))
            && r.fp.attempts == k && !r.fp.inFlight && !r.fp.refresh && !r.fp.done && r.(fp := n.fp) == n
    decreases |times|
  {
    var k := |times|;
    DelayFollowsLadder(n.id, k);
    if k > 1 {
      RetriesFollowLadder(n, times[..k - 1], now);
    }
  }

  /** The failure that reports a row as failed is the third one in a row, and each reports when to try again. */
  lemma ThirdFailureTells(n: Node, times: seq<Time>, now: Time)
    requires Untried(n) && Fingerprintable(n) && forall i :: 0 <= i < |times| ==> times[i] > 0
    ensures var k := |times| + 1;
            Failed(Claimed(FailedAt(n, times)), now).1 == Retry(k, now + RetryDelay(n.id, k), k == 3, false)
  {
    if times != [] { RetriesFollowLadder(n, times, now); }
  }

  /** A success after k failures reports them, and the row is not due again until something arms a refresh. */
  lemma SuccessReportsFailures(n: Node, times: seq<Time>, layer: string, fp: Identity, direction: string, now: Time,
                               later: Time)
    requires Untried(n) && Fingerprintable(n) && layer == n.layer && forall i :: 0 <= i < |times| ==> times[i] > 0
    ensures var f := WithFingerprint(Claimed(FailedAt(n, times)), layer, fp, direction, true, now);
            && f.applied && f.failures == |times|
            && f.row.identity == fp && f.row.direction == direction && f.row.seen.resolved == now
            && !FingerprintDue(f.row, later) && f.row.fp.attempts == 0 && f.row.fp.at == now
  {
    if times != [] { RetriesFollowLadder(n, times, now); }
  }

  /** A claimed row is never due, and taking the claim back undoes it. */
  lemma UnclaimUndoes(n: Node, now: Time)
    requires !n.fp.inFlight && !n.fp.refresh && n.fp.attempts >= 0
    ensures !FingerprintDue(Claimed(n), now) && Claimed(n).fp.inFlight && Unclaimed(Claimed(n)) == n
  {
  }

  /** A claim that the row outgrew ends with the row due at once, whatever its probe brought. */
  lemma DiscardRetriesAtOnce(n: Node, layer: string, fp: Identity, direction: string, now: Time)
    requires n.fp.inFlight && n.fp.refresh && Fingerprintable(n) && (n.fp.done ==> n.fp.refreshDue)
    ensures var c := WithFingerprint(n, layer, fp, direction, true, now);
            && !c.applied && c.failures == 0 && c.row.identity == n.identity && FingerprintDue(c.row, now)
            && c.row.fp.attempts == 0
    ensures var f := Failed(n, now); FingerprintDue(f.0, now) && f.0.fp.attempts == 0 && !f.1.becameFailed
  {
  }

  /** A verified row whose record did not change is due again exactly a day after its last success. */
  lemma RefreshAfterADay(n: Node, e: Extracted, now: Time)
    requires n.fp.done && !n.fp.refreshDue && !n.fp.inFlight && n.fp.at != ZERO_TIME && Fingerprintable(n)
    requires e.record.endpoint == n.record.endpoint && (e.client == n.identity.client || e.client == "")
    ensures FingerprintDue(Refreshed(n, e, now), now) <==> now >= n.fp.at + 24 * 3600 * SECOND
    ensures Refreshed(n, e, now).identity == n.identity && Refreshed(n, e, now).fp.done
  {
  }

  /** A changed endpoint or client has the row probed again at once, its verified identity being kept meanwhile. */
  lemma ChangeIsProbedAtOnce(n: Node, e: Extracted, now: Time)
    requires n.fp.done && !n.fp.inFlight && Fingerprintable(n)
    requires e.record.endpoint != n.record.endpoint
             || (n.identity.client != "" && e.client != "" && e.client != n.identity.client)
    ensures var r := Refreshed(n, e, now); FingerprintDue(r, now) && r.identity == n.identity && r.fp.attempts == 0
  {
  }

  // ----- scores -----

  /** A penalty halves the score, toward zero, and takes two more: a score of at most five runs out. The row is deleted
      when it was never probed and otherwise kept without a score; a pinned row is only marked as checked. */
  lemma PenaltyExactly(n: Node, now: Time)
    ensures n.pinned ==> PenalizedAt(n, now) == Some(n.(seen := n.seen.(check := now)))
    ensures !n.pinned && n.score >= 6 ==>
              PenalizedAt(n, now) == Some(n.(score := n.score / 2 - 2, seen := n.seen.(check := now)))
    ensures !n.pinned && n.score <= 5 ==>
              PenalizedAt(n, now) ==
              if !n.fp.done && n.fp.attempts == 0 && !n.fp.inFlight then None
              else Some(n.(score := 0, seen := n.seen.(check := now)))
  {
  }

  /** Two failed resolutions in a row exhaust any score. */
  lemma TwoPenaltiesExhaust(n: Node, one: Time, two: Time)
    requires !n.pinned && n.score <= SCORE_CAP
    ensures var p := PenalizedAt(n, one);
            p.None? || var q := PenalizedAt(p.value, two); q.None? || q.value.score == 0
  {
  }

  /** A sighting raises the score by one up to ten; one that failed to resolve counts as a penalty; a pin sets it to
      ten for good. Only a resolved sighting over discovery moves the resolution time. */
  lemma SightingExactly(n: Node, via: string, now: Time, failed: bool, pin: bool)
    requires n.score <= 10
    ensures var t := Touched(n, via, now, true, failed, pin);
            && (t.None? <==> failed && !n.pinned && n.score <= 5 && !n.fp.done && n.fp.attempts == 0 && !n.fp.inFlight)
            && (t.Some? ==>
                  && t.value.seen.last == now && t.value.seen.check == now
                  && (t.value.pinned <==> n.pinned || pin) && (pin ==> t.value.score == 10)
                  && (!pin && !failed ==> t.value.score == if n.score < 10 then n.score + 1 else 10)
                  && (!pin && failed ==> t.value.score == if n.pinned then n.score
                                                          else if n.score >= 6 then n.score / 2 - 2 else 0)
                  && t.value.seen.resolved == (if !failed && via in {"v4", "v5"} then now else n.seen.resolved)
                  && (t.value.seen.hasV4 <==> n.seen.hasV4 || via == "v4")
                  && (t.value.seen.hasV5 <==> n.seen.hasV5 || via == "v5")
                  && t.value.(score := n.score, seen := n.seen, pinned := n.pinned) == n)
  {
  }
}
