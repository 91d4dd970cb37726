/** Probe claims on one identity, over every interleaving of the critical sections that touch its row. */
module Probes {
  import opened Text
  import opened Nodes

  /** One granted claim, never reused. */
  type Token = nat

  /** What the row was when a probe was claimed; moved says whether the row has since come to describe another
      endpoint, layer or client. */
  datatype Claim = Claim(endpoint: Endpoint, layer: string, moved: bool)

  /** held: claims on the row as it is retained; late: claims on a row since deleted; used: every token ever granted. */
  datatype State = State(row: Option<Node>, held: map<Token, Claim>, late: set<Token>, used: set<Token>)

  datatype Event =
    | Insert(row: Node)
    | Delete
    | Touch(via: string, now: Time, failedResolution: bool, pin: bool)
    | Observe(e: Extracted, now: Time)
    | Candidate(e: Extracted, now: Time)
    | CandidateLayer
    | CandidateClient(fp: Identity, direction: string)
    | Status(network: string, hash: string, next: nat, now: Time)
    | Stamp(layer: string, network: string, hash: string, next: nat, now: Time)
    | Penalize(now: Time)
    | Inbound(layer: string, fp: Identity, direction: string, now: Time)
    | Grant(token: Token, now: Time)
    | Unclaim(token: Token)
    | Fail(token: Token, now: Time)
    | Complete(token: Token, layer: string, fp: Identity, direction: string, now: Time)

  const EMPTY := State(None, map[], {}, {})

  /** What an event makes of the row. */
  function RowAfter(r: Option<Node>, e: Event): Option<Node> {
    match r
    case None => if e.Insert? then Some(e.row) else None
    case Some(n) =>
      match e
      case Insert(row) => Some(n)
      case Delete => None
      case Touch(via, now, failedResolution, pin) => Touched(n, via, now, true, failedResolution, pin)
      case Observe(x, now) => Some(Observed(n, x, true, now))
      case Candidate(x, now) => Some(CandidateSeen(n, x, now))
      case CandidateLayer =>
        if n.layer == "" && Fingerprintable(n.(layer := "el")) then Some(n.(layer := "el")) else Some(n)
      case CandidateClient(fp, direction) => Some(WithCandidateClient(n, fp, direction))
      case Status(network, hash, next, now) => Some(WithStatus(n, network, hash, next, now))
      case Stamp(layer, network, hash, next, now) => Some(Stamped(n, layer, network, hash, next, now))
      case Penalize(now) => PenalizedAt(n, now)
      case Inbound(layer, fp, direction, now) => Some(WithFingerprint(n, layer, fp, direction, false, now).row)
      case Grant(token, now) => if FingerprintDue(n, now) then Some(Claimed(n)) else Some(n)
      case Unclaim(token) => Some(Unclaimed(n))
      case Fail(token, now) => Some(Failed(n, now).0)
      case Complete(token, layer, fp, direction, now) => Some(WithFingerprint(n, layer, fp, direction, true, now).row)
  }

  predicate Granted(s: State, e: Event) {
    e.Grant? && s.row.Some? && FingerprintDue(s.row.value, e.now)
  }

  predicate Owned(e: Event) {
    e.Unclaim? || e.Fail? || e.Complete?
  }

  /** A claim owner ends its claim once. A claim on a deleted row ends before the row is created again, or late;
      late endings on a recreated row are not part of this model. New rows hold no probe. */
  predicate Enabled(s: State, e: Event) {
    && (e.Insert? ==> s.row.None? && !e.row.fp.inFlight && !e.row.fp.refresh)
    && (e.Grant? ==> e.token !in s.used)
    && (Owned(e) ==> e.token in s.held || (e.token in s.late && s.row.None?))
  }

  /** The row's record, layer or advertised client is no longer the one a probe was claimed for. */
  predicate MovedBy(n: Node, e: Event, o: Node) {
    || n.record.endpoint != o.record.endpoint || n.layer != o.layer
    || (e.Observe? && RecordChanged(n, e.e))
    || (e.Candidate? && IsELCandidate(n) && Unsigned(n) && RecordChanged(n, e.e))
  }

  function Next(s: State, e: Event): State {
    var row := RowAfter(s.row, e);
    var used := if Granted(s, e) then s.used + {e.token} else s.used;
    if s.row.None? || row.None? then
      State(row, map[], s.late + s.held.Keys - (if Owned(e) then {e.token} else {}), used)
    else
      var moved := MovedBy(s.row.value, e, row.value);
      var kept := map t | t in s.held && !(Owned(e) && e.token == t) :: s.held[t].(moved := s.held[t].moved || moved);
      State(row,
            if Granted(s, e) then kept[e.token := Claim(row.value.record.endpoint, row.value.layer, false)] else kept,
            s.late, used)
  }

  /** A completion whose result the row took over. */
  predicate Applied(s: State, e: Event) {
    e.Complete? && s.row.Some? && WithFingerprint(s.row.value, e.layer, e.fp, e.direction, true, e.now).applied
  }

  ghost predicate Inv(s: State) {
    && s.held.Keys <= s.used && s.late <= s.used && s.held.Keys !! s.late
    && (s.row.None? ==> s.held == map[])
    && (forall t, u :: t in s.held && u in s.held ==> t == u)
    && (s.row.Some? ==>
          && (s.row.value.fp.inFlight <==> s.held != map[])
          && (s.row.value.fp.refresh ==> s.row.value.fp.inFlight)
          && forall t :: t in s.held ==> ClaimHolds(s.row.value, s.held[t]))
  }

  /** An in-flight claim is armed for discard exactly when its row moved; until then the row is what was claimed. */
  predicate ClaimHolds(n: Node, c: Claim) {
    && (n.fp.refresh <==> c.moved)
    && (!c.moved ==> n.record.endpoint == c.endpoint && n.layer == c.layer)
    && (c.layer == "el" || c.layer == "cl")
  }

  function Run(s: State, events: seq<Event>): State
    decreases |events|
  {
    if events == [] then s else Run(Next(s, events[0]), events[1..])
  }

  predicate Admissible(s: State, events: seq<Event>)
    decreases |events|
  {
    events != [] ==> Enabled(s, events[0]) && Admissible(Next(s, events[0]), events[1..])
  }

  // ----- one event -----

  /** Events other than grants and endings leave the probe in flight, and arm it exactly when the row moves. */
  lemma RowKeepsProbe(n: Node, e: Event)
    requires !Owned(e) && !(e.Grant? && FingerprintDue(n, e.now)) && RowAfter(Some(n), e).Some?
    requires n.fp.inFlight && !n.fp.refresh ==> n.layer != ""
    requires n.fp.refresh ==> n.fp.inFlight
    ensures var o := RowAfter(Some(n), e).value;
            && o.fp.inFlight == n.fp.inFlight
            && (o.fp.refresh ==> o.fp.inFlight)
            && (n.fp.inFlight ==> (o.fp.refresh <==> n.fp.refresh || MovedBy(n, e, o)))
  {
    if e.Observe? { ObserveArms(n, e.e, e.now); }
  }

  lemma ObserveArms(n: Node, x: Extracted, now: Time)
    requires n.fp.inFlight && !n.fp.refresh ==> n.layer != ""
    requires n.fp.refresh ==> n.fp.inFlight
    ensures var o := Observed(n, x, true, now);
            && o.fp.inFlight == n.fp.inFlight && (o.fp.refresh ==> o.fp.inFlight)
            && (n.fp.inFlight ==> (o.fp.refresh <==> n.fp.refresh || RecordChanged(n, x) || n.layer != o.layer))
            && (n.fp.inFlight && n.record.endpoint != o.record.endpoint ==> o.fp.refresh)
  {
    var r := Refreshed(n, x, now);
    var c := Reclassified(r.(fork := ForkClaimed(r, x, true, now), record := x.record), x.network);
    assert c.fp == r.fp && c.layer == n.layer && c.record == x.record;
    RelayerArms(c, x);
  }

  lemma RelayerArms(n: Node, x: Extracted)
    ensures var o := ClientFilled(Relayered(n, x.layer), x);
            && o.record == n.record && o.fp.inFlight == n.fp.inFlight
            && o.layer == (if x.layer == "unknown" then n.layer else x.layer)
            && o.fp.refresh == (n.fp.refresh || (n.fp.inFlight && o.layer != n.layer && n.layer != ""))
  {
  }

  lemma EndingClears(n: Node, e: Event)
    requires Owned(e)
    ensures var o := RowAfter(Some(n), e);
            o.Some? && !o.value.fp.inFlight && (n.fp.inFlight || !n.fp.refresh ==> !o.value.fp.refresh)
  {
  }

  lemma DeletedKeepsInv(s: State, e: Event)
    requires Inv(s) && Enabled(s, e) && (s.row.None? || RowAfter(s.row, e).None?)
    ensures Inv(Next(s, e))
  {
  }

  lemma EndedKeepsInv(s: State, e: Event)
    requires Inv(s) && Enabled(s, e) && s.row.Some? && Owned(e)
    ensures Inv(Next(s, e))
  {
    EndingClears(s.row.value, e);
    assert Next(s, e).held == map[];
  }

  lemma GrantedKeepsInv(s: State, e: Event)
    requires Inv(s) && Enabled(s, e) && Granted(s, e)
    ensures Inv(Next(s, e))
  {
    assert s.held == map[];
  }

  lemma OtherKeepsInv(s: State, e: Event)
    requires Inv(s) && Enabled(s, e) && s.row.Some? && !Owned(e) && !Granted(s, e) && RowAfter(s.row, e).Some?
    ensures Inv(Next(s, e))
  {
    var n := s.row.value;
    forall t | t in s.held ensures n.fp.inFlight && (n.fp.refresh || n.layer != "") {
      assert ClaimHolds(n, s.held[t]);
    }
    assert n.fp.inFlight && !n.fp.refresh ==> n.layer != "" by {
      if n.fp.inFlight { var t :| t in s.held; }
    }
    RowKeepsProbe(n, e);
    HeldMoves(s, e);
  }

  lemma HeldMoves(s: State, e: Event)
    requires s.row.Some? && RowAfter(s.row, e).Some? && !Owned(e) && !Granted(s, e)
    ensures var moved := MovedBy(s.row.value, e, RowAfter(s.row, e).value);
            Next(s, e) == State(RowAfter(s.row, e),
                                map t | t in s.held :: s.held[t].(moved := s.held[t].moved || moved),
                                s.late, s.used)
  {
  }

  lemma EventKeepsInv(s: State, e: Event)
    requires Inv(s) && Enabled(s, e)
    ensures Inv(Next(s, e))
  {
    if s.row.None? || RowAfter(s.row, e).None? { DeletedKeepsInv(s, e); }
    else if Owned(e) { EndedKeepsInv(s, e); }
    else if Granted(s, e) { GrantedKeepsInv(s, e); }
    else { OtherKeepsInv(s, e); }
  }

  lemma {:induction false} RunKeepsInv(s: State, events: seq<Event>)
    requires Inv(s) && Admissible(s, events)
    ensures Inv(Run(s, events))
    decreases |events|
  {
    if events != [] {
      EventKeepsInv(s, events[0]);
      RunKeepsInv(Next(s, events[0]), events[1..]);
    }
  }

  // ----- over every run -----

  /** At most one claim on a retained row is outstanding, and a probe is granted only when none is. */
  lemma AtMostOneClaim(events: seq<Event>)
    requires Admissible(EMPTY, events)
    ensures |Run(EMPTY, events).held| <= 1
    ensures forall token, now :: Granted(Run(EMPTY, events), Grant(token, now)) ==> Run(EMPTY, events).held == map[]
  {
    RunKeepsInv(EMPTY, events);
    var held := Run(EMPTY, events).held;
    if held != map[] {
      var t :| t in held;
      assert held.Keys == {t};
      assert |held| == |held.Keys|;
    }
  }

  /** The claimed result a probe completes with is applied if and only if nothing moved the row since the claim and the
      probed layer is the claimed one; then endpoint and layer are what they were at the claim. */
  lemma AppliedExactlyWhenUnmoved(events: seq<Event>, e: Event)
    requires Admissible(EMPTY, events) && e.Complete? && e.token in Run(EMPTY, events).held
    ensures var s := Run(EMPTY, events); var c := s.held[e.token];
            && (Applied(s, e) <==> !c.moved && e.layer == c.layer)
            && (Applied(s, e) ==> s.row.value.record.endpoint == c.endpoint && s.row.value.layer == c.layer)
  {
    RunKeepsInv(EMPTY, events);
    var s := Run(EMPTY, events);
    assert ClaimHolds(s.row.value, s.held[e.token]);
  }

  /** Events keep what a held claim remembers of its grant, and never grant its token again. */
  lemma ClaimKept(s: State, e: Event, token: Token)
    requires Inv(s) && Enabled(s, e) && token in s.used
    ensures token in Next(s, e).used
    ensures token in Next(s, e).held ==> (
              && token in s.held && Next(s, e).held[token].endpoint == s.held[token].endpoint
              && Next(s, e).held[token].layer == s.held[token].layer
              && (Next(s, e).held[token].moved <==>
                    s.held[token].moved || MovedBy(s.row.value, e, RowAfter(s.row, e).value)))
  {
  }

  lemma {:induction false} ClaimKeptThrough(s: State, events: seq<Event>, token: Token)
    requires Inv(s) && Admissible(s, events) && token in s.used && token in Run(s, events).held
    ensures token in s.held && Run(s, events).held[token].endpoint == s.held[token].endpoint
            && Run(s, events).held[token].layer == s.held[token].layer
    ensures s.held[token].moved ==> Run(s, events).held[token].moved
    decreases |events|
  {
    if events != [] {
      EventKeepsInv(s, events[0]);
      ClaimKept(s, events[0], token);
      ClaimKeptThrough(Next(s, events[0]), events[1..], token);
    }
  }

  /** Whatever happens between a grant and the completion of its probe, an applied result finds ip, ip6, tcp, tcp6,
      quic, quic6 and layer equal to those at the grant. */
  lemma AppliedResultFitsItsClaim(before: seq<Event>, token: Token, now: Time, later: seq<Event>, e: Event)
    requires Admissible(EMPTY, before) && Granted(Run(EMPTY, before), Grant(token, now))
    requires Enabled(Run(EMPTY, before), Grant(token, now))
    requires var claimed := Next(Run(EMPTY, before), Grant(token, now));
             && Admissible(claimed, later) && e.Complete? && e.token == token
             && Enabled(Run(claimed, later), e) && Applied(Run(claimed, later), e)
    ensures var n := Run(EMPTY, before).row.value;
            var o := Run(Next(Run(EMPTY, before), Grant(token, now)), later).row.value;
            o.record.endpoint == n.record.endpoint && o.layer == n.layer
  {
    var s := Run(EMPTY, before);
    RunKeepsInv(EMPTY, before);
    var claimed := Next(s, Grant(token, now));
    EventKeepsInv(s, Grant(token, now));
    RunKeepsInv(claimed, later);
    ClaimKeptThrough(claimed, later, token);
    var last := Run(claimed, later);
    assert ClaimHolds(last.row.value, last.held[token]);
  }
}
