/** The owners of a probe claim, from the grant through the queue to the worker: each claim is ended exactly once. */
module ClaimOwners {
  import opened Text
  import opened Nodes
  import opened Probes

  datatype Task = Task(token: Token, layer: string, legacy: bool)

  /** What the enqueuer meets after its claim was granted. */
  datatype Admission = Admission(targetAllowed: bool, pressure: bool, queueAccepts: bool)

  /** What the set makes of an authenticated sighting: rejected, only touched (an older record), or applied. */
  datatype Sighting = Rejected | TouchedOnly | Applied(e: Extracted)

  /** What a worker meets: shut down before the probe, or the probe's outcome and whether shutdown cut it off.
      completed is the set's answer to the completion. */
  datatype Outcome = Drained | Probed(failed: bool, cancelled: bool, network: string, hash: string, next: nat,
                                      fp: Identity, sighting: Sighting, completed: bool, now: Time)

  /** enqueueFingerprint after the grant: the events it causes and the task it hands to the pool. */
  method Enqueue(token: Token, layer: string, network: string, a: Admission)
    returns (events: seq<Event>, task: Option<Task>)
    ensures task.Some? ==> events == [] && task.value.token == token && task.value.layer == layer
    ensures task.None? ==> events == [Unclaim(token)]
    ensures task.Some? <==>
              a.targetAllowed && a.queueAccepts && (layer == "cl" || (layer == "el" && !(network == "" && a.pressure)))
    ensures task.Some? ==> (task.value.legacy <==> layer == "el" && network == "")
  {
    events, task := [], None;
    if !a.targetAllowed { return [Unclaim(token)], None; }
    var next := Task(token, layer, false);
    if layer == "el" {
      if network == "" {
        if a.pressure { return [Unclaim(token)], None; }
        next := next.(legacy := true);
      }
    } else if layer != "cl" {
      return [Unclaim(token)], None;
    }
    if a.queueAccepts { task := Some(next); } else { events := [Unclaim(token)]; }
  }

  /** The claim's one ending is event i. */
  predicate Ends(events: seq<Event>, i: nat, token: Token) {
    i < |events| && Owned(events[i]) && events[i].token == token
    && forall j :: 0 <= j < |events| && Owned(events[j]) ==> j == i
  }

  /** A worker on a claimed task, through finishFingerprint or finishCandidateFingerprint. */
  method Work(t: Task, o: Outcome) returns (events: seq<Event>)
    ensures exists i :: 0 <= i < |events| && Ends(events, i, t.token)
    ensures o.Drained? || (o.failed && o.cancelled) ==> events == [Unclaim(t.token)]
    ensures o.Probed? && !(o.failed && o.cancelled) ==>
              if t.legacy then CandidateFinished(t.token, o, events) else Finished(t, o, events)
  {
    if o.Drained? || (o.failed && o.cancelled) {
      events := [Unclaim(t.token)];
      assert Ends(events, 0, t.token);
    } else if t.legacy {
      events := FinishCandidate(t.token, o);
    } else {
      events := Finish(t, o);
    }
  }

  /** A Status is recorded only after a completion that the set applied. */
  predicate StatusFollowsCompletion(events: seq<Event>, completed: bool) {
    forall j :: 0 <= j < |events| && events[j].Status? ==> completed && exists i :: 0 <= i < j && events[i].Complete?
  }

  /** Success completes the claim and then records the Status it carried, if the set applied the completion; a failed
      execution probe that identified the client completes it too; any other failure fails it. */
  predicate Finished(t: Task, o: Outcome, events: seq<Event>)
    requires o.Probed?
  {
    var done := Complete(t.token, t.layer, o.fp, "outbound", o.now);
    var status, fail := Status(o.network, o.hash, o.next, o.now), Fail(t.token, o.now);
    && (forall x :: x in events ==> x == done || x == status || x == fail)
    && (fail in events <==> o.failed && !(t.layer == "el" && o.fp.client != ""))
    && (done in events <==> !(fail in events))
    && (status in events <==> !o.failed && o.completed && o.network != "")
  }

  method Finish(t: Task, o: Outcome) returns (events: seq<Event>)
    requires o.Probed?
    ensures exists i :: 0 <= i < |events| && Ends(events, i, t.token)
    ensures StatusFollowsCompletion(events, o.completed)
    ensures Finished(t, o, events)
  {
    if !o.failed {
      events := [Complete(t.token, t.layer, o.fp, "outbound", o.now)];
      assert Ends(events, 0, t.token) && events[0].Complete?;
      if o.completed && o.network != "" {
        events := events + [Status(o.network, o.hash, o.next, o.now)];
        assert Ends(events, 0, t.token) && events[0].Complete?;
      }
    } else if t.layer == "el" && o.fp.client != "" {
      events := [Complete(t.token, t.layer, o.fp, "outbound", o.now)];
      assert Ends(events, 0, t.token);
    } else {
      events := [Fail(t.token, o.now)];
      assert Ends(events, 0, t.token) && events[0].Fail?;
    }
  }

  /** The critical sections of an authenticated sighting on a retained row. */
  function Seen(o: Outcome): seq<Event>
    requires o.Probed?
  {
    match o.sighting
    case Rejected => []
    case TouchedOnly => [Touch("dial", o.now, false, false)]
    case Applied(e) => [Touch("dial", o.now, false, false), Observe(Forced(e, o.network, "el"), o.now),
                        Stamp("el", o.network, o.hash, o.next, o.now)]
  }

  function EndingOf(token: Token, o: Outcome): Event
    requires o.Probed?
  {
    if o.sighting.Applied? then Complete(token, "el", o.fp, "outbound", o.now) else Unclaim(token)
  }

  /** A candidate's success is the sighting followed by its ending; a failure keeps the client the probe met, if any. */
  predicate CandidateFinished(token: Token, o: Outcome, events: seq<Event>)
    requires o.Probed?
  {
    && (!o.failed ==> events == Seen(o) + [EndingOf(token, o)])
    && (o.failed ==>
          && 1 <= |events| <= 2 && events[|events| - 1] == Fail(token, o.now)
          && (CandidateClient(o.fp, "outbound") in events <==> o.fp.client != ""))
  }

  /** Membership first: a candidate's identity is completed only after its authenticated membership was applied. */
  method FinishCandidate(token: Token, o: Outcome) returns (events: seq<Event>)
    requires o.Probed?
    ensures exists i :: 0 <= i < |events| && Ends(events, i, token)
    ensures forall j :: 0 <= j < |events| && events[j].Complete? ==>
      exists i :: 0 <= i < j && events[i].Stamp? && events[i].network == o.network
    ensures CandidateFinished(token, o, events)
  {
    if !o.failed {
      events := Seen(o) + [EndingOf(token, o)];
      assert Ends(events, |Seen(o)|, token);
      assert o.sighting.Applied? ==> events[2].Stamp?;
    } else {
      events := if o.fp.client != "" then [CandidateClient(o.fp, "outbound")] else [];
      events := events + [Fail(token, o.now)];
      assert Ends(events, |events| - 1, token);
    }
  }

  /** An authenticated dial never costs a row its place or any score, never pins it, and is no discovery sighting. */
  lemma DialOnlyHelps(n: Node, o: Outcome)
    requires o.Probed? && Seen(o) != []
    ensures var t := RowAfter(Some(n), Seen(o)[0]);
            && t.Some? && n.score <= t.value.score && (t.value.score <= SCORE_CAP || t.value.score == n.score)
            && t.value.pinned == n.pinned && t.value.seen == n.seen.(last := o.now, check := o.now)
            && t.value.fork == n.fork
  {
  }

  lemma ForcedIsClassified(n: Node, e: Extracted, network: string, now: Time)
    requires network != "" && n.fork.observedAt <= now
    ensures var o := Observed(n, Forced(e, network, "el"), true, now);
            o.network == network && o.layer == "el" && o.fork.observedAt <= now
  {
    var x := Forced(e, network, "el");
    var r := Refreshed(n, x, now);
    var c := Reclassified(r.(fork := ForkClaimed(r, x, true, now), record := x.record), x.network);
    assert c.network == network && c.fork.observedAt <= now;
  }

  /** An applied one leaves the row classified by the Status it carried. */
  lemma DialClassifies(n: Node, o: Outcome)
    requires o.Probed? && o.sighting.Applied? && o.network != "" && n.fork.observedAt <= o.now
    ensures var t := RowAfter(RowAfter(Some(n), Seen(o)[0]), Seen(o)[1]);
            && t.Some?
            && var s := RowAfter(t, Seen(o)[2]).value;
               && s.network == o.network && s.layer == "el"
               && s.membership.source == "status" && s.membership.verifiedAt == o.now
               && s.fork == ForkClaim(o.hash, o.next, "status", o.now) && s.seen.resolved == o.now
  {
    DialOnlyHelps(n, o);
    ForcedIsClassified(RowAfter(Some(n), Seen(o)[0]).value, o.sighting.e, o.network, o.now);
  }
}
