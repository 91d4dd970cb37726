/** The probe pool: bounded queues, workers and Close, over every interleaving. Each granted claim is ended
    exactly once. */
module ClaimPool {
  import opened Text
  import Probes

  type Token = Probes.Token

  /** A queued probe; the one-attempt probes of unretained nodes hold no claim. */
  datatype Task = Task(token: Option<Token>)

  /** claiming: granted and not yet queued or released; ended: claims by how often they were ended. */
  datatype Pool = Pool(depth: nat, closed: bool, granted: set<Token>, claiming: set<Token>, el: seq<Task>,
                       cl: seq<Task>, working: multiset<Task>, ended: multiset<Token>)

  datatype Event =
    | Grant(token: Token)
    | Release(token: Token)
    | Send(token: Token, layer: string)
    | SendUnclaimed
    | Take(layer: string)
    | Done(task: Task)
    | Close

  function Start(depth: nat): Pool {
    Pool(depth, false, {}, {}, [], [], multiset{}, multiset{})
  }

  function Ended(p: Pool, token: Token): Pool {
    p.(claiming := p.claiming - {token}, ended := p.ended + multiset{token})
  }

  function Tokens(task: Task): multiset<Token> {
    if task.token.Some? then multiset{task.token.value} else multiset{}
  }

  /** A send that finds the pool closed or the queue full is refused, and the sender ends its claim. */
  function Sent(p: Pool, token: Token, layer: string): Pool {
    var task := Task(Some(token));
    if p.closed || (layer != "el" && layer != "cl") then Ended(p, token)
    else if layer == "el" then
      if |p.el| < p.depth then p.(claiming := p.claiming - {token}, el := p.el + [task]) else Ended(p, token)
    else if |p.cl| < p.depth then p.(claiming := p.claiming - {token}, cl := p.cl + [task])
    else Ended(p, token)
  }

  /** None when the event cannot happen. Workers go on taking from a closed queue until it is empty. */
  function Next(p: Pool, e: Event): Option<Pool> {
    match e
    case Grant(token) =>
      if token in p.granted then None else Some(p.(granted := p.granted + {token}, claiming := p.claiming + {token}))
    case Release(token) => if token in p.claiming then Some(Ended(p, token)) else None
    case Send(token, layer) => if token in p.claiming then Some(Sent(p, token, layer)) else None
    case SendUnclaimed => if p.closed || |p.el| >= p.depth then Some(p) else Some(p.(el := p.el + [Task(None)]))
    case Take(layer) =>
      if layer == "el" && p.el != [] then Some(p.(el := p.el[1..], working := p.working + multiset{p.el[0]}))
      else if layer == "cl" && p.cl != [] then Some(p.(cl := p.cl[1..], working := p.working + multiset{p.cl[0]}))
      else None
    case Done(task) =>
      if task !in p.working then None
      else Some(p.(working := p.working - multiset{task}, ended := p.ended + Tokens(task)))
    case Close => Some(p.(closed := true))
  }

  predicate Admissible(p: Pool, events: seq<Event>)
    decreases |events|
  {
    events != [] ==> Next(p, events[0]).Some? && Admissible(Next(p, events[0]).value, events[1..])
  }

  function Run(p: Pool, events: seq<Event>): Pool
    requires Admissible(p, events)
    decreases |events|
  {
    if events == [] then p else Run(Next(p, events[0]).value, events[1..])
  }

  // ----- where a claim is -----

  /** How often a claim is queued. */
  function Queued(q: seq<Task>, token: Token): nat {
    if q == [] then 0 else (if q[0] == Task(Some(token)) then 1 else 0) + Queued(q[1..], token)
  }

  function Unit(b: bool): nat {
    if b then 1 else 0
  }

  /** Everywhere a claim can be, counted. */
  function Places(p: Pool, token: Token): nat {
    Unit(token in p.claiming) + Queued(p.el, token) + Queued(p.cl, token)
    + p.working[Task(Some(token))] + p.ended[token]
  }

  /** Each granted claim is in exactly one place, and no other claim is anywhere. */
  ghost predicate Inv(p: Pool) {
    p.claiming <= p.granted && forall token: Token :: Places(p, token) == Unit(token in p.granted)
  }

  lemma {:induction false} QueuedSnoc(q: seq<Task>, task: Task, token: Token)
    ensures Queued(q + [task], token) == Queued(q, token) + Unit(task == Task(Some(token)))
  {
    if q != [] {
      QueuedSnoc(q[1..], task, token);
      assert (q + [task])[1..] == q[1..] + [task];
    } else {
      assert q + [task] == [task];
    }
  }

  lemma EndedConserves(p: Pool, done: Token, token: Token)
    requires done in p.claiming
    ensures Places(Ended(p, done), token) == Places(p, token)
  {
  }

  lemma QueuedConserves(p: Pool, sent: Token, token: Token)
    requires sent in p.claiming
    ensures Places(p.(claiming := p.claiming - {sent}, el := p.el + [Task(Some(sent))]), token) == Places(p, token)
    ensures Places(p.(claiming := p.claiming - {sent}, cl := p.cl + [Task(Some(sent))]), token) == Places(p, token)
  {
    QueuedSnoc(p.el, Task(Some(sent)), token);
    QueuedSnoc(p.cl, Task(Some(sent)), token);
  }

  lemma SentConserves(p: Pool, sent: Token, layer: string, token: Token)
    requires sent in p.claiming
    ensures Places(Sent(p, sent, layer), token) == Places(p, token) && Sent(p, sent, layer).granted == p.granted
  {
    EndedConserves(p, sent, token);
    QueuedConserves(p, sent, token);
  }

  lemma OneTaken(working: multiset<Task>, task: Task, token: Token)
    ensures (working + multiset{task})[Task(Some(token))]
            == working[Task(Some(token))] + Unit(task == Task(Some(token)))
  {
  }

  lemma TakenConserves(p: Pool, token: Token)
    ensures p.el != [] ==>
              Places(p.(el := p.el[1..], working := p.working + multiset{p.el[0]}), token) == Places(p, token)
    ensures p.cl != [] ==>
              Places(p.(cl := p.cl[1..], working := p.working + multiset{p.cl[0]}), token) == Places(p, token)
  {
    if p.el != [] { OneTaken(p.working, p.el[0], token); }
    if p.cl != [] { OneTaken(p.working, p.cl[0], token); }
  }

  lemma DoneConserves(p: Pool, task: Task, token: Token)
    requires task in p.working
    ensures Places(p.(working := p.working - multiset{task}, ended := p.ended + Tokens(task)), token)
            == Places(p, token)
  {
    OneTaken(p.working - multiset{task}, task, token);
    assert p.working - multiset{task} + multiset{task} == p.working;
    assert Tokens(task)[token] == Unit(task == Task(Some(token)));
  }

  lemma StepConserves(p: Pool, e: Event, token: Token)
    requires p.claiming <= p.granted && Next(p, e).Some?
    ensures var q := Next(p, e).value;
            && q.claiming <= q.granted
            && Places(q, token) == Places(p, token) + Unit(e.Grant? && e.token == token)
            && Unit(token in q.granted) == Unit(token in p.granted) + Unit(e.Grant? && e.token == token)
  {
    match e
    case Grant(_) =>
    case Release(done) => EndedConserves(p, done, token);
    case Send(sent, layer) => SentConserves(p, sent, layer, token);
    case SendUnclaimed => QueuedSnoc(p.el, Task(None), token);
    case Take(_) => TakenConserves(p, token);
    case Done(task) => DoneConserves(p, task, token);
    case Close =>
  }

  lemma {:induction false} RunKeepsInv(p: Pool, events: seq<Event>)
    requires Inv(p) && Admissible(p, events)
    ensures Inv(Run(p, events))
    decreases |events|
  {
    if events != [] {
      var q := Next(p, events[0]).value;
      forall token: Token ensures q.claiming <= q.granted && Places(q, token) == Unit(token in q.granted) {
        StepConserves(p, events[0], token);
      }
      assert q.claiming <= q.granted by { StepConserves(p, events[0], 0); }
      RunKeepsInv(q, events[1..]);
    }
  }

  predicate Within(p: Pool) {
    |p.el| <= p.depth && |p.cl| <= p.depth
  }

  lemma {:induction false} RunKeepsWithin(p: Pool, events: seq<Event>)
    requires Within(p) && Admissible(p, events)
    ensures Within(Run(p, events)) && Run(p, events).depth == p.depth
    decreases |events|
  {
    if events != [] { RunKeepsWithin(Next(p, events[0]).value, events[1..]); }
  }

  /** Over every run no queue holds more than its depth, and until Close a send for a layer whose queue has room is
      queued there and ends nothing; a full or closed one ends the claim. */
  lemma QueuesAreBounded(depth: nat, events: seq<Event>, token: Token, layer: string)
    requires Admissible(Start(depth), events) && (layer == "el" || layer == "cl")
    ensures var p := Run(Start(depth), events);
            && |p.el| <= depth && |p.cl| <= depth
            && (p.closed <==> Close in events)
            && (token in p.claiming ==>
                  var q := Next(p, Send(token, layer)).value;
                  var room := Close !in events && |if layer == "el" then p.el else p.cl| < depth;
                  && token !in q.claiming && q.working == p.working
                  && q.el == (if room && layer == "el" then p.el + [Task(Some(token))] else p.el)
                  && q.cl == (if room && layer == "cl" then p.cl + [Task(Some(token))] else p.cl)
                  && q.ended == (if room then p.ended else p.ended + multiset{token}))
  {
    RunKeepsWithin(Start(depth), events);
    ClosedByClose(Start(depth), events);
  }

  lemma {:induction false} ClosedByClose(p: Pool, events: seq<Event>)
    requires Admissible(p, events)
    ensures Run(p, events).closed <==> p.closed || Close in events
    decreases |events|
  {
    if events != [] {
      ClosesOnClose(p, events[0]);
      ClosedByClose(Next(p, events[0]).value, events[1..]);
      assert Close in events <==> events[0] == Close || Close in events[1..];
    }
  }

  lemma ClosesOnClose(p: Pool, e: Event)
    requires Next(p, e).Some?
    ensures Next(p, e).value.closed <==> p.closed || e == Close
  {
  }

  /** An unclaimed probe too is queued exactly while the pool is open and its queue has room. */
  lemma UnclaimedSend(p: Pool)
    ensures Next(p, SendUnclaimed) ==
              Some(if !p.closed && |p.el| < p.depth then p.(el := p.el + [Task(None)]) else p)
  {
  }

  /** Over every interleaving no claim is ended twice, none is ended that was not granted, and a granted one that is not
      ended yet is with its enqueuer, in one queue or with one worker. */
  lemma EndedAtMostOnce(depth: nat, events: seq<Event>, token: Token)
    requires Admissible(Start(depth), events)
    ensures var p := Run(Start(depth), events);
            && p.ended[token] <= 1 && (p.ended[token] == 1 ==> token in p.granted)
            && (token in p.granted && p.ended[token] == 0 ==>
                  Unit(token in p.claiming) + Queued(p.el, token) + Queued(p.cl, token)
                  + p.working[Task(Some(token))] == 1)
  {
    RunKeepsInv(Start(depth), events);
    assert Places(Run(Start(depth), events), token) <= 1;
  }

  /** Once closed and drained, with no enqueuer left in the middle, every granted claim has been ended exactly once. */
  lemma DrainedEndsAll(depth: nat, events: seq<Event>, token: Token)
    requires Admissible(Start(depth), events)
    requires var p := Run(Start(depth), events); p.el == [] && p.cl == [] && p.working == multiset{} && p.claiming == {}
    ensures Run(Start(depth), events).ended[token] == Unit(token in Run(Start(depth), events).granted)
  {
    RunKeepsInv(Start(depth), events);
    assert Places(Run(Start(depth), events), token) == Unit(token in Run(Start(depth), events).granted);
  }

  /** Claims and tasks still to be dealt with. */
  function Remaining(p: Pool): nat {
    2 * |p.claiming| + 2 * |p.el| + 2 * |p.cl| + |p.working|
  }

  /** After Close nothing is queued any more, so every step but a new grant or a refused unclaimed send brings the drain
      nearer; while something remains in a queue or with a worker, such a step exists. */
  lemma CloseDrains(p: Pool, e: Event)
    requires p.closed && Next(p, e).Some? && (e.Release? || e.Send? || e.Take? || e.Done?)
    ensures var q := Next(p, e).value; q.closed && |q.el| <= |p.el| && |q.cl| <= |p.cl| && Remaining(q) < Remaining(p)
  {
  }

  lemma DrainGoesOn(p: Pool)
    requires p.el != [] || p.cl != [] || p.working != multiset{}
    ensures exists e: Event :: (e.Take? || e.Done?) && Next(p, e).Some?
  {
    if p.el != [] { assert Next(p, Take("el")).Some?; }
    else if p.cl != [] { assert Next(p, Take("cl")).Some?; }
    else {
      var task :| task in p.working;
      assert Next(p, Done(task)).Some?;
    }
  }
}
