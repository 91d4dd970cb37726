/** Any number of requests on the coalescing cache, in every interleaving of their critical sections. */
module LruRuns {
  import opened Text
  import opened Lru

  type Request = nat

  datatype PC =
    | Asking(key: Key)
    | Waiting(key: Key, load: LoadId)
    | Running(key: Key, load: LoadId)
    | Closing(key: Key, load: LoadId, outcome: Outcome)
    | Answered(key: Key, outcome: Outcome)
    | GaveUp(key: Key)

  /** closed: outcomes visible to waiters; keys: the key of every load ever begun; used: when a key was last hit or
      stored; runs: what successful loader runs returned. */
  datatype State = State(cache: Cache, reqs: map<Request, PC>, closed: map<LoadId, Outcome>, keys: map<LoadId, Key>,
                         clock: nat, used: map<Key, nat>, runs: set<(Key, Value)>)

  datatype Event =
    | Arrive(r: Request, key: Key)
    | Ask(r: Request, load: LoadId)
    | Return(r: Request, outcome: Outcome)
    | Close(r: Request)
    | Wake(r: Request)
    | GiveUp(r: Request)

  function Start(capacity: int): State {
    State(Cache(capacity, map[], [], map[]), map[], map[], map[], 0, map[], {})
  }

  predicate Enabled(s: State, e: Event) {
    match e
    case Arrive(r, key) => r !in s.reqs
    case Ask(r, load) => r in s.reqs && s.reqs[r].Asking? && load !in s.keys
    case Return(r, outcome) => r in s.reqs && s.reqs[r].Running?
    case Close(r) => r in s.reqs && s.reqs[r].Closing?
    case Wake(r) => r in s.reqs && s.reqs[r].Waiting? && s.reqs[r].load in s.closed
    case GiveUp(r) => r in s.reqs && s.reqs[r].Waiting?
  }

  /** What a waiter makes of a finished load: real failures are shared, anything else is asked again. */
  function Woken(key: Key, outcome: Outcome): PC {
    if outcome.Failed? && !outcome.cancelled then Answered(key, outcome) else Asking(key)
  }

  function Next(s: State, e: Event): State
    requires Enabled(s, e)
  {
    var t := s.(clock := s.clock + 1);
    match e
    case Arrive(r, key) => t.(reqs := s.reqs[r := Asking(key)])
    case Ask(r, load) => Asked(t, r, s.reqs[r].key, load)
    case Return(r, outcome) => Returned(t, r, s.reqs[r].key, s.reqs[r].load, outcome)
    case Close(r) =>
      var pc := s.reqs[r];
      t.(reqs := s.reqs[r := Answered(pc.key, pc.outcome)], closed := s.closed[pc.load := pc.outcome])
    case Wake(r) => t.(reqs := s.reqs[r := Woken(s.reqs[r].key, s.closed[s.reqs[r].load])])
    case GiveUp(r) => t.(reqs := s.reqs[r := GaveUp(s.reqs[r].key)])
  }

  function Asked(s: State, r: Request, key: Key, load: LoadId): State {
    var looked := Looked(s.cache, key, load);
    var t := s.(cache := looked.0);
    match looked.1
    case Hit(value) => t.(reqs := s.reqs[r := Answered(key, Loaded(value))], used := s.used[key := s.clock])
    case Wait(other) => t.(reqs := s.reqs[r := Waiting(key, other)])
    case Run => t.(reqs := s.reqs[r := Running(key, load)], keys := s.keys[load := key])
  }

  /** The load's own number serves as the new element's identity. */
  function Returned(s: State, r: Request, key: Key, load: LoadId, outcome: Outcome): State {
    var t := s.(cache := Stored(s.cache, key, load, outcome), reqs := s.reqs[r := Closing(key, load, outcome)]);
    if outcome.Loaded? then t.(used := s.used[key := s.clock], runs := s.runs + {(key, outcome.value)}) else t
  }

  // ----- the invariant -----

  predicate InFlight(pc: PC) {
    pc.Running? || pc.Closing?
  }

  predicate Owns(pc: PC, load: LoadId) {
    InFlight(pc) && pc.load == load
  }

  /** Loads in flight are those pending, one request each; an ended load is never in flight again. */
  ghost predicate OwnersInv(s: State) {
    && (forall r :: r in s.reqs && s.reqs[r].Running? ==>
          s.reqs[r].key in s.cache.pending && s.cache.pending[s.reqs[r].key] == s.reqs[r].load)
    && (forall k :: k in s.cache.pending ==> exists r :: r in s.reqs && s.reqs[r] == Running(k, s.cache.pending[k]))
    && (forall r, q :: r in s.reqs && q in s.reqs && r != q && InFlight(s.reqs[r]) && InFlight(s.reqs[q]) ==>
          s.reqs[r].load != s.reqs[q].load)
  }

  ghost predicate KeysInv(s: State) {
    && (forall r :: r in s.reqs && (s.reqs[r].Waiting? || s.reqs[r].Running? || s.reqs[r].Closing?) ==>
          s.reqs[r].load in s.keys && s.keys[s.reqs[r].load] == s.reqs[r].key)
    && (forall k :: k in s.cache.pending ==> s.cache.pending[k] in s.keys && s.keys[s.cache.pending[k]] == k)
    && (forall l :: l in s.closed ==> l in s.keys)
    && (forall e :: e in s.cache.order ==> e.id in s.keys && e.key in s.used && s.keys[e.id] == e.key)
    && (forall r, e :: r in s.reqs && s.reqs[r].Running? && e in s.cache.order ==> s.reqs[r].load != e.id)
  }

  /** A waiter's load has closed, or some request will close it. */
  ghost predicate WakeInv(s: State) {
    forall r :: r in s.reqs && s.reqs[r].Waiting? ==> s.reqs[r].load in s.closed || InHand(s, s.reqs[r].load)
  }

  ghost predicate InHand(s: State, load: LoadId) {
    exists q :: q in s.reqs && Owns(s.reqs[q], load)
  }

  /** Every value held or answered came from a successful loader run of its key. */
  ghost predicate ValuesInv(s: State) {
    && (forall e :: e in s.cache.order ==> (e.key, e.value) in s.runs)
    && (forall r :: r in s.reqs && (s.reqs[r].Closing? || s.reqs[r].Answered?) && s.reqs[r].outcome.Loaded? ==>
          (s.reqs[r].key, s.reqs[r].outcome.value) in s.runs)
  }

  /** The list is in order of last use. */
  ghost predicate RecencyInv(s: State) {
    && (forall k :: k in s.used ==> s.used[k] <= s.clock)
    && RecentFirst(s.cache.order, s.used)
  }

  ghost predicate RecentFirst(order: seq<Element>, used: map<Key, nat>) {
    && (forall e :: e in order ==> e.key in used)
    && forall i, j :: 0 <= i < j < |order| ==> used[order[i].key] > used[order[j].key]
  }

  ghost predicate Inv(s: State) {
    Bijection(s.cache) && OwnersInv(s) && KeysInv(s) && WakeInv(s) && ValuesInv(s) && RecencyInv(s)
  }

  function After(s: State, events: seq<Event>): State
    requires Admissible(s, events)
    decreases |events|
  {
    if events == [] then s else After(Next(s, events[0]), events[1..])
  }

  predicate Admissible(s: State, events: seq<Event>)
    decreases |events|
  {
    events != [] ==> Enabled(s, events[0]) && Admissible(Next(s, events[0]), events[1..])
  }

  // ----- every event keeps it -----

  /** The key leads the list, the rest of which is as recent as before. */
  ghost predicate Leads(c: Cache, key: Key, s: State) {
    && c.order != [] && c.order[0].key == key && c.order[0] in s.cache.order
    && c.pending == s.cache.pending && c.items == s.cache.items
    && RecentFirst(c.order[1..], s.used) && c.order == [c.order[0]] + c.order[1..]
    && forall e :: e in c.order[1..] ==> e.key != key
  }

  /** The list after a lookup: the same elements, the hit one first. */
  lemma LookedOrder(s: State, key: Key, load: LoadId)
    requires Bijection(s.cache) && RecentFirst(s.cache.order, s.used)
    ensures var c := Looked(s.cache, key, load).0;
            && (forall e :: e in c.order <==> e in s.cache.order)
            && (key in s.cache.items ==> Leads(c, key, s) && Looked(s.cache, key, load).1 == Hit(c.order[0].value))
            && (key !in s.cache.items ==> c.order == s.cache.order)
  {
    LookedKeeps(s.cache, key, load);
    if key in s.cache.items {
      var e := ElementOf(s.cache.order, s.cache.items[key]).value;
      Unlinked(s.cache.order, e);
      WithoutRecent(s.cache.order, e, s.used);
      var w := Without(s.cache.order, e.id);
      assert ([e] + w)[1..] == w;
    }
  }

  lemma RecentTail(order: seq<Element>, used: map<Key, nat>)
    requires RecentFirst(order, used) && order != []
    ensures RecentFirst(order[1..], used) && forall e :: e in order[1..] ==> used[order[0].key] > used[e.key]
  {
  }

  lemma RecentCons(e: Element, order: seq<Element>, used: map<Key, nat>)
    requires RecentFirst(order, used) && e.key in used && forall x :: x in order ==> used[e.key] > used[x.key]
    ensures RecentFirst([e] + order, used)
  {
    var all := [e] + order;
    forall i, j | 0 <= i < j < |all| ensures used[all[i].key] > used[all[j].key] {
      assert all[j] == order[j - 1] && all[j] in order;
      if i > 0 { assert all[i] == order[i - 1]; }
    }
  }

  lemma {:induction false} WithoutRecent(order: seq<Element>, e: Element, used: map<Key, nat>)
    requires Distinct(order) && RecentFirst(order, used) && e in order
    ensures RecentFirst(Without(order, e.id), used)
  {
    var first, rest := order[0], order[1..];
    RecentTail(order, used);
    if first.id != e.id {
      assert order == [first] + rest;
      DistinctTail(order);
      WithoutRecent(rest, e, used);
      Unlinked(rest, e);
      RecentCons(first, Without(rest, e.id), used);
    }
  }

  /** A key used now leads the list. */
  lemma UsedNow(e: Element, order: seq<Element>, used: map<Key, nat>, clock: nat)
    requires RecentFirst(order, used) && (forall k :: k in used ==> used[k] < clock)
    requires forall x :: x in order ==> x.key != e.key
    ensures RecentFirst([e] + order, used[e.key := clock])
  {
    RecentCons(e, order, used[e.key := clock]);
  }

  /** What a hit makes of the state. */
  ghost predicate IsHit(s: State, t: State, r: Request, key: Key) {
    && r in s.reqs && s.reqs[r].Asking? && Leads(t.cache, key, s)
    && (forall e :: e in t.cache.order ==> e in s.cache.order)
    && t.reqs == s.reqs[r := Answered(key, Loaded(t.cache.order[0].value))] && t.closed == s.closed && t.keys == s.keys
    && t.clock == s.clock + 1 && t.used == s.used[key := t.clock] && t.runs == s.runs
  }

  lemma HitShape(s: State, e: Event)
    requires e.Ask? && Bijection(s.cache) && RecencyInv(s) && Enabled(s, e) && s.reqs[e.r].key in s.cache.items
    ensures IsHit(s, Next(s, e), e.r, s.reqs[e.r].key) && Bijection(Next(s, e).cache)
  {
    LookedKeeps(s.cache, s.reqs[e.r].key, e.load);
    LookedOrder(s, s.reqs[e.r].key, e.load);
  }

  /** A hit changes the list's order and answers. */
  lemma HitKeeps(s: State, e: Event)
    requires e.Ask? && Inv(s) && Enabled(s, e) && s.reqs[e.r].key in s.cache.items
    ensures Inv(Next(s, e))
  {
    HitShape(s, e);
    HitRecency(s, Next(s, e), e.r, s.reqs[e.r].key);
    HitOwners(s, Next(s, e), e.r, s.reqs[e.r].key);
  }

  lemma HitRecency(s: State, t: State, r: Request, key: Key)
    requires RecencyInv(s) && ValuesInv(s) && IsHit(s, t, r, key)
    ensures RecencyInv(t) && ValuesInv(t)
  {
    HitValues(s, t, r, key);
    UsedNow(t.cache.order[0], t.cache.order[1..], s.used, s.clock + 1);
  }

  lemma HitOwners(s: State, t: State, r: Request, key: Key)
    requires OwnersInv(s) && WakeInv(s) && KeysInv(s) && IsHit(s, t, r, key)
    ensures OwnersInv(t) && WakeInv(t) && KeysInv(t)
  {
    var pc := t.reqs[r];
    assert t.reqs == s.reqs[r := pc];
    OwnersStay(s, t, r);
    WaitersStay(s, t, r);
    HitKeys(s, t, r);
  }

  lemma HitKeys(s: State, t: State, r: Request)
    requires KeysInv(s) && t.cache.pending == s.cache.pending && t.closed == s.closed && t.keys == s.keys
    requires forall e :: e in t.cache.order ==> e in s.cache.order
    requires s.used.Keys <= t.used.Keys && r in s.reqs && r in t.reqs && t.reqs == s.reqs[r := t.reqs[r]]
    requires t.reqs[r].Answered?
    ensures KeysInv(t)
  {
  }

  lemma HitValues(s: State, t: State, r: Request, key: Key)
    requires ValuesInv(s) && Leads(t.cache, key, s) && (forall e :: e in t.cache.order ==> e in s.cache.order)
    requires t.reqs == s.reqs[r := Answered(key, Loaded(t.cache.order[0].value))] && t.runs == s.runs
    ensures ValuesInv(t)
  {
  }

  /** Requests other than r, none of whose loads r holds, keep their owners. */
  lemma OwnersStay(s: State, t: State, r: Request)
    requires OwnersInv(s) && t.cache.pending == s.cache.pending && r in s.reqs && !InFlight(s.reqs[r])
    requires r in t.reqs && t.reqs == s.reqs[r := t.reqs[r]] && !InFlight(t.reqs[r])
    ensures OwnersInv(t)
  {
    forall k | k in t.cache.pending ensures exists q :: q in t.reqs && t.reqs[q] == Running(k, t.cache.pending[k]) {
      var q :| q in s.reqs && s.reqs[q] == Running(k, s.cache.pending[k]);
      assert t.reqs[q] == s.reqs[q];
    }
  }

  lemma WaitersStay(s: State, t: State, r: Request)
    requires WakeInv(s) && t.closed == s.closed && r in s.reqs && !InFlight(s.reqs[r])
    requires r in t.reqs && t.reqs == s.reqs[r := t.reqs[r]]
    requires t.reqs[r].Waiting? ==> InHand(s, t.reqs[r].load)
    ensures WakeInv(t)
  {
    forall q | q in t.reqs && t.reqs[q].Waiting? && t.reqs[q].load !in t.closed ensures InHand(t, t.reqs[q].load) {
      assert q != r ==> t.reqs[q] == s.reqs[q];
      var o :| o in s.reqs && Owns(s.reqs[o], t.reqs[q].load);
      assert Owns(t.reqs[o], t.reqs[q].load);
    }
  }

  lemma MissIsMissed(s: State, key: Key, load: LoadId)
    requires Bijection(s.cache) && key !in s.cache.items
    ensures Looked(s.cache, key, load) ==
            if key in s.cache.pending then (s.cache, Wait(s.cache.pending[key]))
            else (s.cache.(pending := s.cache.pending[key := load]), Run)
  {
  }

  lemma WaitKeeps(s: State, e: Event)
    requires e.Ask? && Inv(s) && Enabled(s, e) && s.reqs[e.r].key !in s.cache.items
    requires s.reqs[e.r].key in s.cache.pending
    ensures Inv(Next(s, e))
  {
    var key := s.reqs[e.r].key;
    MissIsMissed(s, key, e.load);
    var t := Next(s, e);
    assert t == s.(clock := s.clock + 1, reqs := s.reqs[e.r := Waiting(key, s.cache.pending[key])]);
    WaitParts(s, t, e.r, key);
  }

  lemma WaitParts(s: State, t: State, r: Request, key: Key)
    requires Inv(s) && r in s.reqs && s.reqs[r].Asking? && key in s.cache.pending
    requires t == s.(clock := s.clock + 1, reqs := s.reqs[r := Waiting(key, s.cache.pending[key])])
    ensures Inv(t)
  {
    OwnersStay(s, t, r);
    var q :| q in s.reqs && s.reqs[q] == Running(key, s.cache.pending[key]);
    assert Owns(s.reqs[q], s.cache.pending[key]);
    WaitersStay(s, t, r);
    WaitKeys(s, t, r, key);
  }

  lemma WaitKeys(s: State, t: State, r: Request, key: Key)
    requires KeysInv(s) && r in s.reqs && key in s.cache.pending
    requires t == s.(clock := s.clock + 1, reqs := s.reqs[r := Waiting(key, s.cache.pending[key])])
    ensures KeysInv(t)
  {
  }

  lemma RunKeeps(s: State, e: Event)
    requires e.Ask? && Inv(s) && Enabled(s, e) && s.reqs[e.r].key !in s.cache.items
    requires s.reqs[e.r].key !in s.cache.pending
    ensures Inv(Next(s, e))
  {
    var key := s.reqs[e.r].key;
    MissIsMissed(s, key, e.load);
    var t := Next(s, e);
    WaitersStay(s, t, e.r);
    RunOwners(s, t, e.r, key, e.load);
    RunKeys(s, t, e.r, key, e.load);
  }

  lemma RunKeys(s: State, t: State, r: Request, key: Key, load: LoadId)
    requires KeysInv(s) && r in s.reqs && load !in s.keys
    requires t.cache == s.cache.(pending := s.cache.pending[key := load])
    requires t.reqs == s.reqs[r := Running(key, load)] && t.keys == s.keys[load := key] && t.closed == s.closed
    requires t.used == s.used
    ensures KeysInv(t)
  {
  }

  lemma RunOwners(s: State, t: State, r: Request, key: Key, load: LoadId)
    requires OwnersInv(s) && KeysInv(s) && r in s.reqs && s.reqs[r].Asking? && load !in s.keys
    requires key !in s.cache.pending
    requires t.reqs == s.reqs[r := Running(key, load)] && t.cache.pending == s.cache.pending[key := load]
    ensures OwnersInv(t)
  {
    forall k | k in t.cache.pending ensures exists q :: q in t.reqs && t.reqs[q] == Running(k, t.cache.pending[k]) {
      if k == key {
        assert t.reqs[r] == Running(k, load);
      } else {
        var q :| q in s.reqs && s.reqs[q] == Running(k, s.cache.pending[k]);
        assert t.reqs[q] == s.reqs[q];
      }
    }
  }

  lemma StoredOrder(c: Cache, key: Key, id: nat, outcome: Outcome)
    requires Bijection(c) && key !in c.items && forall e :: e in c.order ==> e.id != id
    ensures var t := Stored(c, key, id, outcome);
            && (outcome.Failed? ==> t.order == c.order && t.items == c.items)
            && (outcome.Loaded? ==> forall e :: e in t.order ==> e == Element(id, key, outcome.value) || e in c.order)
            && t.pending == c.pending - {key}
  {
  }

  lemma RecentPrefix(order: seq<Element>, used: map<Key, nat>, n: nat)
    requires RecentFirst(order, used) && n <= |order|
    ensures RecentFirst(order[..n], used)
  {
  }

  /** A running load is the one pending for its key, which is not cached, and its number is not yet an element's. */
  lemma RunningIsPending(s: State, r: Request)
    requires Inv(s) && r in s.reqs && s.reqs[r].Running?
    ensures s.reqs[r].key in s.cache.pending && s.reqs[r].key !in s.cache.items
    ensures forall x :: x in s.cache.order ==> x.id != s.reqs[r].load && x.key != s.reqs[r].key
  {
  }

  lemma ReturnKeeps(s: State, e: Event)
    requires e.Return? && Inv(s) && Enabled(s, e)
    ensures Inv(Next(s, e))
  {
    var pc := s.reqs[e.r];
    RunningIsPending(s, e.r);
    StoredKeeps(s.cache, pc.key, pc.load, e.outcome);
    StoredOrder(s.cache, pc.key, pc.load, e.outcome);
    var t := Next(s, e);
    ReturnOwners(s, t, e.r, pc.key, pc.load, e.outcome);
    ReturnWaiters(s, t, e.r, pc.load);
    ReturnKeys(s, t, e.r, pc.key, pc.load, e.outcome);
    ReturnValues(s, t, e.r, pc.key, pc.load, e.outcome);
    ReturnRecency(s, t, pc.key, pc.load, e.outcome);
  }

  lemma ReturnRecency(s: State, t: State, key: Key, load: LoadId, outcome: Outcome)
    requires RecencyInv(s) && t.clock == s.clock + 1 && (forall x :: x in s.cache.order ==> x.key != key)
    requires t.cache == Stored(s.cache, key, load, outcome)
    requires t.used == if outcome.Loaded? then s.used[key := s.clock + 1] else s.used
    ensures RecencyInv(t)
  {
    if outcome.Loaded? {
      var first := Element(load, key, outcome.value);
      UsedNow(first, s.cache.order, s.used, s.clock + 1);
      RecentPrefix([first] + s.cache.order, t.used, |s.cache.order|);
    }
  }

  lemma ReturnValues(s: State, t: State, r: Request, key: Key, load: LoadId, outcome: Outcome)
    requires ValuesInv(s) && t.reqs == s.reqs[r := Closing(key, load, outcome)]
    requires t.runs == if outcome.Loaded? then s.runs + {(key, outcome.value)} else s.runs
    requires forall e :: e in t.cache.order ==>
               e in s.cache.order || (outcome.Loaded? && e == Element(load, key, outcome.value))
    ensures ValuesInv(t)
  {
  }

  lemma ReturnKeys(s: State, t: State, r: Request, key: Key, load: LoadId, outcome: Outcome)
    requires KeysInv(s) && OwnersInv(s) && r in s.reqs && s.reqs[r] == Running(key, load)
    requires t.reqs == s.reqs[r := Closing(key, load, outcome)] && t.cache.pending == s.cache.pending - {key}
    requires t.keys == s.keys && t.closed == s.closed
    requires t.used.Keys == s.used.Keys + if outcome.Loaded? then {key} else {}
    requires forall e :: e in t.cache.order ==>
               e in s.cache.order || (outcome.Loaded? && e == Element(load, key, outcome.value))
    ensures KeysInv(t)
  {
  }

  lemma ReturnOwners(s: State, t: State, r: Request, key: Key, load: LoadId, outcome: Outcome)
    requires OwnersInv(s) && r in s.reqs && s.reqs[r] == Running(key, load)
    requires t.reqs == s.reqs[r := Closing(key, load, outcome)] && t.cache.pending == s.cache.pending - {key}
    ensures OwnersInv(t)
  {
    forall k | k in t.cache.pending ensures exists q :: q in t.reqs && t.reqs[q] == Running(k, t.cache.pending[k]) {
      var q :| q in s.reqs && s.reqs[q] == Running(k, s.cache.pending[k]);
      assert t.reqs[q] == s.reqs[q];
    }
    forall q | q in t.reqs && t.reqs[q].Running?
      ensures t.reqs[q].key in t.cache.pending && t.cache.pending[t.reqs[q].key] == t.reqs[q].load {
      assert s.reqs[q] == t.reqs[q] && InFlight(s.reqs[q]) && InFlight(s.reqs[r]);
    }
  }

  lemma ReturnWaiters(s: State, t: State, r: Request, load: LoadId)
    requires WakeInv(s) && r in s.reqs && Owns(s.reqs[r], load) && r in t.reqs && Owns(t.reqs[r], load)
    requires t.reqs == s.reqs[r := t.reqs[r]] && t.closed == s.closed
    ensures WakeInv(t)
  {
    forall q | q in t.reqs && t.reqs[q].Waiting? && t.reqs[q].load !in t.closed ensures InHand(t, t.reqs[q].load) {
      assert s.reqs[q] == t.reqs[q];
      var o :| o in s.reqs && Owns(s.reqs[o], t.reqs[q].load);
      assert Owns(t.reqs[o], t.reqs[q].load);
    }
  }

  /** Only an ended load's owner changed: the owners of pending loads stay. */
  lemma PendingStay(s: State, t: State, r: Request)
    requires OwnersInv(s) && t.cache == s.cache && (r in s.reqs ==> !s.reqs[r].Running?)
    requires r in t.reqs && t.reqs == s.reqs[r := t.reqs[r]] && !InFlight(t.reqs[r])
    ensures OwnersInv(t)
  {
    forall k | k in t.cache.pending ensures exists q :: q in t.reqs && t.reqs[q] == Running(k, t.cache.pending[k]) {
      var q :| q in s.reqs && s.reqs[q] == Running(k, s.cache.pending[k]);
      assert t.reqs[q] == s.reqs[q];
    }
  }

  lemma CloseKeeps(s: State, e: Event)
    requires e.Close? && Inv(s) && Enabled(s, e)
    ensures Inv(Next(s, e))
  {
    PendingStay(s, Next(s, e), e.r);
    CloseWakes(s, Next(s, e), e.r);
  }

  lemma CloseWakes(s: State, t: State, r: Request)
    requires WakeInv(s) && r in s.reqs && s.reqs[r].Closing?
    requires t.closed == s.closed[s.reqs[r].load := s.reqs[r].outcome]
    requires t.reqs == s.reqs[r := Answered(s.reqs[r].key, s.reqs[r].outcome)]
    ensures WakeInv(t)
  {
    forall q | q in t.reqs && t.reqs[q].Waiting? && t.reqs[q].load !in t.closed ensures InHand(t, t.reqs[q].load) {
      assert s.reqs[q] == t.reqs[q];
      var o :| o in s.reqs && Owns(s.reqs[o], s.reqs[q].load);
      assert Owns(t.reqs[o], s.reqs[q].load);
    }
  }

  lemma ArriveKeeps(s: State, e: Event)
    requires e.Arrive? && Inv(s) && Enabled(s, e)
    ensures Inv(Next(s, e))
  {
    PendingStay(s, Next(s, e), e.r);
    ArriveWakes(s, Next(s, e), e.r, e.key);
  }

  lemma ArriveWakes(s: State, t: State, r: Request, key: Key)
    requires WakeInv(s) && r !in s.reqs && t.closed == s.closed && t.reqs == s.reqs[r := Asking(key)]
    ensures WakeInv(t)
  {
    forall q | q in t.reqs && t.reqs[q].Waiting? && t.reqs[q].load !in t.closed ensures InHand(t, t.reqs[q].load) {
      assert s.reqs[q] == t.reqs[q];
      var o :| o in s.reqs && Owns(s.reqs[o], s.reqs[q].load);
      assert t.reqs[o] == s.reqs[o];
    }
  }

  lemma WaiterKeeps(s: State, e: Event)
    requires (e.Wake? || e.GiveUp?) && Inv(s) && Enabled(s, e)
    ensures Inv(Next(s, e))
  {
    OwnersStay(s, Next(s, e), e.r);
    WaitersStay(s, Next(s, e), e.r);
  }

  lemma EventKeepsInv(s: State, e: Event)
    requires Inv(s) && Enabled(s, e)
    ensures Inv(Next(s, e))
  {
    if e.Ask? {
      if s.reqs[e.r].key in s.cache.items { HitKeeps(s, e); }
      else if s.reqs[e.r].key in s.cache.pending { WaitKeeps(s, e); }
      else { RunKeeps(s, e); }
    } else if e.Return? {
      ReturnKeeps(s, e);
    } else if e.Close? {
      CloseKeeps(s, e);
    } else if e.Arrive? {
      ArriveKeeps(s, e);
    } else {
      WaiterKeeps(s, e);
    }
  }

  lemma {:induction false} RunKeepsInv(s: State, events: seq<Event>)
    requires Inv(s) && Admissible(s, events)
    ensures Inv(After(s, events))
    decreases |events|
  {
    if events != [] {
      EventKeepsInv(s, events[0]);
      RunKeepsInv(Next(s, events[0]), events[1..]);
    }
  }

  // ----- over every run -----

  /** At most one loader runs per key, no key is both pending and cached, and map and list are in bijection within
      capacity. */
  lemma OneLoaderPerKey(capacity: int, events: seq<Event>)
    requires Admissible(Start(capacity), events)
    ensures var s := After(Start(capacity), events);
            && Bijection(s.cache)
            && forall r, q :: r in s.reqs && q in s.reqs && s.reqs[r].Running? && s.reqs[q].Running?
                              && s.reqs[r].key == s.reqs[q].key ==>
                 r == q
  {
    RunKeepsInv(Start(capacity), events);
  }

  /** Every value answered, from the cache or from a shared load, was returned by a successful loader run
      of that key. */
  lemma AnswersWereLoaded(capacity: int, events: seq<Event>, r: Request)
    requires Admissible(Start(capacity), events) && r in After(Start(capacity), events).reqs
    ensures var s := After(Start(capacity), events); var pc := s.reqs[r];
            pc.Answered? && pc.outcome.Loaded? ==> (pc.key, pc.outcome.value) in s.runs
  {
    RunKeepsInv(Start(capacity), events);
  }

  /** No waiter is forgotten: its load has ended, or some request is still to end it. */
  lemma NoLostWakeup(capacity: int, events: seq<Event>, r: Request)
    requires Admissible(Start(capacity), events)
    requires r in After(Start(capacity), events).reqs && After(Start(capacity), events).reqs[r].Waiting?
    ensures var s := After(Start(capacity), events);
            Enabled(s, Wake(r)) || exists q :: q in s.reqs && Owns(s.reqs[q], s.reqs[r].load)
  {
    RunKeepsInv(Start(capacity), events);
    assert InHand(After(Start(capacity), events), After(Start(capacity), events).reqs[r].load)
           || Enabled(After(Start(capacity), events), Wake(r));
  }

  /** A load's end stores nothing when it failed; otherwise its key is cached, unless there is no room at all, and the
      one key that had to leave was used before every key that stays. */
  lemma EndedLoad(capacity: int, events: seq<Event>, r: Request, outcome: Outcome)
    requires Admissible(Start(capacity), events) && Enabled(After(Start(capacity), events), Return(r, outcome))
    ensures var s := After(Start(capacity), events); var t := Next(s, Return(r, outcome)); var key := s.reqs[r].key;
            && key !in t.cache.pending
            && (outcome.Failed? ==> t.cache.items == s.cache.items && t.cache.order == s.cache.order)
            && (outcome.Loaded? && capacity > 0 ==> key in t.cache.items)
            && forall k, kept :: k in s.cache.items && k !in t.cache.items && kept in t.cache.items ==>
                 k in t.used && kept in t.used && t.used[k] < t.used[kept]
  {
    var s := After(Start(capacity), events);
    var e := Return(r, outcome);
    RunKeepsInv(Start(capacity), events);
    KeepsCapacity(Start(capacity), events);
    RunningIsPending(s, r);
    ReturnKeeps(s, e);
    ReturnStores(s, r, outcome);
    LeastRecentLeaves(s, Next(s, e), s.reqs[r].key, s.reqs[r].load, outcome);
  }

  lemma ReturnStores(s: State, r: Request, outcome: Outcome)
    requires Enabled(s, Return(r, outcome))
    ensures var t := Next(s, Return(r, outcome));
            && t.cache == Stored(s.cache, s.reqs[r].key, s.reqs[r].load, outcome)
            && t.used == (if outcome.Loaded? then s.used[s.reqs[r].key := s.clock + 1] else s.used)
            && s.reqs[r].key !in t.cache.pending
            && (outcome.Failed? ==> t.cache.items == s.cache.items && t.cache.order == s.cache.order)
  {
  }

  lemma {:induction false} KeepsCapacity(s: State, events: seq<Event>)
    requires Admissible(s, events)
    ensures After(s, events).cache.capacity == s.cache.capacity
    decreases |events|
  {
    if events != [] { KeepsCapacity(Next(s, events[0]), events[1..]); }
  }

  lemma LeastRecentLeaves(s: State, t: State, key: Key, load: LoadId, outcome: Outcome)
    requires Bijection(s.cache) && Bijection(t.cache) && RecencyInv(s)
    requires forall x :: x in s.cache.order ==> x.key != key
    requires t.cache == Stored(s.cache, key, load, outcome)
    requires t.used == if outcome.Loaded? then s.used[key := s.clock + 1] else s.used
    ensures outcome.Loaded? && s.cache.capacity > 0 ==> key in t.cache.items
    ensures forall k, kept :: k in s.cache.items && k !in t.cache.items && kept in t.cache.items ==>
              k in t.used && kept in t.used && t.used[k] < t.used[kept]
  {
    if outcome.Loaded? {
      LoadedLeaves(s.cache, t.cache, s.used, s.clock, Element(load, key, outcome.value));
    }
  }

  lemma LoadedLeaves(c: Cache, t: Cache, used: map<Key, nat>, clock: nat, first: Element)
    requires Bijection(c) && Bijection(t) && RecentFirst(c.order, used) && (forall k :: k in used ==> used[k] <= clock)
    requires t == Stored(c, first.key, first.id, Loaded(first.value)) && forall x :: x in c.order ==> x.key != first.key
    ensures c.capacity > 0 ==> first.key in t.items
    ensures var now := used[first.key := clock + 1];
            forall k, kept :: k in c.items && k !in t.items && kept in t.items ==>
                k in now && kept in now && now[k] < now[kept]
  {
    UsedNow(first, c.order, used, clock + 1);
    LastIsLeast(c, first, used[first.key := clock + 1], t);
  }

  lemma LastIsLeast(c: Cache, first: Element, used: map<Key, nat>, t: Cache)
    requires Bijection(c) && Bijection(t) && RecentFirst([first] + c.order, used)
    requires t == Stored(c, first.key, first.id, Loaded(first.value))
    ensures c.capacity > 0 ==> first.key in t.items
    ensures forall k, kept :: k in c.items && k !in t.items && kept in t.items ==>
        k in used && kept in used && used[k] < used[kept]
  {
    var order := [first] + c.order;
    var last := |order| - 1;
    assert c.capacity > 0 ==> order[0] == first;
    forall k, kept | k in c.items && k !in t.items && kept in t.items
      ensures k in used && kept in used && used[k] < used[kept] {
      assert k == order[last].key;
      KeptIsFiner(order, used, t, kept);
    }
  }

  /** A key that stays belongs to an element before the last. */
  lemma KeptIsFiner(order: seq<Element>, used: map<Key, nat>, t: Cache, kept: Key)
    requires RecentFirst(order, used) && order != [] && t.order == order[..|order| - 1]
    requires Linked(t.items, t.order) && kept in t.items
    ensures kept in used && order[|order| - 1].key in used && used[order[|order| - 1].key] < used[kept]
  {
    var x :| x in t.order && x.key == kept;
    var i :| 0 <= i < |t.order| && t.order[i] == x;
    assert order[i] == x && x in order && order[|order| - 1] in order;
  }
}
