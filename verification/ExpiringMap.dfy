/** A map whose entries expire, sped up by a heap with lazy deletion. It behaves as a plain timestamped map. */
module ExpiringMap {
  import opened Text
  import Heap

  type Id = nat

  datatype Entry<V> = Entry(value: V, at: int, stamp: nat)

  datatype Expiry = Expiry(id: Id, at: int, stamp: nat)

  predicate Sooner(a: Expiry, b: Expiry) {
    a.at < b.at
  }

  lemma SoonerIsWeakOrder()
    ensures Heap.WeakOrder(Sooner)
  {
  }

  // ----- the plain map it refines -----

  /** Values with the time they were put. */
  type Plain<V> = map<Id, (V, int)>

  predicate Expired(at: int, ttl: int, now: int) {
    at + ttl <= now
  }

  function Live<V>(m: Plain<V>, ttl: int, now: int): Plain<V> {
    map id | id in m && !Expired(m[id].1, ttl, now) :: m[id]
  }

  /** Some entry of minimal time. */
  predicate Oldest<V>(m: Plain<V>, id: Id) {
    id in m && forall other :: other in m ==> m[id].1 <= m[other].1
  }

  /** after is before with id put; a new id at capacity displaces an oldest entry. */
  ghost predicate PutInto<V(!new)>(before: Plain<V>, after: Plain<V>, id: Id, value: V, now: int, max: int) {
    if id !in before && |before| >= max && before != map[]
    then exists victim: Id :: Oldest(before, victim) && after == (before - {victim})[id := (value, now)]
    else after == before[id := (value, now)]
  }

  // ----- entries and the heap items that point at them -----

  function PlainOf<V>(entries: map<Id, Entry<V>>): Plain<V> {
    map id | id in entries :: (entries[id].value, entries[id].at)
  }

  /** Every entry has its item; an item with an entry's stamp carries the entry's time. */
  ghost predicate Linked<V>(entries: map<Id, Entry<V>>, items: multiset<Expiry>, stamp: nat) {
    && (forall id :: id in entries ==> Expiry(id, entries[id].at, entries[id].stamp) in items)
    && (forall x :: x in items ==>
          x.stamp <= stamp && (x.id in entries && entries[x.id].stamp == x.stamp ==> entries[x.id].at == x.at))
  }

  lemma PlainWithout<V>(entries: map<Id, Entry<V>>, id: Id)
    ensures PlainOf(entries - {id}) == PlainOf(entries) - {id}
  {
  }

  lemma PlainWith<V>(entries: map<Id, Entry<V>>, id: Id, e: Entry<V>)
    ensures PlainOf(entries[id := e]) == PlainOf(entries)[id := (e.value, e.at)]
  {
  }

  /** A put under a new stamp leaves the id's older items stale. */
  lemma LinkedPut<V>(entries: map<Id, Entry<V>>, items: multiset<Expiry>, stamp: nat, id: Id, value: V, now: int)
    requires Linked(entries, items, stamp)
    ensures Linked(entries[id := Entry(value, now, stamp + 1)], items + multiset{Expiry(id, now, stamp + 1)}, stamp + 1)
  {
  }

  /** Popping an item keeps the rest linked once the entry it belongs to, if any, is gone too. */
  lemma LinkedPop<V>(entries: map<Id, Entry<V>>, items: multiset<Expiry>, rest: multiset<Expiry>, stamp: nat, x: Expiry)
    requires Linked(entries, items, stamp) && items == rest + multiset{x}
    ensures var mine := x.id in entries && entries[x.id].stamp == x.stamp;
            Linked(if mine then entries - {x.id} else entries, rest, stamp) && (mine ==> entries[x.id].at == x.at)
  {
    assert x in items;
    assert forall y :: y in items ==> y == x || y in rest;
  }

  ghost predicate WellFormed<V>(entries: map<Id, Entry<V>>, expiry: seq<Expiry>, stamp: nat, max: int) {
    && Heap.IsHeap(expiry, Sooner) && Linked(entries, multiset(expiry), stamp)
    && (max > 0 ==> |entries| <= max && |expiry| <= 2 * max)
  }

  lemma DeleteKeeps<V>(entries: map<Id, Entry<V>>, expiry: seq<Expiry>, stamp: nat, max: int, id: Id)
    requires WellFormed(entries, expiry, stamp, max)
    ensures WellFormed(entries - {id}, expiry, stamp, max)
  {
    FewerEntries(entries, id);
  }

  lemma PopKeeps<V>(entries: map<Id, Entry<V>>, expiry: seq<Expiry>, rest: seq<Expiry>, stamp: nat, max: int)
    requires WellFormed(entries, expiry, stamp, max) && expiry != []
    requires Heap.IsHeap(rest, Sooner) && multiset(expiry) == multiset(rest) + multiset{expiry[0]} && |rest| < |expiry|
    ensures var x := expiry[0]; var mine := x.id in entries && entries[x.id].stamp == x.stamp;
            && WellFormed(if mine then entries - {x.id} else entries, rest, stamp, max)
            && (mine ==> entries[x.id].at == x.at)
  {
    LinkedPop(entries, multiset(expiry), multiset(rest), stamp, expiry[0]);
    FewerEntries(entries, expiry[0].id);
  }

  /** No entry is older than the root of the heap. */
  lemma EarliestIsLeast<V>(entries: map<Id, Entry<V>>, expiry: seq<Expiry>, stamp: nat)
    requires Heap.IsHeap(expiry, Sooner) && Linked(entries, multiset(expiry), stamp) && expiry != []
    ensures forall id :: id in entries ==> expiry[0].at <= entries[id].at
  {
    SoonerIsWeakOrder();
    forall id | id in entries ensures expiry[0].at <= entries[id].at {
      var x := Expiry(id, entries[id].at, entries[id].stamp);
      assert x in multiset(expiry);
      var k :| 0 <= k < |expiry| && expiry[k] == x;
      Heap.RootIsLeast(expiry, Sooner, k);
    }
  }

  lemma NoItemsNoEntries<V>(entries: map<Id, Entry<V>>, stamp: nat)
    requires Linked(entries, multiset{}, stamp)
    ensures entries == map[]
  {
    assert forall id :: id in entries ==> Expiry(id, entries[id].at, entries[id].stamp) in multiset{};
  }

  lemma SameSize<V>(entries: map<Id, Entry<V>>)
    ensures |PlainOf(entries)| == |entries|
  {
    assert PlainOf(entries).Keys == entries.Keys;
  }

  /** Evicting from a map that holds at most max entries makes room. */
  lemma RoomFor<V>(before: map<Id, Entry<V>>, after: map<Id, Entry<V>>, max: int)
    requires |before| <= max && max > 0
    requires if PlainOf(before) == map[] then PlainOf(after) == map[]
             else exists victim: Id :: Oldest(PlainOf(before), victim) && PlainOf(after) == PlainOf(before) - {victim}
    ensures |after| < max
  {
    SameSize(before);
    SameSize(after);
    if PlainOf(before) != map[] {
      var victim: Id :| Oldest(PlainOf(before), victim) && PlainOf(after) == PlainOf(before) - {victim};
      assert PlainOf(before).Keys == PlainOf(after).Keys + {victim};
    }
  }

  /** compact: a heap of the entries alone. */
  method Compacted<V>(entries: map<Id, Entry<V>>, ghost items: multiset<Expiry>, ghost stamp: nat)
    returns (expiry: seq<Expiry>)
    requires Linked(entries, items, stamp)
    ensures Heap.IsHeap(expiry, Sooner) && Linked(entries, multiset(expiry), stamp) && |expiry| == |entries|
  {
    SoonerIsWeakOrder();
    var list: seq<Expiry> := [];
    var todo := entries.Keys;
    while todo != {}
      invariant todo <= entries.Keys && |list| + |todo| == |entries|
      invariant forall x :: x in list <==>
        x.id in entries && x.id !in todo && x.at == entries[x.id].at && x.stamp == entries[x.id].stamp
      decreases |todo|
    {
      var id :| id in todo;
      list := list + [Expiry(id, entries[id].at, entries[id].stamp)];
      todo := todo - {id};
    }
    forall id | id in entries ensures entries[id].stamp <= stamp {
      assert Expiry(id, entries[id].at, entries[id].stamp) in items;
    }
    assert forall x :: x in list <==> x in multiset(list);
    expiry := Heap.Init(list, Sooner);
  }

  lemma {:induction false} FewerEntries<V>(before: map<Id, Entry<V>>, id: Id)
    ensures |before - {id}| <= |before|
  {
    assert before.Keys == (before - {id}).Keys + (before.Keys - (before - {id}).Keys);
  }

  /** The heap after an insertion: the new item pushed, and compacted when stale items outnumber the bound. */
  method Inserted<V>(entries: map<Id, Entry<V>>, expiry: seq<Expiry>, stamp: nat, max: int, id: Id, value: V, now: int)
    returns (heap: seq<Expiry>)
    requires WellFormed(entries, expiry, stamp, max) && (max > 0 ==> id in entries || |entries| < max)
    ensures WellFormed(entries[id := Entry(value, now, stamp + 1)], heap, stamp + 1, max)
  {
    SoonerIsWeakOrder();
    ghost var grown := entries[id := Entry(value, now, stamp + 1)];
    LinkedPut(entries, multiset(expiry), stamp, id, value, now);
    assert grown.Keys == entries.Keys + {id};
    heap := Heap.Push(expiry, Expiry(id, now, stamp + 1), Sooner);
    if |heap| > 2 * max {
      heap := Compacted(entries[id := Entry(value, now, stamp + 1)], multiset(heap), stamp + 1);
    }
  }

  /** What popping the root means for the plain map. */
  lemma RootFacts<V>(entries: map<Id, Entry<V>>, expiry: seq<Expiry>, stamp: nat, max: int)
    requires WellFormed(entries, expiry, stamp, max) && expiry != []
    ensures var x := expiry[0]; var plain := PlainOf(entries);
            && (x.id in entries && entries[x.id].stamp == x.stamp ==> (
                  && x.id in plain && plain[x.id].1 == x.at && PlainOf(entries - {x.id}) == plain - {x.id}))
            && forall id :: id in plain ==> x.at <= plain[id].1
  {
    EarliestIsLeast(entries, expiry, stamp);
    PlainWithout(entries, expiry[0].id);
    assert expiry[0] in multiset(expiry);
  }

  /** Only expired entries are missing. */
  predicate OnlyExpiredGone<V(==)>(was: Plain<V>, left: Plain<V>, ttl: int, now: int) {
    && (forall id :: id in left ==> id in was && left[id] == was[id])
    && (forall id :: id in was && id !in left ==> Expired(was[id].1, ttl, now))
  }

  lemma ExpiredGoes<V>(was: Plain<V>, left: Plain<V>, ttl: int, now: int, id: Id)
    requires OnlyExpiredGone(was, left, ttl, now)
    ensures id in left && Expired(left[id].1, ttl, now) ==> OnlyExpiredGone(was, left - {id}, ttl, now)
  {
  }

  /** An entry put at an instant is live for exactly the time to live from then on. */
  lemma LivesItsTime<V(!new)>(before: Plain<V>, after: Plain<V>, id: Id, value: V, put: int, max: int, ttl: int,
                              now: int)
    requires PutInto(before, after, id, value, put, max)
    ensures id in Live(after, ttl, now) <==> now < put + ttl
    ensures id in Live(after, ttl, now) ==> Live(after, ttl, now)[id].0 == value
  {
  }

  /** With no expired root no entry is expired. */
  lemma NothingExpired<V>(entries: map<Id, Entry<V>>, expiry: seq<Expiry>, stamp: nat, ttl: int, now: int)
    requires Heap.IsHeap(expiry, Sooner) && Linked(entries, multiset(expiry), stamp)
    requires expiry != [] ==> !Expired(expiry[0].at, ttl, now)
    ensures forall id :: id in PlainOf(entries) ==> !Expired(PlainOf(entries)[id].1, ttl, now)
  {
    if expiry == [] { NoItemsNoEntries(entries, stamp); } else { EarliestIsLeast(entries, expiry, stamp); }
  }

  lemma PrunedIsLive<V>(was: Plain<V>, left: Plain<V>, ttl: int, now: int)
    requires OnlyExpiredGone(was, left, ttl, now) && forall id :: id in left ==> !Expired(left[id].1, ttl, now)
    ensures left == Live(was, ttl, now)
  {
  }

  class ExpiringMap<V(0,!new)> {
    var entries: map<Id, Entry<V>>
    const ttl: int
    const max: int
    const zero: V
    var stamp: nat
    var expiry: seq<Expiry>

    constructor (ttl: int, max: int, zero: V)
      ensures Valid() && Contents() == map[]
      ensures this.ttl == ttl && this.max == max && this.zero == zero
    {
      this.ttl, this.max, this.zero := ttl, max, zero;
      entries, stamp, expiry := map[], 0, [];
    }

    function Contents(): Plain<V>
      reads this
    {
      PlainOf(entries)
    }

    ghost predicate Valid() reads this {
      WellFormed(entries, expiry, stamp, max)
    }

    /** Takes the root off the heap, and with it the entry the root belongs to, if that entry still does. */
    method PopRoot() returns (item: Expiry, removed: bool)
      requires Valid() && expiry != []
      modifies this`entries, this`expiry
      ensures Valid() && |expiry| == |old(expiry)| - 1 && item == old(expiry[0])
      ensures removed ==> item.id in old(Contents()) && old(Contents())[item.id].1 == item.at
      ensures removed ==> forall id :: id in old(Contents()) ==> item.at <= old(Contents())[id].1
      ensures Contents() == if removed then old(Contents()) - {item.id} else old(Contents())
    {
      SoonerIsWeakOrder();
      RootFacts(entries, expiry, stamp, max);
      var root, rest := Heap.Pop(expiry, Sooner);
      PopKeeps(entries, expiry, rest, stamp, max);
      item, removed := root, root.id in entries && entries[root.id].stamp == root.stamp;
      expiry := rest;
      if removed {
        entries := entries - {item.id};
      }
    }

    /** prune removes exactly the expired entries. */
    method Prune(now: int)
      requires Valid()
      modifies this`entries, this`expiry
      ensures Valid() && Contents() == Live(old(Contents()), ttl, now)
    {
      ghost var was := Contents();
      while expiry != [] && Expired(expiry[0].at, ttl, now)
        invariant Valid() && OnlyExpiredGone(was, Contents(), ttl, now)
        decreases |expiry|
      {
        ghost var before := Contents();
        var item, removed := PopRoot();
        ExpiredGoes(was, before, ttl, now, item.id);
      }
      NothingExpired(entries, expiry, stamp, ttl, now);
      PrunedIsLive(was, Contents(), ttl, now);
    }

    /** evictOldest removes an entry of minimal time, if there is one. */
    method EvictOldest()
      requires Valid()
      modifies this`entries, this`expiry
      ensures Valid()
      ensures if old(Contents()) == map[] then Contents() == map[]
              else exists victim: Id :: Oldest(old(Contents()), victim) && Contents() == old(Contents()) - {victim}
    {
      while expiry != []
        invariant Valid() && Contents() == old(Contents())
        decreases |expiry|
      {
        var item, removed := PopRoot();
        if removed {
          assert Oldest(old(Contents()), item.id);
          return;
        }
      }
      NoItemsNoEntries(entries, stamp);
    }

    method PutLocked(id: Id, value: V, now: int)
      requires Valid()
      modifies this
      ensures Valid() && PutInto(old(Contents()), Contents(), id, value, now, max)
    {
      SameSize(entries);
      if id !in entries && |entries| >= max {
        EvictOldest();
        if max > 0 { RoomFor(old(entries), entries, max); }
      }
      Insert(id, value, now);
    }

    method Insert(id: Id, value: V, now: int)
      requires Valid() && (max > 0 ==> id in entries || |entries| < max)
      modifies this
      ensures Valid() && Contents() == old(Contents())[id := (value, now)]
    {
      var e := Entry(value, now, stamp + 1);
      PlainWith(entries, id, e);
      var heap := Inserted(entries, expiry, stamp, max, id, value, now);
      stamp, entries, expiry := stamp + 1, entries[id := e], heap;
    }

    method Put(id: Id, value: V, now: int)
      requires Valid()
      modifies this
      ensures Valid() && PutInto(Live(old(Contents()), ttl, now), Contents(), id, value, now, max)
    {
      Prune(now);
      PutLocked(id, value, now);
    }

    /** Allow: check and insert in one critical section. */
    method Allow(id: Id, now: int) returns (granted: bool)
      requires Valid()
      modifies this
      ensures Valid() && (granted <==> id !in Live(old(Contents()), ttl, now))
      ensures !granted ==> Contents() == Live(old(Contents()), ttl, now)
      ensures granted ==> PutInto(Live(old(Contents()), ttl, now), Contents(), id, zero, now, max)
    {
      Prune(now);
      if id in entries {
        return false;
      }
      PutLocked(id, zero, now);
      granted := true;
    }

    method TakeIf(id: Id, now: int, accept: V -> bool) returns (value: Option<V>)
      requires Valid()
      modifies this
      ensures Valid()
      ensures var live := Live(old(Contents()), ttl, now);
        if id in live && accept(live[id].0) then value == Some(live[id].0) && Contents() == live - {id}
        else value == None && Contents() == live
    {
      Prune(now);
      if id !in entries || !accept(entries[id].value) {
        return None;
      }
      value := Some(entries[id].value);
      Remove(id);
    }

    method Take(id: Id, now: int) returns (value: Option<V>)
      requires Valid()
      modifies this
      ensures Valid()
      ensures var live := Live(old(Contents()), ttl, now);
        value == (if id in live then Some(live[id].0) else None) && Contents() == live - {id}
    {
      value := TakeIf(id, now, (v: V) => true);
      assert id !in Live(old(Contents()), ttl, now) ==>
        Live(old(Contents()), ttl, now) - {id} == Live(old(Contents()), ttl, now);
    }

    /** Deletes an entry and leaves its item behind in the heap. */
    method Remove(id: Id)
      requires Valid() && id in entries
      modifies this`entries
      ensures Valid() && Contents() == old(Contents()) - {id}
    {
      PlainWithout(entries, id);
      DeleteKeeps(entries, expiry, stamp, max, id);
      entries := entries - {id};
    }

    method Drain(now: int, accept: (Id, V) -> bool) returns (drained: seq<Id>)
      requires Valid()
      modifies this
      ensures Valid()
      ensures Drains(Live(old(Contents()), ttl, now), Contents(), drained, accept, {})
    {
      Prune(now);
      ghost var live := Contents();
      drained := [];
      var todo := entries.Keys;
      assert Drains(live, Contents(), drained, accept, todo);
      while todo != {}
        invariant Valid() && todo <= entries.Keys && Drains(live, Contents(), drained, accept, todo)
        decreases todo
      {
        var id :| id in todo;
        DrainStep(live, Contents(), drained, accept, todo, id);
        todo := todo - {id};
        if accept(id, entries[id].value) {
          drained := drained + [id];
          Remove(id);
        }
      }
    }
  }

  lemma DrainStep<V(!new)>(live: Plain<V>, left: Plain<V>, drained: seq<Id>, accept: (Id, V) -> bool, todo: set<Id>,
                           id: Id)
    requires Drains(live, left, drained, accept, todo) && id in todo && id in left
    ensures if accept(id, left[id].0) then Drains(live, left - {id}, drained + [id], accept, todo - {id})
            else Drains(live, left, drained, accept, todo - {id})
  {
    assert id !in drained;
  }

  /** The accepted entries outside todo were taken out, each once. */
  ghost predicate Drains<V(!new)>(live: Plain<V>, left: Plain<V>, drained: seq<Id>, accept: (Id, V) -> bool,
                                  todo: set<Id>) {
    && (forall id :: id in drained <==> id in live && id !in todo && accept(id, live[id].0))
    && (forall i, j :: 0 <= i < j < |drained| ==> drained[i] != drained[j])
    && (forall id :: id in left <==> id in live && id !in drained)
    && (forall id :: id in left ==> left[id] == live[id])
  }
}
