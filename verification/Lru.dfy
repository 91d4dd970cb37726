/** The coalescing cache: one map and one recency list, with concurrent misses of a key sharing one loader run. */
module Lru {
  import opened Text

  type Key = string
  type Value(==, !new)
  type LoadId = nat

  /** A list element; id is its identity, which the map points at. */
  datatype Element = Element(id: nat, key: Key, value: Value)

  /** order has the most recently used first; pending names the load in flight for a key. */
  datatype Cache = Cache(capacity: int, items: map<Key, nat>, order: seq<Element>, pending: map<Key, LoadId>)

  datatype Outcome = Loaded(value: Value) | Failed(cancelled: bool)

  datatype Found = Hit(value: Value) | Wait(load: LoadId) | Run

  // ----- the recency list -----

  function ElementOf(order: seq<Element>, id: nat): Option<Element> {
    if order == [] then None else if order[0].id == id then Some(order[0]) else ElementOf(order[1..], id)
  }

  function Without(order: seq<Element>, id: nat): seq<Element> {
    if order == [] then []
    else if order[0].id == id then order[1..]
    else [order[0]] + Without(order[1..], id)
  }

  predicate Distinct(order: seq<Element>) {
    forall i, j :: 0 <= i < j < |order| ==> order[i].id != order[j].id && order[i].key != order[j].key
  }

  lemma DistinctTail(order: seq<Element>)
    requires Distinct(order) && order != []
    ensures Distinct(order[1..]) && forall e :: e in order[1..] ==> e.id != order[0].id && e.key != order[0].key
  {
  }

  lemma DistinctCons(e: Element, order: seq<Element>)
    requires Distinct(order) && forall x :: x in order ==> x.id != e.id && x.key != e.key
    ensures Distinct([e] + order)
  {
    var all := [e] + order;
    forall i, j | 0 <= i < j < |all| ensures all[i].id != all[j].id && all[i].key != all[j].key {
      assert all[j] == order[j - 1] && all[j] in order;
      if i > 0 { assert all[i] == order[i - 1]; }
    }
  }

  lemma {:induction false} Unlinked(order: seq<Element>, e: Element)
    requires Distinct(order) && e in order
    ensures ElementOf(order, e.id) == Some(e)
    ensures var w := Without(order, e.id);
            Distinct(w) && |w| == |order| - 1 && forall x :: x in w <==> x in order && x != e
    ensures forall x :: x in Without(order, e.id) ==> x.id != e.id && x.key != e.key
  {
    var first, rest := order[0], order[1..];
    DistinctTail(order);
    assert order == [first] + rest;
    if first.id == e.id {
      assert first == e;
    } else {
      Unlinked(rest, e);
      DistinctCons(first, Without(rest, e.id));
    }
  }

  // ----- the two critical sections -----

  function Room(capacity: int): nat {
    if capacity > 0 then capacity else 0
  }

  /** The map and the list are in bijection, within capacity, and no key is both cached and pending. */
  ghost predicate Bijection(c: Cache) {
    && |c.order| <= Room(c.capacity) && Distinct(c.order) && Linked(c.items, c.order)
    && c.items.Keys !! c.pending.Keys
  }

  ghost predicate Linked(items: map<Key, nat>, order: seq<Element>) {
    && (forall e :: e in order ==> e.key in items && items[e.key] == e.id)
    && (forall k :: k in items ==> exists e :: e in order && e.key == k)
  }

  /** The first critical section: a hit moves to the front; a miss joins or becomes the key's load. */
  function Looked(c: Cache, key: Key, load: LoadId): (Cache, Found) {
    if key in c.items && ElementOf(c.order, c.items[key]).Some? then
      var e := ElementOf(c.order, c.items[key]).value;
      (c.(order := [e] + Without(c.order, e.id)), Hit(e.value))
    else if key in c.pending then (c, Wait(c.pending[key]))
    else (c.(pending := c.pending[key := load]), Run)
  }

  /** The second critical section: the load is no longer pending; a value goes to the front, and the back makes room. */
  function Stored(c: Cache, key: Key, id: nat, outcome: Outcome): Cache {
    var left := c.(pending := c.pending - {key});
    if outcome.Failed? then left
    else
      var order := [Element(id, key, outcome.value)] + c.order;
      if |order| <= c.capacity then left.(items := c.items[key := id], order := order)
      else left.(items := c.items[key := id] - {order[|order| - 1].key}, order := order[..|order| - 1])
  }

  class Store {
    var items: map<Key, nat>
    var order: seq<Element>
    var pending: map<Key, LoadId>
    const capacity: int

    function Contents(): Cache
      reads this
    {
      Cache(capacity, items, order, pending)
    }

    constructor (capacity: int)
      ensures Contents() == Cache(capacity, map[], [], map[]) && Bijection(Contents())
    {
      items, order, pending := map[], [], map[];
      this.capacity := capacity;
    }

    method Look(key: Key, load: LoadId) returns (f: Found)
      requires Bijection(Contents())
      modifies this
      ensures (Contents(), f) == Looked(old(Contents()), key, load) && Bijection(Contents())
      ensures f.Hit? <==> key in old(items)
    {
      LookedKeeps(Contents(), key, load);
      if key in items {
        var e := ElementOf(order, items[key]).value;
        order := [e] + Without(order, e.id);
        f := Hit(e.value);
      } else if key in pending {
        f := Wait(pending[key]);
      } else {
        pending := pending[key := load];
        f := Run;
      }
    }

    method Finish(key: Key, id: nat, outcome: Outcome)
      requires Bijection(Contents()) && key !in items && forall e :: e in order ==> e.id != id
      modifies this
      ensures Contents() == Stored(old(Contents()), key, id, outcome) && Bijection(Contents())
    {
      StoredKeeps(Contents(), key, id, outcome);
      pending := pending - {key};
      if outcome.Loaded? {
        order := [Element(id, key, outcome.value)] + order;
        items := items[key := id];
        if |order| > capacity {
          var oldest := order[|order| - 1];
          items := items - {oldest.key};
          order := order[..|order| - 1];
        }
      }
    }
  }

  lemma LookedKeeps(c: Cache, key: Key, load: LoadId)
    requires Bijection(c)
    ensures Bijection(Looked(c, key, load).0)
    ensures key in c.items ==>
              ElementOf(c.order, c.items[key]).Some? && ElementOf(c.order, c.items[key]).value in c.order
                               && ElementOf(c.order, c.items[key]).value.key == key
  {
    if key in c.items {
      var e :| e in c.order && e.key == key;
      Unlinked(c.order, e);
      var w := Without(c.order, e.id);
      DistinctCons(e, w);
      assert forall x :: x in [e] + w <==> x in c.order;
    }
  }

  lemma StoredKeeps(c: Cache, key: Key, id: nat, outcome: Outcome)
    requires Bijection(c) && key !in c.items && forall e :: e in c.order ==> e.id != id
    ensures Bijection(Stored(c, key, id, outcome))
  {
    if outcome.Loaded? {
      var first := Element(id, key, outcome.value);
      var order := [first] + c.order;
      DistinctCons(first, c.order);
      LinkedCons(c.items, c.order, first);
      if |order| > c.capacity { LinkedDrop(c.items[key := id], order); }
    }
  }

  lemma LinkedCons(items: map<Key, nat>, order: seq<Element>, e: Element)
    requires Linked(items, order) && e.key !in items
    ensures Linked(items[e.key := e.id], [e] + order)
  {
    assert forall x :: x in [e] + order <==> x == e || x in order;
  }

  lemma FrontMembers(order: seq<Element>)
    requires Distinct(order) && order != []
    ensures Distinct(order[..|order| - 1])
    ensures forall x :: x in order[..|order| - 1] <==> x in order && x.key != order[|order| - 1].key
  {
    var last, front := order[|order| - 1], order[..|order| - 1];
    assert order == front + [last];
    forall x | x in front ensures x.key != last.key {
      var i :| 0 <= i < |front| && front[i] == x;
      assert order[i] == x;
    }
  }

  lemma LinkedDrop(items: map<Key, nat>, order: seq<Element>)
    requires Linked(items, order) && Distinct(order) && order != []
    ensures Linked(items - {order[|order| - 1].key}, order[..|order| - 1]) && Distinct(order[..|order| - 1])
  {
    FrontMembers(order);
    LinkedPart(items, order, order[..|order| - 1], order[|order| - 1].key);
  }

  lemma LinkedPart(items: map<Key, nat>, order: seq<Element>, part: seq<Element>, gone: Key)
    requires Linked(items, order) && forall x :: x in part <==> x in order && x.key != gone
    ensures Linked(items - {gone}, part)
  {
    forall k | k in items - {gone} ensures exists e :: e in part && e.key == k {
      var e :| e in order && e.key == k;
      assert e in part;
    }
  }
}
