/** Which rows make room for a newcomer: a batch of the first rows of the lowest class below it. */
module Eviction {
  import opened Nodes
  import opened Heap
  import opened TopK
  import opened Collections

  predicate Keyed(m: map<Id, Node>) {
    forall id :: id in m ==> m[id].id == id
  }

  /** The rows of the lowest-priority class, when that is strictly below the newcomer's. */
  function Evictable(m: map<Id, Node>, newcomer: int): set<Id> {
    set id | id in m && CapacityClass(m[id]) > newcomer
             && forall j :: j in m ==> CapacityClass(m[j]) <= CapacityClass(m[id])
  }

  function Earlier(m: map<Id, Node>, among: set<Id>, id: Id): set<Id>
    requires id in m && among <= m.Keys
  {
    set j | j in among && EvictBefore(m[j], m[id])
  }

  /** The first batch evictable rows in the eviction order. */
  function Victims(m: map<Id, Node>, newcomer: int, batch: nat): set<Id> {
    var e := Evictable(m, newcomer);
    set id | id in e && |Earlier(m, e, id)| < batch
  }

  function Batch(max: nat): nat {
    if max / 1000 > 64 then max / 1000 else 64
  }

  function Order(): (Node, Node) -> bool {
    (a, b) => EvictBefore(a, b)
  }

  lemma OrderIsWeak()
    ensures WeakOrder(Order())
  {
  }

  function RowsOf(m: map<Id, Node>, ids: set<Id>): set<Node>
    requires ids <= m.Keys
  {
    set id | id in ids :: m[id]
  }

  function IdsOf(rows: seq<Node>): set<Id> {
    set i | 0 <= i < |rows| :: rows[i].id
  }

  /** The seen rows of class c. */
  function OfClass(m: map<Id, Node>, seen: set<Id>, c: int): set<Id>
    requires seen <= m.Keys
  {
    set id | id in seen && CapacityClass(m[id]) == c
  }

  /** The rows to evict for a newcomer of a class. */
  method ChooseVictims(m: map<Id, Node>, newcomer: int, batch: nat) returns (victims: seq<Node>, worst: int)
    requires Keyed(m) && 0 <= newcomer && batch > 0
    ensures IdsOf(victims) == Victims(m, newcomer, batch)
    ensures |victims| == |IdsOf(victims)| && (forall v :: v in victims ==> v.id in m && m[v.id] == v)
    ensures forall v :: v in victims ==> CapacityClass(v) == worst && worst > newcomer && !v.fp.done && !v.pinned
  {
    OrderIsWeak();
    ghost var dropped;
    victims, worst, dropped := Scan(m, newcomer, batch, Order());
    ScanEnds(m, newcomer, worst);
    if worst > newcomer {
      KeptAreVictims(m, newcomer, worst, victims, dropped, batch);
    } else {
      NoneKept(m, newcomer, victims, dropped, batch);
    }
  }

  /** One pass over the map, in any order, keeping the first rows of the lowest class met so far. */
  method Scan(m: map<Id, Node>, newcomer: int, batch: nat, order: (Node, Node) -> bool)
    returns (victims: seq<Node>, worst: int, ghost dropped: multiset<Node>)
    requires Keyed(m) && newcomer >= 0 && WeakOrder(order)
    ensures Progress(m, m.Keys, newcomer, worst, multiset(victims) + dropped)
    ensures |victims| <= batch && (dropped != multiset{} ==> |victims| == batch)
    ensures forall x, y :: x in dropped && y in victims ==> !order(x, y)
  {
    worst := newcomer;
    var kept := new Best(batch, order);
    var todo := m.Keys;
    while todo != {}
      invariant todo <= m.Keys && kept.Valid() && fresh(kept) && kept.limit == batch && kept.better == order
      invariant Progress(m, m.Keys - todo, newcomer, worst, kept.Offered())
      decreases todo
    {
      var id :| id in todo;
      worst := Consider(m, m.Keys - todo, id, newcomer, worst, kept);
      SeenNext(m.Keys, todo, id);
      todo := todo - {id};
    }
    assert m.Keys - todo == m.Keys;
    victims, dropped := kept.items, kept.dropped;
  }

  lemma SeenNext(all: set<Id>, todo: set<Id>, id: Id)
    requires todo <= all && id in todo
    ensures all - (todo - {id}) == all - todo + {id} && id !in all - todo
  {
  }

  method Consider(m: map<Id, Node>, ghost seen: set<Id>, id: Id, newcomer: int, worst: int, kept: Best<Node>)
    returns (w: int)
    requires Keyed(m) && seen <= m.Keys && id in m && id !in seen && newcomer >= 0
    requires kept.Valid() && Progress(m, seen, newcomer, worst, kept.Offered())
    modifies kept
    ensures kept.Valid() && Progress(m, seen + {id}, newcomer, w, kept.Offered())
  {
    w := worst;
    var n := m[id];
    var c := CapacityClass(n);
    if c <= newcomer || c < worst || n.pinned {
      Skipped(m, seen, id, newcomer, worst);
      return;
    }
    if c > worst {
      w := c;
      kept.Reset();
      NothingYet(m, seen, newcomer, w);
    }
    OneMore(m, seen, id, w);
    kept.Offer(n);
  }

  /** What has been offered is the seen rows of the lowest class met, if that is below the newcomer. */
  ghost predicate Progress(m: map<Id, Node>, seen: set<Id>, newcomer: int, worst: int, offered: multiset<Node>)
    requires seen <= m.Keys
  {
    Scanned(m, seen, newcomer, worst)
    && offered == multiset(RowsOf(m, if worst > newcomer then OfClass(m, seen, worst) else {}))
  }

  predicate Scanned(m: map<Id, Node>, seen: set<Id>, newcomer: int, worst: int)
    requires seen <= m.Keys
  {
    && worst >= newcomer
    && (forall id :: id in seen ==> CapacityClass(m[id]) <= worst)
    && (worst > newcomer ==> exists id :: id in seen && CapacityClass(m[id]) == worst)
  }

  lemma Skipped(m: map<Id, Node>, seen: set<Id>, id: Id, newcomer: int, worst: int)
    requires seen <= m.Keys && id in m && Scanned(m, seen, newcomer, worst) && newcomer >= 0
    requires var c := CapacityClass(m[id]); c <= newcomer || c < worst || m[id].pinned
    ensures Scanned(m, seen + {id}, newcomer, worst)
    ensures worst > newcomer ==> OfClass(m, seen + {id}, worst) == OfClass(m, seen, worst)
  {
    if worst > newcomer {
      var w :| w in seen && CapacityClass(m[w]) == worst;
      assert w in seen + {id};
    }
  }

  lemma NothingYet(m: map<Id, Node>, seen: set<Id>, newcomer: int, worst: int)
    requires seen <= m.Keys && forall id :: id in seen ==> CapacityClass(m[id]) < worst
    ensures OfClass(m, seen, worst) == {} && RowsOf(m, OfClass(m, seen, worst)) == {}
  {
  }

  lemma OneMore(m: map<Id, Node>, seen: set<Id>, id: Id, worst: int)
    requires Keyed(m) && seen <= m.Keys && id in m && id !in seen && CapacityClass(m[id]) == worst
    ensures multiset(RowsOf(m, OfClass(m, seen + {id}, worst)))
            == multiset(RowsOf(m, OfClass(m, seen, worst))) + multiset{m[id]}
  {
    var before := RowsOf(m, OfClass(m, seen, worst));
    assert OfClass(m, seen + {id}, worst) == OfClass(m, seen, worst) + {id};
    assert RowsOf(m, OfClass(m, seen + {id}, worst)) == before + {m[id]};
    assert m[id] !in before;
  }

  lemma ScanEnds(m: map<Id, Node>, newcomer: int, worst: int)
    requires Scanned(m, m.Keys, newcomer, worst)
    ensures Evictable(m, newcomer) == if worst > newcomer then OfClass(m, m.Keys, worst) else {}
  {
    if worst > newcomer {
      var w :| w in m.Keys && CapacityClass(m[w]) == worst;
    }
  }

  lemma NoneKept(m: map<Id, Node>, newcomer: int, victims: seq<Node>, dropped: multiset<Node>, batch: nat)
    requires multiset(victims) + dropped == multiset(RowsOf(m, {})) && Evictable(m, newcomer) == {}
    ensures victims == [] && Victims(m, newcomer, batch) == {}
  {
    assert RowsOf(m, {}) == {};
    assert multiset(victims) + dropped == multiset{};
    assert forall v :: v in victims ==> v in multiset(victims) + dropped;
    EmptyOrMember(victims);
  }

  /** Distinct ids among the kept rows, which are rows of the map. */
  lemma KeptRows(m: map<Id, Node>, e: set<Id>, victims: seq<Node>, dropped: multiset<Node>)
    requires Keyed(m) && e <= m.Keys && multiset(victims) + dropped == multiset(RowsOf(m, e))
    ensures forall v :: v in victims ==> v.id in e && m[v.id] == v
    ensures |IdsOf(victims)| == |victims| && IdsOf(victims) <= e
    ensures forall id :: id in e && id !in IdsOf(victims) ==> m[id] in dropped
  {
    var rows := RowsOf(m, e);
    forall v | v in victims ensures v.id in e && m[v.id] == v {
      assert v in multiset(victims) && v in multiset(rows);
    }
    forall i, j | 0 <= i < j < |victims| ensures victims[i].id != victims[j].id {
      Twice(victims, i, j);
      assert victims[i] in victims && victims[j] in victims;
      assert multiset(victims)[victims[i]] <= multiset(rows)[victims[i]] <= 1;
    }
    DistinctIds(victims);
    forall id | id in e && id !in IdsOf(victims) ensures m[id] in dropped {
      assert m[id] in multiset(rows);
      assert m[id] !in victims;
    }
  }

  lemma {:induction false} DistinctIds(rows: seq<Node>)
    requires forall i, j :: 0 <= i < j < |rows| ==> rows[i].id != rows[j].id
    ensures |IdsOf(rows)| == |rows|
  {
    if rows != [] {
      var front, last := rows[..|rows| - 1], rows[|rows| - 1];
      DistinctIds(front);
      assert IdsOf(rows) == IdsOf(front) + {last.id};
    } else {
      assert IdsOf(rows) == {};
    }
  }

  /** The kept rows are the ones with fewer than a batch of evictable rows before them. */
  lemma KeptAreVictims(m: map<Id, Node>, newcomer: int, worst: int, victims: seq<Node>, dropped: multiset<Node>,
                       batch: nat)
    requires Keyed(m) && Evictable(m, newcomer) == OfClass(m, m.Keys, worst) && worst > newcomer >= 0
    requires multiset(victims) + dropped == multiset(RowsOf(m, Evictable(m, newcomer)))
    requires |victims| <= batch && (dropped != multiset{} ==> |victims| == batch)
    requires forall x, y :: x in dropped && y in victims ==> !EvictBefore(x, y)
    ensures IdsOf(victims) == Victims(m, newcomer, batch)
    ensures |victims| == |IdsOf(victims)| && forall v :: v in victims ==> v.id in m && m[v.id] == v
    ensures forall v :: v in victims ==> CapacityClass(v) == worst && !v.fp.done && !v.pinned
  {
    var e := Evictable(m, newcomer);
    KeptRows(m, e, victims, dropped);
    forall id | id in e ensures id in IdsOf(victims) <==> |Earlier(m, e, id)| < batch {
      if id in IdsOf(victims) {
        KeptIsEarly(m, e, victims, dropped, batch, id);
      } else {
        DroppedIsLate(m, e, victims, dropped, batch, id);
      }
    }
  }

  lemma KeptIsEarly(m: map<Id, Node>, e: set<Id>, victims: seq<Node>, dropped: multiset<Node>, batch: nat, id: Id)
    requires e <= m.Keys && |IdsOf(victims)| == |victims| <= batch && id in e && id in IdsOf(victims)
    requires forall v :: v in victims ==> v.id in e && m[v.id] == v
    requires forall j :: j in e && j !in IdsOf(victims) ==> m[j] in dropped
    requires forall x, y :: x in dropped && y in victims ==> !EvictBefore(x, y)
    ensures |Earlier(m, e, id)| < batch
  {
    assert m[id] in victims;
    assert Earlier(m, e, id) <= IdsOf(victims) - {id};
    Subset(Earlier(m, e, id), IdsOf(victims) - {id});
  }

  lemma DroppedIsLate(m: map<Id, Node>, e: set<Id>, victims: seq<Node>, dropped: multiset<Node>, batch: nat, id: Id)
    requires Keyed(m) && e <= m.Keys && |IdsOf(victims)| == |victims| && id in e && id !in IdsOf(victims)
    requires forall v :: v in victims ==> v.id in e && m[v.id] == v
    requires m[id] in dropped && |victims| == batch
    requires forall x, y :: x in dropped && y in victims ==> !EvictBefore(x, y)
    ensures |Earlier(m, e, id)| >= batch
  {
    forall j | j in IdsOf(victims) ensures j in Earlier(m, e, id) {
      var i :| 0 <= i < |victims| && victims[i].id == j;
      assert victims[i] in victims;
      EvictBeforeTotal(m[j], m[id]);
    }
    Subset(IdsOf(victims), Earlier(m, e, id));
  }

  // ----- what eviction means -----

  /** Victims are all of one class, strictly below the newcomer and below no other row's, never verified or pinned,
      and come before every row of their class that stays; there is one whenever any row is below the newcomer. */
  lemma VictimsComeFirst(m: map<Id, Node>, newcomer: int, batch: nat, id: Id)
    requires Keyed(m) && newcomer >= 0 && batch > 0 && id in Victims(m, newcomer, batch)
    ensures id in m && !m[id].fp.done && !m[id].pinned && CapacityClass(m[id]) > newcomer
    ensures forall j :: j in m ==> CapacityClass(m[j]) <= CapacityClass(m[id])
    ensures forall j :: j in m && j !in Victims(m, newcomer, batch) && CapacityClass(m[j]) == CapacityClass(m[id]) ==>
        EvictBefore(m[id], m[j])
  {
    var e := Evictable(m, newcomer);
    forall j | j in m && j !in Victims(m, newcomer, batch) && CapacityClass(m[j]) == CapacityClass(m[id])
      ensures EvictBefore(m[id], m[j]) {
      assert j in e;
      EvictBeforeTotal(m[id], m[j]);
      if EvictBefore(m[j], m[id]) {
        forall x | x in Earlier(m, e, j) ensures x in Earlier(m, e, id) {
          assert EvictBefore(m[x], m[j]) && EvictBefore(m[j], m[id]);
        }
        Subset(Earlier(m, e, j), Earlier(m, e, id));
        assert false;
      }
    }
  }

  /** A batch is freed, or the whole class when it is smaller. */
  lemma VictimCount(m: map<Id, Node>, newcomer: int, batch: nat)
    requires Keyed(m) && newcomer >= 0 && batch > 0
    ensures var e := Evictable(m, newcomer);
            |Victims(m, newcomer, batch)| == if |e| < batch then |e| else batch
  {
    FirstOf(m, Evictable(m, newcomer), batch);
  }

  lemma {:induction false} FirstOf(m: map<Id, Node>, e: set<Id>, batch: nat)
    requires Keyed(m) && e <= m.Keys
    ensures |set id | id in e && |Earlier(m, e, id)| < batch| == if |e| < batch then |e| else batch
    decreases |e|
  {
    var first := set id | id in e && |Earlier(m, e, id)| < batch;
    if e == {} {
      assert first == {};
    } else {
      var last := Last(m, e);
      var rest := e - {last};
      FirstOf(m, rest, batch);
      assert Earlier(m, e, last) == rest;
      forall id | id in rest ensures Earlier(m, e, id) == Earlier(m, rest, id) {
        EvictBeforeTotal(m[last], m[id]);
      }
      var inner := set id | id in rest && |Earlier(m, rest, id)| < batch;
      assert first == if |rest| < batch then inner + {last} else inner;
    }
  }

  /** The last row in the eviction order. */
  lemma {:induction false} Last(m: map<Id, Node>, e: set<Id>) returns (last: Id)
    requires Keyed(m) && e <= m.Keys && e != {}
    ensures last in e && forall id :: id in e && id != last ==> EvictBefore(m[id], m[last])
    decreases |e|
  {
    var some :| some in e;
    var rest := e - {some};
    if rest == {} {
      last := some;
      assert e == {some};
    } else {
      last := Last(m, rest);
      EvictBeforeTotal(m[some], m[last]);
      if EvictBefore(m[last], m[some]) {
        forall id | id in e && id != some ensures EvictBefore(m[id], m[some]) {
          assert id == last || EvictBefore(m[id], m[last]);
        }
        last := some;
      }
    }
  }

  // ----- in the rows' own fields -----

  /** Verified and pinned rows never give way. */
  predicate Guarded(n: Node) {
    n.fp.done || n.pinned
  }

  /** A row gives way to a strictly better placed one: one whose score ran out to any other, and an unclassified one to
      a classified one. */
  predicate GivesWay(n: Node, o: Node) {
    !Guarded(n) && (Guarded(o) || (o.score > 0 && (n.score <= 0 || (n.network == "" && o.network != ""))))
  }

  lemma ClassIsRank(n: Node, o: Node)
    ensures CapacityClass(n) > CapacityClass(o) <==> GivesWay(n, o)
  {
  }

  /** A victim gives way to the newcomer, no row of the set gives way to a victim, and of the rows that stay and do not
      give way either, the victim has the lowest score; at equal scores it was resolved earliest, then seen earliest,
      then has the smallest id. */
  lemma VictimsInFields(m: map<Id, Node>, newcomer: Node, batch: nat, id: Id)
    requires Keyed(m) && batch > 0 && id in Victims(m, CapacityClass(newcomer), batch)
    ensures id in m && GivesWay(m[id], newcomer) && !m[id].fp.done && !m[id].pinned
    ensures forall j :: j in m ==> !GivesWay(m[j], m[id])
    ensures forall j :: j in m && j !in Victims(m, CapacityClass(newcomer), batch) && !GivesWay(m[id], m[j]) ==>
              && m[id].score <= m[j].score
              && (m[id].score == m[j].score ==>
                    && m[id].seen.resolved <= m[j].seen.resolved
                    && (m[id].seen.resolved == m[j].seen.resolved ==>
                          && m[id].seen.last <= m[j].seen.last
                          && (m[id].seen.last == m[j].seen.last ==> m[id].id < m[j].id)))
  {
    VictimsComeFirst(m, CapacityClass(newcomer), batch, id);
    ClassIsRank(m[id], newcomer);
    forall j | j in m ensures CapacityClass(m[j]) > CapacityClass(m[id]) <==> GivesWay(m[j], m[id]) {
      ClassIsRank(m[j], m[id]);
    }
    forall j | j in m ensures CapacityClass(m[id]) > CapacityClass(m[j]) <==> GivesWay(m[id], m[j]) {
      ClassIsRank(m[id], m[j]);
    }
  }

  /** Before and after a newcomer came: whatever left gave way to it, no row gives way to one that left, and a row that
      stays without giving way either is of higher score or, at equal scores, later in the order. */
  ghost predicate MakesRoom(before: map<Id, Node>, after: map<Id, Node>, newcomer: Node) {
    forall v :: v in before && v !in after ==>
      && GivesWay(before[v], newcomer)
      && (forall j :: j in before ==> !GivesWay(before[j], before[v]))
      && forall j :: j in before && j in after && !GivesWay(before[v], before[j]) ==>
           && before[v].score <= before[j].score
           && (before[v].score == before[j].score ==> before[v].seen.resolved <= before[j].seen.resolved)
  }

  lemma VictimsMakeRoom(m: map<Id, Node>, after: map<Id, Node>, newcomer: Node, batch: nat)
    requires Keyed(m) && batch > 0
    requires forall id :: id in m && id !in after ==> id in Victims(m, CapacityClass(newcomer), batch)
    requires forall id :: id in m && id in after ==> id !in Victims(m, CapacityClass(newcomer), batch)
    ensures MakesRoom(m, after, newcomer)
  {
    forall v | v in m && v !in after
      ensures GivesWay(m[v], newcomer) && (forall j :: j in m ==> !GivesWay(m[j], m[v]))
      ensures forall j :: j in m && j in after && !GivesWay(m[v], m[j]) ==>
        && m[v].score <= m[j].score
        && (m[v].score == m[j].score ==> m[v].seen.resolved <= m[j].seen.resolved) {
      VictimsInFields(m, newcomer, batch, v);
    }
  }

  /** There is a victim exactly when some row gives way to the newcomer. */
  lemma SomeoneGivesWay(m: map<Id, Node>, newcomer: Node, batch: nat)
    requires Keyed(m) && batch > 0
    ensures Victims(m, CapacityClass(newcomer), batch) != {} <==> exists id :: id in m && GivesWay(m[id], newcomer)
  {
    var c := CapacityClass(newcomer);
    forall id | id in m ensures CapacityClass(m[id]) > c <==> GivesWay(m[id], newcomer) {
      ClassIsRank(m[id], newcomer);
    }
    VictimCount(m, c, batch);
    if id :| id in m && GivesWay(m[id], newcomer) {
      var worst := LowestClass(m, id);
      assert worst in Evictable(m, c);
    }
    if Victims(m, c, batch) != {} {
      var v :| v in Victims(m, c, batch);
      assert v in m && GivesWay(m[v], newcomer);
    }
  }

  lemma {:induction false} LowestClass(m: map<Id, Node>, id: Id) returns (worst: Id)
    requires id in m
    ensures worst in m && forall j :: j in m ==> CapacityClass(m[j]) <= CapacityClass(m[worst])
    decreases 3 - CapacityClass(m[id])
  {
    worst := id;
    if j :| j in m && CapacityClass(m[j]) > CapacityClass(m[id]) { worst := LowestClass(m, j); }
  }

  /** A batch is a thousandth of the limit, and at least 64 rows. */
  lemma BatchSize(max: nat)
    ensures Batch(max) >= 64 && (max >= 65_000 ==> 1000 * Batch(max) <= max < 1000 * (Batch(max) + 1))
    ensures max < 65_000 ==> Batch(max) == 64
  {
  }
}
