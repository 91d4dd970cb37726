/** Choosing one tree's nodes: an IPv6 reservation, a share for every client, and rank order kept throughout. */
module Select {
  import opened Heap
  import opened Sorting
  import opened Collections
  import opened Sums
  import opened Arithmetic
  import opened Apportion

  const UNKNOWN := "<unknown>"

  /** node is the parsed record's identity, distinct for every candidate. */
  datatype Candidate = Candidate(node: nat, client: string, snap: bool, dialable6: bool, ownPort: bool)

  datatype Options = Options(snapOnly: bool, limit: int, proportional: bool)

  predicate DistinctNodes(cands: seq<Candidate>) {
    forall i, j :: 0 <= i < j < |cands| ==> cands[i].node != cands[j].node
  }

  // ----- marks -----

  function Count(marks: seq<bool>): nat {
    if marks == [] then 0 else Count(marks[1..]) + if marks[0] then 1 else 0
  }

  /** The marked entries, in order. */
  function Chosen<T>(list: seq<T>, marks: seq<bool>): seq<T>
    requires |marks| == |list|
  {
    if list == [] then [] else (if marks[0] then [list[0]] else []) + Chosen(list[1..], marks[1..])
  }

  function Unmarked(marks: seq<bool>): seq<bool> {
    seq(|marks|, i requires 0 <= i < |marks| => !marks[i])
  }

  lemma {:induction false} ChosenSize<T>(list: seq<T>, marks: seq<bool>)
    requires |marks| == |list|
    ensures |Chosen(list, marks)| == Count(marks) <= |list|
  {
    if list != [] { ChosenSize(list[1..], marks[1..]); }
  }

  lemma {:induction false} UnmarkedCount(marks: seq<bool>)
    ensures Count(Unmarked(marks)) == |marks| - Count(marks)
  {
    if marks != [] {
      UnmarkedCount(marks[1..]);
      assert Unmarked(marks)[1..] == Unmarked(marks[1..]);
    }
  }

  lemma {:induction false} ChosenMembers<T>(list: seq<T>, marks: seq<bool>)
    requires |marks| == |list|
    ensures forall x :: x in Chosen(list, marks) <==> exists i :: 0 <= i < |list| && marks[i] && list[i] == x
  {
    if list != [] {
      ChosenMembers(list[1..], marks[1..]);
      var rest := Chosen(list[1..], marks[1..]);
      forall x ensures x in Chosen(list, marks) <==> exists i :: 0 <= i < |list| && marks[i] && list[i] == x {
        if x in rest {
          var i :| 0 <= i < |list| - 1 && marks[1..][i] && list[1..][i] == x;
          assert marks[i + 1] && list[i + 1] == x;
        }
        if i :| 0 <= i < |list| && marks[i] && list[i] == x && i > 0 {
          assert marks[1..][i - 1] && list[1..][i - 1] == x;
        }
      }
    }
  }

  lemma ChosenSnoc<T>(list: seq<T>, marks: seq<bool>, x: T, mark: bool)
    requires |marks| == |list|
    ensures Chosen(list + [x], marks + [mark]) == Chosen(list, marks) + if mark then [x] else []
  {
    if list == [] {
    } else {
      ChosenSnoc(list[1..], marks[1..], x, mark);
      assert (list + [x])[1..] == list[1..] + [x] && (marks + [mark])[1..] == marks[1..] + [mark];
    }
  }

  /** The source's filtering loops. */
  method Filter<T>(list: seq<T>, marks: seq<bool>) returns (out: seq<T>)
    requires |marks| == |list|
    ensures out == Chosen(list, marks)
  {
    out := [];
    for i := 0 to |list|
      invariant out == Chosen(list[..i], marks[..i])
    {
      ChosenSnoc(list[..i], marks[..i], list[i], marks[i]);
      assert list[..i + 1] == list[..i] + [list[i]] && marks[..i + 1] == marks[..i] + [marks[i]];
      if marks[i] { out := out + [list[i]]; }
    }
    assert list[..|list|] == list && marks[..|list|] == marks;
  }

  // ----- the IPv6 reservation -----

  function Dialable(cands: seq<Candidate>): seq<bool> {
    seq(|cands|, i requires 0 <= i < |cands| => cands[i].dialable6)
  }

  /** The IPv6 share of the limit, rounded half up, at least one. */
  function Want(cands: seq<Candidate>, limit: nat): (n: nat)
    requires cands != [] && limit > 0
    ensures Count(Dialable(cands)) > 0 ==> 1 <= n <= limit && n <= Count(Dialable(cands))
  {
    var family := Count(Dialable(cands));
    var rounded := (2 * (limit * family) + |cands|) / (2 * |cands|);
    var floored := if rounded < 1 then 1 else rounded;
    var capped := if floored > family then family else floored;
    if capped > limit then limit else capped
  }

  /** Own-port records come first, then rank decides. */
  predicate ReservedBefore(cands: seq<Candidate>, i: nat, j: nat)
    requires i < |cands| && j < |cands|
  {
    (cands[i].ownPort && !cands[j].ownPort) || (cands[i].ownPort == cands[j].ownPort && i < j)
  }

  predicate Reservation(cands: seq<Candidate>, reserved: seq<bool>) {
    && |reserved| == |cands|
    && (forall i :: 0 <= i < |cands| && reserved[i] ==> cands[i].dialable6)
    && (forall i, j :: 0 <= i < |cands| && 0 <= j < |cands| && cands[i].dialable6 && !reserved[i] && reserved[j] ==>
          ReservedBefore(cands, j, i))
  }

  lemma {:induction false} CountSet(marks: seq<bool>, i: nat)
    requires i < |marks| && !marks[i]
    ensures Count(marks[i := true]) == Count(marks) + 1
  {
    if i > 0 {
      CountSet(marks[1..], i - 1);
      assert marks[i := true][1..] == marks[1..][i - 1 := true];
    } else {
      assert marks[i := true][1..] == marks[1..];
    }
  }

  lemma {:induction false} CountNone(marks: seq<bool>)
    requires forall i :: 0 <= i < |marks| ==> !marks[i]
    ensures Count(marks) == 0
  {
    if marks != [] { CountNone(marks[1..]); }
  }

  lemma {:induction false} CountOrdered(a: seq<bool>, b: seq<bool>)
    requires |a| == |b| && forall i :: 0 <= i < |a| && a[i] ==> b[i]
    ensures Count(a) <= Count(b) && (Count(a) == Count(b) ==> a == b)
  {
    if a != [] {
      CountOrdered(a[1..], b[1..]);
      assert a == [a[0]] + a[1..] && b == [b[0]] + b[1..];
    }
  }

  method ReserveIPv6(cands: seq<Candidate>, limit: int) returns (reserved: seq<bool>)
    ensures Reservation(cands, reserved) && (limit >= 0 ==> Count(reserved) <= limit)
    ensures Count(reserved) == if Count(Dialable(cands)) == 0 || limit <= 0 then 0 else Want(cands, limit)
  {
    reserved := seq(|cands|, i => false);
    CountNone(reserved);
    if Count(Dialable(cands)) == 0 || limit <= 0 { return; }
    var want := Want(cands, limit);
    reserved := ReservePass(cands, reserved, want, true);
    if Count(reserved) == want { return; }
    reserved := ReservePass(cands, reserved, want, false);
    if Count(reserved) < want {
      CountOrdered(Dialable(cands), reserved);
    }
  }

  /** Marks, in rank order, the dialable candidates with or without an own port, until want are marked. */
  method ReservePass(cands: seq<Candidate>, before: seq<bool>, want: nat, ownPort: bool) returns (reserved: seq<bool>)
    requires |before| == |cands| && Count(before) < want
    requires forall i :: 0 <= i < |cands| && before[i] ==> cands[i].dialable6 && cands[i].ownPort && !ownPort
    requires !ownPort ==> forall i :: 0 <= i < |cands| && cands[i].dialable6 && cands[i].ownPort ==> before[i]
    ensures Reservation(cands, reserved) && Count(reserved) <= want
    ensures forall i :: 0 <= i < |cands| && reserved[i] ==> cands[i].ownPort || !ownPort
    ensures Count(reserved) < want ==>
      forall i :: 0 <= i < |cands| && cands[i].dialable6 && (cands[i].ownPort || !ownPort) ==> reserved[i]
  {
    reserved := before;
    var taken := Count(before);
    for n := 0 to |cands|
      invariant |reserved| == |cands| && taken == Count(reserved) <= want
      invariant forall i :: 0 <= i < |cands| ==>
                  reserved[i] == (before[i] || (i < n && cands[i].dialable6 && cands[i].ownPort == ownPort))
    {
      if taken == want { return; }
      if cands[n].dialable6 && cands[n].ownPort == ownPort && !reserved[n] {
        CountSet(reserved, n);
        reserved, taken := reserved[n := true], taken + 1;
      }
    }
  }

  // ----- pools -----

  /** How many of the first n candidates belong to the client. */
  function Rank(cands: seq<Candidate>, n: nat, client: string): nat
    requires n <= |cands|
  {
    if n == 0 then 0 else Rank(cands, n - 1, client) + if cands[n - 1].client == client then 1 else 0
  }

  function PoolSize(cands: seq<Candidate>, client: string): nat {
    Rank(cands, |cands|, client)
  }

  /** The clients, each once. */
  predicate Clients(cands: seq<Candidate>, order: seq<string>) {
    && (forall i, j :: 0 <= i < j < |order| ==> order[i] != order[j])
    && (forall i :: 0 <= i < |cands| ==> cands[i].client in order)
    && (forall c :: c in order ==> PoolSize(cands, c) >= 1)
  }

  lemma {:induction false} RankGrows(cands: seq<Candidate>, i: nat, n: nat, client: string)
    requires i <= n <= |cands|
    ensures Rank(cands, i, client) <= Rank(cands, n, client)
    ensures i < n && cands[i].client == client ==> Rank(cands, i, client) < Rank(cands, n, client)
    decreases n
  {
    if i < n { RankGrows(cands, i, n - 1, client); }
  }

  function Sizes(cands: seq<Candidate>, order: seq<string>): seq<int> {
    seq(|order|, k requires 0 <= k < |order| => PoolSize(cands, order[k]))
  }

  function Least(a: int, b: int): int {
    if a < b then a else b
  }

  /** Each client's first candidates, as many as it has slots. */
  function Prefixes(cands: seq<Candidate>, order: seq<string>, slots: seq<int>, n: nat): seq<bool>
    requires n <= |cands| && |slots| == |order|
  {
    seq(n, i requires 0 <= i < n =>
      exists k :: 0 <= k < |order| && order[k] == cands[i].client && Rank(cands, i, order[k]) < slots[k])
  }

  /** What the first n candidates fill of each client's slots. */
  function Filled(cands: seq<Candidate>, order: seq<string>, slots: seq<int>, n: nat): seq<int>
    requires n <= |cands| && |slots| == |order|
  {
    seq(|order|, k requires 0 <= k < |order| => Least(slots[k], Rank(cands, n, order[k])))
  }

  lemma {:induction false} CountSnoc(marks: seq<bool>, mark: bool)
    ensures Count(marks + [mark]) == Count(marks) + if mark then 1 else 0
  {
    if marks != [] {
      CountSnoc(marks[1..], mark);
      assert (marks + [mark])[1..] == marks[1..] + [mark];
    }
  }

  /** One more candidate touches only its own client. */
  lemma FilledAlike(cands: seq<Candidate>, order: seq<string>, slots: seq<int>, n: nat, k: nat)
    requires n < |cands| && |slots| == |order| && Clients(cands, order) && k < |order| && order[k] == cands[n].client
    ensures var before, now := Filled(cands, order, slots, n), Filled(cands, order, slots, n + 1);
            now == before[k := now[k]]
  {
    forall j | 0 <= j < |order| && j != k ensures order[j] != cands[n].client {
      assert j < k || k < j;
    }
  }

  lemma FilledNext(cands: seq<Candidate>, order: seq<string>, slots: seq<int>, n: nat)
    requires n < |cands| && |slots| == |order| && Clients(cands, order)
    ensures var mark := Prefixes(cands, order, slots, n + 1)[n];
            Sum(Filled(cands, order, slots, n + 1)) == Sum(Filled(cands, order, slots, n)) + if mark then 1 else 0
  {
    var c := cands[n].client;
    assert c in order;
    var k :| 0 <= k < |order| && order[k] == c;
    var before, now := Filled(cands, order, slots, n), Filled(cands, order, slots, n + 1);
    FilledAlike(cands, order, slots, n, k);
    SumUpdate(before, k, now[k]);
  }

  lemma PrefixesSnoc(cands: seq<Candidate>, order: seq<string>, slots: seq<int>, n: nat)
    requires n < |cands| && |slots| == |order|
    ensures var marks := Prefixes(cands, order, slots, n + 1); marks == Prefixes(cands, order, slots, n) + [marks[n]]
  {
  }

  lemma {:induction false} PrefixCount(cands: seq<Candidate>, order: seq<string>, slots: seq<int>, n: nat)
    requires n <= |cands| && |slots| == |order| && Clients(cands, order)
    requires forall k :: 0 <= k < |slots| ==> slots[k] >= 0
    ensures Count(Prefixes(cands, order, slots, n)) == Sum(Filled(cands, order, slots, n))
  {
    if n == 0 {
      NoneFilled(Filled(cands, order, slots, 0));
    } else {
      PrefixCount(cands, order, slots, n - 1);
      FilledNext(cands, order, slots, n - 1);
      PrefixesSnoc(cands, order, slots, n - 1);
      CountSnoc(Prefixes(cands, order, slots, n - 1), Prefixes(cands, order, slots, n)[n - 1]);
    }
  }

  lemma {:induction false} NoneFilled(s: seq<int>)
    requires forall i :: 0 <= i < |s| ==> s[i] == 0
    ensures Sum(s) == 0
    decreases |s|
  {
    if s != [] { NoneFilled(s[..|s| - 1]); }
  }

  /** Slots that fit the pools are all filled. */
  lemma SlotsAreFilled(cands: seq<Candidate>, order: seq<string>, slots: seq<int>)
    requires |slots| == |order| && Clients(cands, order) && Within(slots, Sizes(cands, order))
    requires forall k :: 0 <= k < |slots| ==> slots[k] >= 0
    ensures Count(Prefixes(cands, order, slots, |cands|)) == Sum(slots)
  {
    PrefixCount(cands, order, slots, |cands|);
    assert Filled(cands, order, slots, |cands|) == slots;
  }

  lemma {:induction false} CountAll(marks: seq<bool>)
    requires forall i :: 0 <= i < |marks| ==> marks[i]
    ensures Count(marks) == |marks|
  {
    if marks != [] { CountAll(marks[1..]); }
  }

  lemma PoolsCoverAll(cands: seq<Candidate>, order: seq<string>)
    requires Clients(cands, order)
    ensures Sum(Sizes(cands, order)) == |cands|
  {
    var sizes := Sizes(cands, order);
    SlotsAreFilled(cands, order, sizes);
    var marks := Prefixes(cands, order, sizes, |cands|);
    forall i | 0 <= i < |cands| ensures marks[i] {
      var k :| 0 <= k < |order| && order[k] == cands[i].client;
      RankGrows(cands, i, |cands|, order[k]);
    }
    CountAll(marks);
  }

  /** Exactly its slots, and its best ranked candidates: what a client's pool contributes. */
  lemma ClientTakesPrefix(cands: seq<Candidate>, order: seq<string>, slots: seq<int>, i: nat, j: nat)
    requires |slots| == |order| && Clients(cands, order)
    requires i < j < |cands| && cands[i].client == cands[j].client && Prefixes(cands, order, slots, |cands|)[j]
    ensures Prefixes(cands, order, slots, |cands|)[i]
  {
    var k :| 0 <= k < |order| && order[k] == cands[j].client && Rank(cands, j, order[k]) < slots[k];
    RankGrows(cands, i, j, order[k]);
  }

  // ----- balancing clients -----

  predicate Larger(cands: seq<Candidate>, a: string, b: string) {
    PoolSize(cands, a) > PoolSize(cands, b) || (PoolSize(cands, a) == PoolSize(cands, b) && NameLess(a, b))
  }

  function LargestFirst(cands: seq<Candidate>): (string, string) -> bool {
    (a, b) => Larger(cands, a, b)
  }

  lemma LargestFirstIsWeak(cands: seq<Candidate>)
    ensures WeakOrder(LargestFirst(cands))
  {
    var less := LargestFirst(cands);
    forall a, b | less(a, b) ensures !less(b, a) {
      NameLessTotal(a, b);
    }
    forall a, b, c | !less(a, b) && !less(b, c) ensures !less(a, c) {
      if PoolSize(cands, a) == PoolSize(cands, b) == PoolSize(cands, c) { NameLessTransitive(a, b, c); }
    }
  }

  /** Clients that may hold a floor slot: identified, and without a reserved slot. */
  function FloorEligible(order: seq<string>, held: set<string>): seq<bool> {
    seq(|order|, k requires 0 <= k < |order| => order[k] != UNKNOWN && order[k] !in held)
  }

  ghost predicate Balanced(cands: seq<Candidate>, limit: nat, held: set<string>, order: seq<string>, slots: seq<int>,
                           marks: seq<bool>) {
    && Clients(cands, order) && Ascending(LargestFirst(cands), order)
    && |slots| == |order| && Within(slots, Sizes(cands, order)) && Sum(slots) == limit
    && Quota(Sizes(cands, order), FloorsOf(FloorEligible(order, held), limit), order, limit, slots)
    && marks == Prefixes(cands, order, slots, |cands|) && Count(marks) == limit
  }

  method ClientsOf(cands: seq<Candidate>) returns (order: seq<string>)
    ensures Clients(cands, order)
  {
    order := [];
    for n := 0 to |cands|
      invariant forall i, j :: 0 <= i < j < |order| ==> order[i] != order[j]
      invariant forall i :: 0 <= i < n ==> cands[i].client in order
      invariant forall c :: c in order ==> Rank(cands, n, c) >= 1
    {
      if cands[n].client !in order { order := order + [cands[n].client]; }
    }
  }

  lemma SortedClients(cands: seq<Candidate>, order: seq<string>)
    requires Clients(cands, order)
    ensures var sorted := Sort(LargestFirst(cands), order);
            Clients(cands, sorted) && Ascending(LargestFirst(cands), sorted)
  {
    var less := LargestFirst(cands);
    var sorted := Sort(less, order);
    LargestFirstIsWeak(cands);
    SortAscends(less, order);
    SortContent(less, order);
    forall c ensures c in sorted <==> c in order {
      assert c in sorted <==> c in multiset(sorted);
      assert c in order <==> c in multiset(order);
    }
    forall i, j | 0 <= i < j < |sorted| ensures sorted[i] != sorted[j] {
      Twice(sorted, i, j);
      OnceEach(order, sorted[i]);
    }
  }

  lemma {:induction false} OnceEach(order: seq<string>, c: string)
    requires forall i, j :: 0 <= i < j < |order| ==> order[i] != order[j]
    ensures multiset(order)[c] <= 1 && (c !in order ==> multiset(order)[c] == 0)
    decreases |order|
  {
    if order != [] {
      var front := order[..|order| - 1];
      OnceEach(front, c);
      assert order == front + [order[|order| - 1]];
    }
  }

  method MarkPrefix(cands: seq<Candidate>, before: seq<bool>, client: string, count: int) returns (marks: seq<bool>)
    requires |before| == |cands|
    ensures |marks| == |cands|
    ensures forall i :: 0 <= i < |cands| ==>
              marks[i] == (before[i] || (cands[i].client == client && Rank(cands, i, client) < count))
  {
    marks := before;
    var met := 0;
    for n := 0 to |cands|
      invariant |marks| == |cands| && met == Rank(cands, n, client)
      invariant forall i :: 0 <= i < |cands| ==>
        marks[i] == (before[i] || (i < n && cands[i].client == client && Rank(cands, i, client) < count))
    {
      if cands[n].client == client {
        if met < count { marks := marks[n := true]; }
        met := met + 1;
      }
    }
  }

  method MarkPrefixes(cands: seq<Candidate>, clients: seq<string>, shares: seq<int>) returns (picked: seq<bool>)
    requires |shares| == |clients|
    ensures picked == Prefixes(cands, clients, shares, |cands|)
  {
    picked := seq(|cands|, i => false);
    for k := 0 to |clients|
      invariant |picked| == |cands|
      invariant forall i :: 0 <= i < |cands| ==>
        (picked[i] <==>
           exists p :: 0 <= p < k && clients[p] == cands[i].client && Rank(cands, i, clients[p]) < shares[p])
    {
      picked := MarkPrefix(cands, picked, clients[k], shares[k]);
    }
  }

  /** Slots for every client; ghost results say how they were shared. */
  method BalanceClients(cands: seq<Candidate>, limit: nat, held: set<string>)
    returns (selected: seq<Candidate>, ghost order: seq<string>, ghost slots: seq<int>, ghost marks: seq<bool>)
    requires limit < |cands|
    ensures Balanced(cands, limit, held, order, slots, marks)
    ensures |marks| == |cands| && selected == Chosen(cands, marks) && |selected| == limit
  {
    var clients := ClientsOf(cands);
    SortedClients(cands, clients);
    clients := Sort(LargestFirst(cands), clients);
    PoolsCoverAll(cands, clients);
    var shares := ShareOut(Sizes(cands, clients), FloorEligible(clients, held), clients, limit);
    SharesNonNegative(Sizes(cands, clients), FloorEligible(clients, held), clients, limit, shares);
    SlotsAreFilled(cands, clients, shares);
    var picked := MarkPrefixes(cands, clients, shares);
    selected := Filter(cands, picked);
    ChosenSize(cands, picked);
    order, slots, marks := clients, shares, picked;
  }

  lemma SharesNonNegative(sizes: seq<int>, eligible: seq<bool>, names: seq<string>, limit: nat, slots: seq<int>)
    requires |sizes| == |eligible| == |names| && Quota(sizes, FloorsOf(eligible, limit), names, limit, slots)
    ensures forall k :: 0 <= k < |slots| ==> slots[k] >= 0
  {
    var floors := FloorsOf(eligible, limit);
    forall k | 0 <= k < |slots| ensures slots[k] >= 0 {
      assert RoundedShare(slots[k] - floors[k], limit - Sum(floors), Extras(sizes, floors)[k],
                          Sum(sizes) - Sum(floors));
    }
  }

  // ----- merging in rank order -----

  /** Marks on all candidates from those on the unreserved ones. */
  function Merge(reserved: seq<bool>, rest: seq<bool>): seq<bool>
    requires |rest| == Count(Unmarked(reserved))
  {
    if reserved == [] then []
    else
      assert Unmarked(reserved)[1..] == Unmarked(reserved[1..]);
      if reserved[0] then [true] + Merge(reserved[1..], rest) else [rest[0]] + Merge(reserved[1..], rest[1..])
  }

  lemma {:induction false} MergeCount(reserved: seq<bool>, rest: seq<bool>)
    requires |rest| == Count(Unmarked(reserved))
    ensures |Merge(reserved, rest)| == |reserved| && Count(Merge(reserved, rest)) == Count(reserved) + Count(rest)
  {
    if reserved != [] {
      assert Unmarked(reserved)[1..] == Unmarked(reserved[1..]);
      if reserved[0] {
        MergeCount(reserved[1..], rest);
      } else {
        MergeCount(reserved[1..], rest[1..]);
      }
    }
  }

  function Nodes(cands: seq<Candidate>): set<nat> {
    set c | c in cands :: c.node
  }

  /** Reserved, or among the kept nodes. */
  function KeptMarks(cands: seq<Candidate>, reserved: seq<bool>, keep: set<nat>): seq<bool>
    requires |reserved| == |cands|
  {
    seq(|cands|, i requires 0 <= i < |cands| => reserved[i] || cands[i].node in keep)
  }

  lemma ChosenNodes(cands: seq<Candidate>, marks: seq<bool>)
    requires |marks| == |cands|
    ensures Nodes(Chosen(cands, marks)) <= Nodes(cands)
  {
    ChosenMembers(cands, marks);
  }

  lemma {:induction false} MergeByNode(cands: seq<Candidate>, reserved: seq<bool>, rest: seq<bool>)
    requires DistinctNodes(cands) && |reserved| == |cands| && |rest| == Count(Unmarked(reserved))
    requires |rest| == |Chosen(cands, Unmarked(reserved))|
    ensures KeptMarks(cands, reserved, Nodes(Chosen(Chosen(cands, Unmarked(reserved)), rest))) == Merge(reserved, rest)
  {
    if cands != [] {
      var x, tail := cands[0], cands[1..];
      assert Unmarked(reserved)[1..] == Unmarked(reserved[1..]);
      ChosenSize(tail, Unmarked(reserved[1..]));
      var later := Chosen(tail, Unmarked(reserved[1..]));
      var marks := if reserved[0] then rest else rest[1..];
      MergeByNode(tail, reserved[1..], marks);
      ChosenNodes(later, marks);
      ChosenNodes(tail, Unmarked(reserved[1..]));
      assert x.node !in Nodes(tail);
      var inner := Chosen(later, marks);
      if reserved[0] {
        assert Chosen(cands, Unmarked(reserved)) == later;
        KeptFirst(cands, reserved, Nodes(inner), Nodes(inner));
      } else {
        assert Chosen(cands, Unmarked(reserved)) == [x] + later;
        var chosen := Chosen([x] + later, rest);
        assert ([x] + later)[1..] == later;
        assert chosen == (if rest[0] then [x] else []) + inner;
        NodesFirst(x, inner);
        assert [] + inner == inner;
        KeptFirst(cands, reserved, Nodes(chosen), Nodes(inner));
      }
    }
  }

  lemma NodesFirst(x: Candidate, list: seq<Candidate>)
    ensures Nodes([x] + list) == Nodes(list) + {x.node}
  {
  }

  lemma KeptFirst(cands: seq<Candidate>, reserved: seq<bool>, keep: set<nat>, inner: set<nat>)
    requires DistinctNodes(cands) && |reserved| == |cands| > 0
    requires keep == inner || keep == inner + {cands[0].node}
    ensures KeptMarks(cands, reserved, keep)
            == [reserved[0] || cands[0].node in keep] + KeptMarks(cands[1..], reserved[1..], inner)
  {
    assert forall i :: 1 <= i < |cands| ==> cands[i].node != cands[0].node;
  }

  // ----- the whole selection -----

  function Snaps(cands: seq<Candidate>): seq<bool> {
    seq(|cands|, i requires 0 <= i < |cands| => cands[i].snap)
  }

  function Pool(cands: seq<Candidate>, opt: Options): seq<Candidate> {
    if opt.snapOnly then Chosen(cands, Snaps(cands)) else cands
  }

  /** With snap asked for exactly the candidates that serve it are considered. */
  lemma {:induction false} PoolExactly(cands: seq<Candidate>, opt: Options)
    ensures forall c :: c in Pool(cands, opt) <==> c in cands && (opt.snapOnly ==> c.snap)
    decreases |cands|
  {
    if cands != [] && opt.snapOnly {
      var rest := cands[1..];
      PoolExactly(rest, opt);
      assert Snaps(cands)[1..] == Snaps(rest);
      assert cands == [cands[0]] + rest;
      assert Pool(cands, opt) == (if cands[0].snap then [cands[0]] else []) + Pool(rest, opt);
    }
  }

  function HeldClients(cands: seq<Candidate>, reserved: seq<bool>): set<string>
    requires |reserved| == |cands|
  {
    set i | 0 <= i < |cands| && reserved[i] :: cands[i].client
  }

  function Unreserved(cands: seq<Candidate>, reserved: seq<bool>): seq<Candidate>
    requires |reserved| == |cands|
  {
    Chosen(cands, Unmarked(reserved))
  }

  /** How a tree's nodes were chosen: reserved marks candidates, rest marks the unreserved ones. */
  datatype Choice = Choice(reserved: seq<bool>, rest: seq<bool>, order: seq<string>, slots: seq<int>)

  /** How the slots the reservation left free are filled from the unreserved candidates. */
  ghost predicate Fills(rest: seq<Candidate>, free: nat, held: set<string>, proportional: bool, c: Choice) {
    && |c.rest| == |rest| && Count(c.rest) == free
    && (proportional && free > 0 ==> Balanced(rest, free, held, c.order, c.slots, c.rest))
    && (!proportional ==> forall i :: 0 <= i < |rest| ==> (c.rest[i] <==> i < free))
  }

  function Reserve(cands: seq<Candidate>, limit: nat): nat {
    if Count(Dialable(cands)) == 0 || limit == 0 || cands == [] then 0 else Want(cands, limit)
  }

  ghost predicate Sound(cands: seq<Candidate>, limit: nat, proportional: bool, c: Choice) {
    && Reservation(cands, c.reserved) && Count(c.reserved) == Reserve(cands, limit) <= limit
    && Fills(Unreserved(cands, c.reserved), limit - Count(c.reserved), HeldClients(cands, c.reserved), proportional, c)
  }

  /** A sound choice of exactly limit candidates, kept in rank order. */
  ghost predicate PickedAs(cands: seq<Candidate>, limit: nat, proportional: bool, selected: seq<Candidate>, c: Choice) {
    && Sound(cands, limit, proportional, c) && |selected| == limit
    && |c.rest| == Count(Unmarked(c.reserved)) && |Merge(c.reserved, c.rest)| == |cands|
    && selected == Chosen(cands, Merge(c.reserved, c.rest))
  }

  lemma {:induction false} CountFirst(n: nat, k: nat)
    requires k <= n
    ensures Count(seq(n, i => i < k)) == k
  {
    if n > 0 {
      var marks := seq(n, i => i < k);
      if k == n { CountAll(marks); } else {
        assert marks == seq(n - 1, i => i < k) + [false];
        CountFirst(n - 1, k);
        CountSnoc(seq(n - 1, i => i < k), false);
      }
    }
  }

  /** pick: every candidate when they fit the limit; otherwise exactly limit of them, in rank order, soundly chosen. */
  method Pick(all: seq<Candidate>, opt: Options) returns (selected: seq<Candidate>, ghost choice: Choice)
    requires DistinctNodes(all)
    ensures var cands := Pool(all, opt);
            if opt.limit <= 0 || |cands| <= opt.limit then selected == cands
            else PickedAs(cands, opt.limit, opt.proportional, selected, choice)
  {
    var cands := all;
    if opt.snapOnly { cands := Filter(all, Snaps(all)); }
    choice := Choice([], [], [], []);
    if opt.limit <= 0 || |cands| <= opt.limit { return cands, choice; }
    PoolDistinct(all, opt);
    selected, choice := PickLimited(cands, opt.limit, opt.proportional);
  }

  lemma PoolDistinct(all: seq<Candidate>, opt: Options)
    requires DistinctNodes(all)
    ensures DistinctNodes(Pool(all, opt))
  {
    if opt.snapOnly { ChosenDistinct(all, Snaps(all)); }
  }

  lemma {:induction false} ChosenDistinct(cands: seq<Candidate>, marks: seq<bool>)
    requires DistinctNodes(cands) && |marks| == |cands|
    ensures DistinctNodes(Chosen(cands, marks))
  {
    if cands != [] {
      ChosenDistinct(cands[1..], marks[1..]);
      ChosenMembers(cands[1..], marks[1..]);
      var rest := Chosen(cands[1..], marks[1..]);
      forall j | 0 <= j < |rest| ensures rest[j].node != cands[0].node {
        assert rest[j] in rest;
        var i :| 0 <= i < |cands| - 1 && cands[1..][i] == rest[j];
        assert cands[i + 1] == rest[j];
      }
    }
  }

  method PickLimited(cands: seq<Candidate>, limit: nat, proportional: bool)
    returns (selected: seq<Candidate>, ghost choice: Choice)
    requires DistinctNodes(cands) && 0 < limit < |cands|
    ensures PickedAs(cands, limit, proportional, selected, choice)
  {
    var reserved := ReserveIPv6(cands, limit);
    selected, choice := FillAndMerge(cands, limit, proportional, reserved);
  }

  method FillAndMerge(cands: seq<Candidate>, limit: nat, proportional: bool, reserved: seq<bool>)
    returns (selected: seq<Candidate>, ghost c: Choice)
    requires DistinctNodes(cands) && |reserved| == |cands| && Count(reserved) <= limit < |cands|
    ensures c.reserved == reserved && |selected| == limit
    ensures Fills(Unreserved(cands, reserved), limit - Count(reserved), HeldClients(cands, reserved), proportional, c)
    ensures |c.rest| == Count(Unmarked(reserved)) && |Merge(reserved, c.rest)| == |cands|
    ensures selected == Chosen(cands, Merge(reserved, c.rest))
  {
    UnmarkedCount(reserved);
    ChosenSize(cands, Unmarked(reserved));
    var rest := Filter(cands, Unmarked(reserved));
    var filled;
    filled, c := Fill(rest, limit - Count(reserved), HeldClients(cands, reserved), proportional, reserved);
    selected := MergeRanked(cands, reserved, filled, c.rest);
  }

  method Fill(rest: seq<Candidate>, free: nat, held: set<string>, proportional: bool, ghost reserved: seq<bool>)
    returns (filled: seq<Candidate>, ghost c: Choice)
    requires free < |rest|
    ensures c.reserved == reserved && Fills(rest, free, held, proportional, c) && filled == Chosen(rest, c.rest)
  {
    if free == 0 || !proportional {
      filled := rest[..free];
      ChosenPrefix(rest, free);
      CountFirst(|rest|, free);
      c := Choice(reserved, seq(|rest|, i => i < free), [], []);
    } else {
      ghost var order, slots, marks;
      filled, order, slots, marks := BalanceClients(rest, free, held);
      c := Choice(reserved, marks, order, slots);
    }
  }

  /** The reserved candidates and the filled ones, in rank order. */
  method MergeRanked(cands: seq<Candidate>, reserved: seq<bool>, filled: seq<Candidate>, ghost marks: seq<bool>)
    returns (selected: seq<Candidate>)
    requires DistinctNodes(cands) && |reserved| == |cands|
    requires |marks| == |Unreserved(cands, reserved)| == Count(Unmarked(reserved))
    requires filled == Chosen(Unreserved(cands, reserved), marks)
    ensures |Merge(reserved, marks)| == |cands| && selected == Chosen(cands, Merge(reserved, marks))
    ensures |selected| == Count(reserved) + Count(marks)
  {
    MergeByNode(cands, reserved, marks);
    MergeCount(reserved, marks);
    ChosenSize(cands, Merge(reserved, marks));
    selected := Filter(cands, KeptMarks(cands, reserved, Nodes(filled)));
  }

  lemma {:induction false} ChosenPrefix<T>(list: seq<T>, k: nat)
    requires k <= |list|
    ensures Chosen(list, seq(|list|, i => i < k)) == list[..k]
  {
    if list != [] {
      var marks := seq(|list|, i => i < k);
      if k == 0 {
        assert marks[1..] == seq(|list| - 1, i => i < 0);
        ChosenPrefix(list[1..], 0);
      } else {
        assert marks[1..] == seq(|list| - 1, i => i < k - 1);
        ChosenPrefix(list[1..], k - 1);
        assert list[..k] == [list[0]] + list[1..][..k - 1];
      }
    }
  }

  // ----- what a balanced choice means for one client -----

  /** Marked candidates of a client among the first n. */
  function Taken(cands: seq<Candidate>, marks: seq<bool>, n: nat, client: string): nat
    requires n <= |cands| == |marks|
  {
    if n == 0 then 0
    else Taken(cands, marks, n - 1, client) + if marks[n - 1] && cands[n - 1].client == client then 1 else 0
  }

  lemma {:induction false} TakenIsLeast(cands: seq<Candidate>, order: seq<string>, slots: seq<int>, n: nat, k: nat)
    requires Clients(cands, order) && |slots| == |order| && k < |order| && slots[k] >= 0 && n <= |cands|
    ensures Taken(cands, Prefixes(cands, order, slots, |cands|), n, order[k])
            == Least(slots[k], Rank(cands, n, order[k]))
  {
    if n > 0 {
      TakenIsLeast(cands, order, slots, n - 1, k);
      var marks := Prefixes(cands, order, slots, |cands|);
      if cands[n - 1].client == order[k] {
        assert marks[n - 1] <==> Rank(cands, n - 1, order[k]) < slots[k];
      }
    }
  }

  /** Client k of the order has its floor and its exact share of the rest, rounded down or up. */
  ghost predicate HasShare(cands: seq<Candidate>, limit: nat, eligible: seq<bool>, order: seq<string>,
                           marks: seq<bool>, k: int) {
    var floors := FloorsOf(eligible, limit);
    && 0 <= k < |order| == |eligible| && |marks| == |cands| && Sum(floors) <= limit && Sum(floors) < |cands|
    && floors[k] <= PoolSize(cands, order[k])
    && RoundedShare(Taken(cands, marks, |cands|, order[k]) - floors[k], limit - Sum(floors),
                    PoolSize(cands, order[k]) - floors[k], |cands| - Sum(floors))
  }

  lemma ShareOf(cands: seq<Candidate>, limit: nat, held: set<string>, order: seq<string>, slots: seq<int>,
                marks: seq<bool>, k: nat)
    requires Balanced(cands, limit, held, order, slots, marks) && k < |order|
    ensures HasShare(cands, limit, FloorEligible(order, held), order, marks, k)
  {
    var eligible := FloorEligible(order, held);
    SharesNonNegative(Sizes(cands, order), eligible, order, limit, slots);
    TakesItsSlots(cands, order, slots, k);
    PoolsCoverAll(cands, order);
    QuotaShare(cands, limit, eligible, order, slots, marks, k);
  }

  lemma QuotaShare(cands: seq<Candidate>, limit: nat, eligible: seq<bool>, order: seq<string>, slots: seq<int>,
                   marks: seq<bool>, k: nat)
    requires |eligible| == |order| == |slots| && |marks| == |cands| && k < |order|
    requires Sum(Sizes(cands, order)) == |cands| && Taken(cands, marks, |cands|, order[k]) == slots[k]
    requires Quota(Sizes(cands, order), FloorsOf(eligible, limit), order, limit, slots)
    ensures HasShare(cands, limit, eligible, order, marks, k)
  {
    QuotaOf(Sizes(cands, order), FloorsOf(eligible, limit), order, limit, slots, k);
    assert Sizes(cands, order)[k] == PoolSize(cands, order[k]);
  }

  lemma TakesItsSlots(cands: seq<Candidate>, order: seq<string>, slots: seq<int>, k: nat)
    requires Clients(cands, order) && |slots| == |order| && k < |order| && slots[k] >= 0
    requires Within(slots, Sizes(cands, order))
    ensures Taken(cands, Prefixes(cands, order, slots, |cands|), |cands|, order[k]) == slots[k]
  {
    TakenIsLeast(cands, order, slots, |cands|, k);
  }

  /** In a balanced tree every client with an unreserved candidate has its floor and its share, of its best ranked
      unreserved candidates. */
  lemma EveryClientGetsItsShare(cands: seq<Candidate>, limit: nat, held: set<string>, order: seq<string>,
                                slots: seq<int>, marks: seq<bool>, client: string)
    requires Balanced(cands, limit, held, order, slots, marks) && PoolSize(cands, client) > 0
    ensures exists k :: 0 <= k < |order| && order[k] == client
                        && HasShare(cands, limit, FloorEligible(order, held), order, marks, k)
    ensures forall i, j :: 0 <= i < j < |cands| && cands[i].client == cands[j].client == client && marks[j] ==> marks[i]
  {
    var i := Member(cands, |cands|, client);
    assert client in order;
    var k :| 0 <= k < |order| && order[k] == client;
    ShareOf(cands, limit, held, order, slots, marks, k);
    forall i, j | 0 <= i < j < |cands| && cands[i].client == cands[j].client == client && marks[j] ensures marks[i] {
      ClientTakesPrefix(cands, order, slots, i, j);
    }
  }

  lemma {:induction false} Member(cands: seq<Candidate>, n: nat, client: string) returns (i: nat)
    requires n <= |cands| && Rank(cands, n, client) > 0
    ensures i < n && cands[i].client == client
  {
    if cands[n - 1].client == client { i := n - 1; } else { i := Member(cands, n - 1, client); }
  }

  // ----- who is given a slot of its own -----

  /** The clients before the k-th that are known and hold no reserved record. */
  function Ahead(order: seq<string>, held: set<string>, k: nat): set<int>
    requires k <= |order|
  {
    set j | 0 <= j < k && order[j] != "<unknown>" && order[j] !in held
  }

  lemma {:induction false} EligibleAhead(order: seq<string>, held: set<string>, k: nat)
    requires k <= |order|
    ensures Eligible(FloorEligible(order, held), k) == |Ahead(order, held, k)|
  {
    if k > 0 {
      EligibleAhead(order, held, k - 1);
      AheadNext(order, held, k - 1);
    } else {
      assert Ahead(order, held, 0) == {};
    }
  }

  lemma AheadNext(order: seq<string>, held: set<string>, k: nat)
    requires k < |order|
    ensures |Ahead(order, held, k + 1)| ==
              |Ahead(order, held, k)| + if order[k] != "<unknown>" && order[k] !in held then 1 else 0
  {
    var before := Ahead(order, held, k);
    Added(before, k);
    assert Ahead(order, held, k + 1) ==
      if order[k] != "<unknown>" && order[k] !in held then before + {k} else before;
  }

  /** A client has a floor slot exactly when it is known, holds no reserved record, and fewer such clients than there
      are slots come before it. */
  lemma FloorExactly(order: seq<string>, held: set<string>, limit: nat, k: nat)
    requires k < |order|
    ensures var floor := FloorsOf(FloorEligible(order, held), limit)[k];
            && 0 <= floor <= 1
            && (floor == 1 <==> order[k] != "<unknown>" && order[k] !in held && |Ahead(order, held, k)| < limit)
  {
    EligibleAhead(order, held, k);
  }

  /** With as many slots as clients, every known client without a reserved record has a record picked. */
  lemma KnownClientIsPicked(cands: seq<Candidate>, limit: nat, held: set<string>, order: seq<string>,
                            slots: seq<int>, marks: seq<bool>, client: string) returns (i: nat)
    requires Balanced(cands, limit, held, order, slots, marks) && PoolSize(cands, client) > 0
    requires client != "<unknown>" && client !in held && |order| <= limit
    ensures i < |cands| == |marks| && marks[i] && cands[i].client == client
  {
    EveryClientGetsItsShare(cands, limit, held, order, slots, marks, client);
    var k :| 0 <= k < |order| && order[k] == client
             && HasShare(cands, limit, FloorEligible(order, held), order, marks, k);
    FewAhead(order, held, k);
    FloorExactly(order, held, limit, k);
    i := SomeTaken(cands, marks, |cands|, client);
  }

  lemma {:induction false} FewAhead(order: seq<string>, held: set<string>, k: nat)
    requires k <= |order|
    ensures |Ahead(order, held, k)| <= k
  {
    if k > 0 {
      FewAhead(order, held, k - 1);
      AheadNext(order, held, k - 1);
    }
  }

  lemma {:induction false} SomeTaken(cands: seq<Candidate>, marks: seq<bool>, n: nat, client: string) returns (i: nat)
    requires n <= |cands| == |marks| && Taken(cands, marks, n, client) > 0
    ensures i < n && marks[i] && cands[i].client == client
  {
    if marks[n - 1] && cands[n - 1].client == client { i := n - 1; }
    else { i := SomeTaken(cands, marks, n - 1, client); }
  }

  // ----- the reservation's order and size -----

  lemma ReservedBeforeIsOrder(cands: seq<Candidate>, i: nat, j: nat)
    requires i < |cands| && j < |cands|
    ensures ReservedBefore(cands, i, j) ==> !ReservedBefore(cands, j, i)
    ensures i != j ==> ReservedBefore(cands, i, j) || ReservedBefore(cands, j, i)
    ensures cands[i].ownPort && !cands[j].ownPort ==> ReservedBefore(cands, i, j)
  {
  }

  function Distance(a: int, b: int): nat {
    if a < b then b - a else a - b
  }

  /** The reservation is the number nearest to the dialable candidates' share of the limit, among those that are at
      least one and no more than the limit and the candidates themselves; of two equally near it is the larger. */
  lemma WantIsNearest(cands: seq<Candidate>, limit: nat, x: nat)
    requires cands != [] && limit > 0
    requires var family := Count(Dialable(cands)); 1 <= x <= limit && x <= family
    ensures var share := limit * Count(Dialable(cands)); var n := |cands|; var want := Want(cands, limit);
            && Distance(want * n, share) <= Distance(x * n, share)
            && (Distance(want * n, share) == Distance(x * n, share) ==> x <= want)
  {
    var family, n := Count(Dialable(cands)), |cands|;
    var upper := if family < limit then family else limit;
    ClampedIsNearest(limit * family, n, Want(cands, limit), upper, x);
  }

  lemma ClampedIsNearest(share: nat, n: nat, want: nat, upper: nat, x: nat)
    requires n > 0 && 1 <= x <= upper
    requires var rounded := (2 * share + n) / (2 * n);
             want == if rounded < 1 then 1 else if rounded > upper then upper else rounded
    ensures Distance(want * n, share) <= Distance(x * n, share)
    ensures Distance(want * n, share) == Distance(x * n, share) ==> x <= want
  {
    var rounded := (2 * share + n) / (2 * n);
    Rounding(share, n, rounded);
    Gap(x, want, n);
    Gap(rounded, want, n);
  }

  lemma Rounding(share: nat, n: nat, rounded: nat)
    requires n > 0 && rounded == (2 * share + n) / (2 * n)
    ensures 2 * (rounded * n) <= 2 * share + n < 2 * (rounded * n) + 2 * n
  {
    Quotient(2 * share + n, 2 * n);
    assert rounded * (2 * n) == 2 * (rounded * n);
    assert (rounded + 1) * (2 * n) == 2 * (rounded * n) + 2 * n;
  }

  lemma Gap(a: int, b: int, n: nat)
    ensures a < b ==> a * n + n <= b * n
    ensures b < a ==> b * n + n <= a * n
    ensures a == b ==> a * n == b * n
  {
    if a < b { NextMultiple(a, b, n); }
    if b < a { NextMultiple(b, a, n); }
  }

  lemma NextMultiple(a: int, b: int, n: nat)
    requires a < b
    ensures a * n + n <= b * n
  {
    Times(a + 1, b, n);
    assert (a + 1) * n == a * n + n;
  }
}
