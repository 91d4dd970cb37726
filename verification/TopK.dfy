/** A bounded heap that keeps the best k of everything it is offered, its worst kept value at the root. */
module TopK {
  import opened Heap
  import opened Collections

  class Best<T(!new)> {
    var items: seq<T>
    const limit: nat
    const better: (T, T) -> bool
    /** What was offered since the last reset and is not kept. */
    ghost var dropped: multiset<T>

    ghost predicate Valid()
      reads this
    {
      && WeakOrder(better)
      && IsHeap(items, Worse(better))
      && |items| <= limit
      && (dropped != multiset{} ==> |items| == limit)
      && forall x, y :: x in dropped && y in items ==> !better(x, y)
    }

    ghost function Offered(): multiset<T>
      reads this
    {
      multiset(items) + dropped
    }

    constructor (limit: nat, better: (T, T) -> bool)
      requires WeakOrder(better)
      ensures Valid() && Offered() == multiset{} && this.limit == limit && this.better == better
    {
      items, dropped := [], multiset{};
      this.limit, this.better := limit, better;
    }

    method Reset()
      requires Valid()
      modifies this
      ensures Valid() && Offered() == multiset{}
    {
      items, dropped := [], multiset{};
    }

    method Offer(v: T)
      requires Valid()
      modifies this
      ensures Valid() && Offered() == old(Offered()) + multiset{v}
    {
      WorseIsWeak(better);
      if limit == 0 {
        dropped := dropped + multiset{v};
      } else if |items| < limit {
        var h := Push(items, v, Worse(better));
        items := h;
      } else if better(v, items[0]) {
        var out := items[0];
        RootIsWorst(items, better);
        ReplacedRoot(items, v, Worse(better));
        var h := FixRoot(items[0 := v], Worse(better));
        SameElements(h, items[0 := v]);
        ReplacedKeepsBest(items, dropped, v, better);
        ReplacedContent(items, dropped, v);
        items, dropped := h, dropped + multiset{out};
      } else {
        RootIsWorst(items, better);
        dropped := dropped + multiset{v};
      }
    }
  }

  /** The heap's order: a is below b when b is better. */
  function Worse<T>(better: (T, T) -> bool): (T, T) -> bool {
    (a, b) => better(b, a)
  }

  lemma WorseIsWeak<T(!new)>(better: (T, T) -> bool)
    requires WeakOrder(better)
    ensures WeakOrder(Worse(better))
  {
    forall a, b, c | !Worse(better)(a, b) && !Worse(better)(b, c) ensures !Worse(better)(a, c) {
      assert !better(b, a) && !better(c, b);
    }
  }

  lemma RootIsWorst<T(!new)>(items: seq<T>, better: (T, T) -> bool)
    requires WeakOrder(better) && IsHeap(items, Worse(better)) && items != []
    ensures forall y :: y in items ==> !better(items[0], y)
  {
    WorseIsWeak(better);
    forall y | y in items ensures !better(items[0], y) {
      var k :| 0 <= k < |items| && items[k] == y;
      RootIsLeast(items, Worse(better), k);
    }
  }

  lemma ReplacedRoot<T>(items: seq<T>, v: T, less: (T, T) -> bool)
    requires items != [] && IsHeap(items, less)
    ensures OrderedFrom(items[0 := v], 1, |items|, less)
  {
  }

  lemma ReplacedContent<T>(items: seq<T>, dropped: multiset<T>, v: T)
    requires items != []
    ensures multiset(items[0 := v]) + (dropped + multiset{items[0]}) == multiset(items) + dropped + multiset{v}
  {
    assert multiset(items[0 := v]) == multiset(items) - multiset{items[0]} + multiset{v};
  }

  lemma ReplacedKeepsBest<T(!new)>(items: seq<T>, dropped: multiset<T>, v: T, better: (T, T) -> bool)
    requires WeakOrder(better) && items != [] && better(v, items[0])
    requires forall y :: y in items ==> !better(items[0], y)
    requires forall x, y :: x in dropped && y in items ==> !better(x, y)
    ensures forall x, y :: x in dropped + multiset{items[0]} && y in items[0 := v] ==> !better(x, y)
  {
    forall x, y | x in dropped + multiset{items[0]} && y in items[0 := v] ensures !better(x, y) {
      if y == v {
        assert !better(items[0], v);
        assert x == items[0] || !better(x, items[0]);
      } else {
        assert y in items;
      }
    }
  }
}
