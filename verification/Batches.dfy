/** Route53 change batches: packing a list of changes into batches that are applied atomically. */
module Batches {

  const COUNT_LIMIT: nat := 1000
  const SIZE_LIMIT: nat := 32000

  /** One record change: its RDATA bytes and whether it is an UPSERT, which is charged twice. */
  datatype Change = Change(id: nat, size: nat, upsert: bool)

  function Count(c: Change): nat {
    if c.upsert then 2 else 1
  }

  /** changeSize times changeCount. */
  function Bytes(c: Change): nat {
    if c.upsert then c.size + c.size else c.size
  }

  function TotalCount(cs: seq<Change>): nat {
    if cs == [] then 0 else TotalCount(cs[..|cs| - 1]) + Count(cs[|cs| - 1])
  }

  function TotalBytes(cs: seq<Change>): nat {
    if cs == [] then 0 else TotalBytes(cs[..|cs| - 1]) + Bytes(cs[|cs| - 1])
  }

  predicate Fits(cs: seq<Change>) {
    TotalCount(cs) <= COUNT_LIMIT && TotalBytes(cs) <= SIZE_LIMIT
  }

  /** The changes with every UPSERT twice, as the delete and the create it stands for. */
  function Charged(cs: seq<Change>): seq<Change> {
    if cs == [] then []
    else
      var front, last := Charged(cs[..|cs| - 1]), cs[|cs| - 1];
      front + if last.upsert then [last, last] else [last]
  }

  function Sizes(cs: seq<Change>): nat {
    if cs == [] then 0 else Sizes(cs[..|cs| - 1]) + cs[|cs| - 1].size
  }

  lemma SizesSnoc(cs: seq<Change>, c: Change)
    ensures Sizes(cs + [c]) == Sizes(cs) + c.size
  {
    assert (cs + [c])[..|cs + [c]| - 1] == cs;
  }

  /** A batch fits when what it is charged for is at most 1000 changes of at most 32000 bytes together. */
  lemma {:induction false} FitsExactly(cs: seq<Change>)
    ensures TotalCount(cs) == |Charged(cs)| && TotalBytes(cs) == Sizes(Charged(cs))
    ensures Fits(cs) <==> |Charged(cs)| <= 1000 && Sizes(Charged(cs)) <= 32_000
    decreases |cs|
  {
    if cs != [] {
      var front, last := cs[..|cs| - 1], cs[|cs| - 1];
      FitsExactly(front);
      SizesSnoc(Charged(front), last);
      SizesSnoc(Charged(front) + [last], last);
      assert Charged(front) + [last] + [last] == Charged(front) + [last, last];
    }
  }

  function Flatten(batches: seq<seq<Change>>): seq<Change> {
    if batches == [] then [] else Flatten(batches[..|batches| - 1]) + batches[|batches| - 1]
  }

  /** An order-preserving split of the changes into batches. */
  predicate Splits(batches: seq<seq<Change>>, changes: seq<Change>) {
    Flatten(batches) == changes && forall i :: 0 <= i < |batches| ==> batches[i] != []
  }

  predicate AllFit(batches: seq<seq<Change>>) {
    forall i :: 0 <= i < |batches| ==> Fits(batches[i])
  }

  function Last<T>(s: seq<T>): T
    requires s != []
  {
    s[|s| - 1]
  }

  lemma {:induction false} SuffixIsCheaper(a: seq<Change>, b: seq<Change>)
    ensures TotalCount(b) <= TotalCount(a + b) && TotalBytes(b) <= TotalBytes(a + b)
  {
    if b == [] {
      assert a + b == a;
    } else {
      assert (a + b)[..|a + b| - 1] == a + b[..|b| - 1];
      SuffixIsCheaper(a, b[..|b| - 1]);
    }
  }

  /** The greedy packing is no worse than any other, and among equals leaves the shortest last batch. */
  ghost predicate Ahead(greedy: seq<seq<Change>>, changes: seq<Change>) {
    forall other :: Splits(other, changes) && AllFit(other) ==>
      |greedy| <= |other| && (|greedy| == |other| && greedy != [] ==> |Last(greedy)| <= |Last(other)|)
  }

  /** A split without its very last change. */
  function Shorten(batches: seq<seq<Change>>): seq<seq<Change>>
    requires batches != [] && Last(batches) != []
  {
    var front, last := batches[..|batches| - 1], Last(batches);
    if |last| == 1 then front else front + [last[..|last| - 1]]
  }

  lemma ShortenSplits(batches: seq<seq<Change>>, changes: seq<Change>, c: Change)
    requires Splits(batches, changes + [c])
    ensures batches != [] && Last(batches) != [] && Last(Last(batches)) == c
    ensures Splits(Shorten(batches), changes)
    ensures AllFit(batches) ==> AllFit(Shorten(batches))
    ensures |Last(batches)| == 1 ==> |Shorten(batches)| == |batches| - 1
    ensures |Last(batches)| > 1 ==> |Shorten(batches)| == |batches| && Last(Shorten(batches)) + [c] == Last(batches)
  {
    assert batches != [] by { assert changes + [c] != []; }
    var front, last := batches[..|batches| - 1], Last(batches);
    var all := Flatten(front) + last;
    assert all == changes + [c] && Last(all) == Last(last) && all[..|all| - 1] == changes;
    assert all[..|all| - 1] == Flatten(front) + last[..|last| - 1];
    if |last| > 1 {
      assert (front + [last[..|last| - 1]])[..|front|] == front;
      assert last == last[..|last| - 1] + [Last(last)];
    } else {
      assert last[..0] == [];
    }
  }

  lemma {:induction false} LastIsSuffix(batches: seq<seq<Change>>, changes: seq<Change>)
    requires Splits(batches, changes) && batches != []
    ensures |Last(batches)| <= |changes| && changes[|changes| - |Last(batches)|..] == Last(batches)
  {
  }

  /** What one change does to the packing: it joins the last batch, or opens a new one. */
  ghost predicate Grows(greedy: seq<seq<Change>>, c: Change, grown: seq<seq<Change>>) {
    || (greedy != [] && grown == greedy[..|greedy| - 1] + [Last(greedy) + [c]])
    || (grown == greedy + [[c]] && (greedy == [] || !Fits(Last(greedy) + [c])))
  }

  lemma GrowsSplits(greedy: seq<seq<Change>>, changes: seq<Change>, c: Change, grown: seq<seq<Change>>)
    requires Splits(greedy, changes) && Grows(greedy, c, grown)
    ensures Splits(grown, changes + [c])
  {
    if |grown| == |greedy| {
      assert grown[..|grown| - 1] == greedy[..|greedy| - 1];
      assert Flatten(grown) == Flatten(greedy[..|greedy| - 1]) + (Last(greedy) + [c]) == changes + [c];
    } else {
      assert grown[..|grown| - 1] == greedy;
    }
  }

  /** If the greedy last batch cannot take the change, no longer last batch of another split can. */
  lemma LongerLastIsFuller(greedy: seq<seq<Change>>, changes: seq<Change>, c: Change, short: seq<seq<Change>>)
    requires Splits(greedy, changes) && Splits(short, changes) && greedy != [] && short != []
    requires |Last(greedy)| <= |Last(short)| && Fits(Last(short) + [c])
    ensures Fits(Last(greedy) + [c])
  {
    LastIsSuffix(greedy, changes);
    LastIsSuffix(short, changes);
    var a, b := Last(greedy), Last(short);
    var front := b[..|b| - |a|];
    assert b == front + a;
    SuffixIsCheaper(front, a + [c]);
    assert b + [c] == front + (a + [c]);
  }

  lemma AheadOfOne(greedy: seq<seq<Change>>, changes: seq<Change>, c: Change, grown: seq<seq<Change>>,
                   other: seq<seq<Change>>)
    requires Splits(greedy, changes) && Ahead(greedy, changes) && Grows(greedy, c, grown)
    requires Splits(other, changes + [c]) && AllFit(other)
    ensures |grown| <= |other| && (|grown| == |other| ==> |Last(grown)| <= |Last(other)|)
  {
    ShortenSplits(other, changes, c);
    var short := Shorten(other);
    assert |greedy| <= |short| && (|greedy| == |short| && greedy != [] ==> |Last(greedy)| <= |Last(short)|);
    assert Fits(other[|other| - 1]);
    if |grown| > |greedy| && |Last(other)| > 1 && |short| == |greedy| && greedy != [] {
      LongerLastIsFuller(greedy, changes, c, short);
    }
  }

  lemma AheadStep(greedy: seq<seq<Change>>, changes: seq<Change>, c: Change, grown: seq<seq<Change>>)
    requires Splits(greedy, changes) && Ahead(greedy, changes) && Grows(greedy, c, grown)
    ensures Ahead(grown, changes + [c])
  {
    forall other | Splits(other, changes + [c]) && AllFit(other)
      ensures |grown| <= |other| && (|grown| == |other| && grown != [] ==> |Last(grown)| <= |Last(other)|)
    {
      AheadOfOne(greedy, changes, c, grown, other);
    }
  }

  lemma TotalsGrow(cs: seq<Change>, c: Change)
    ensures TotalCount(cs + [c]) == TotalCount(cs) + Count(c) && TotalBytes(cs + [c]) == TotalBytes(cs) + Bytes(c)
  {
    assert (cs + [c])[..|cs|] == cs;
  }

  predicate EachFits(changes: seq<Change>) {
    forall i :: 0 <= i < |changes| ==> Fits([changes[i]])
  }

  ghost predicate Packed(batches: seq<seq<Change>>, changes: seq<Change>) {
    Splits(batches, changes) && Ahead(batches, changes) && (EachFits(changes) ==> AllFit(batches))
  }

  function Join(batches: seq<seq<Change>>, c: Change): seq<seq<Change>> {
    if batches == [] || !Fits(Last(batches) + [c]) then batches + [[c]]
    else batches[..|batches| - 1] + [Last(batches) + [c]]
  }

  lemma PackedStep(batches: seq<seq<Change>>, changes: seq<Change>, c: Change)
    requires Packed(batches, changes)
    ensures Packed(Join(batches, c), changes + [c])
  {
    GrowsSplits(batches, changes, c, Join(batches, c));
    AheadStep(batches, changes, c, Join(batches, c));
    if EachFits(changes + [c]) {
      assert forall i :: 0 <= i < |changes| ==> (changes + [c])[i] == changes[i];
      assert (changes + [c])[|changes|] == c;
    }
  }

  /** The running totals of the last batch. */
  predicate Tallies(batches: seq<seq<Change>>, size: nat, count: nat) {
    batches != [] ==> size == TotalBytes(Last(batches)) && count == TotalCount(Last(batches))
  }

  /** One turn of the packing loop. */
  method Add(batches: seq<seq<Change>>, size: nat, count: nat, change: Change)
    returns (batches': seq<seq<Change>>, size': nat, count': nat)
    requires Tallies(batches, size, count)
    ensures batches' == Join(batches, change)
    ensures Tallies(batches', size', count')
  {
    var n, bytes := Count(change), Bytes(change);
    TotalsGrow([], change);
    assert [] + [change] == [change];
    if batches == [] {
      return [[change]], bytes, n;
    }
    TotalsGrow(Last(batches), change);
    if size + bytes > SIZE_LIMIT || count + n > COUNT_LIMIT {
      return batches + [[change]], bytes, n;
    }
    return batches[..|batches| - 1] + [Last(batches) + [change]], size + bytes, count + n;
  }

  lemma TakeSnoc(changes: seq<Change>, k: nat)
    requires k < |changes|
    ensures changes[..k + 1] == changes[..k] + [changes[k]]
  {
  }

  lemma TakeAll(changes: seq<Change>)
    ensures changes[..|changes|] == changes
  {
  }

  lemma NothingPacked()
    ensures Packed([], [])
  {
  }

  lemma PackedIsBest(batches: seq<seq<Change>>, changes: seq<Change>)
    requires Packed(batches, changes)
    ensures Splits(batches, changes)
    ensures EachFits(changes) ==> AllFit(batches)
    ensures forall other :: Splits(other, changes) && AllFit(other) ==> |batches| <= |other|
  {
  }

  /** splitChanges: order and content are kept, both limits hold whenever each change fits alone, and no
      order-preserving split within the limits uses fewer batches. */
  method SplitChanges(changes: seq<Change>) returns (batches: seq<seq<Change>>)
    ensures Splits(batches, changes)
    ensures EachFits(changes) ==> AllFit(batches)
    ensures forall other :: Splits(other, changes) && AllFit(other) ==> |batches| <= |other|
  {
    batches := [];
    var size, count := 0, 0;
    NothingPacked();
    for k := 0 to |changes|
      invariant Packed(batches, changes[..k]) && Tallies(batches, size, count)
    {
      TakeSnoc(changes, k);
      PackedStep(batches, changes[..k], changes[k]);
      batches, size, count := Add(batches, size, count, changes[k]);
    }
    TakeAll(changes);
    PackedIsBest(batches, changes);
  }
}
