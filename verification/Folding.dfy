/** A left fold, and when it does not depend on the order of its list. */
module Folding {
  function Fold<S, T>(step: (S, T) -> S, start: S, list: seq<T>): S {
    if list == [] then start else step(Fold(step, start, list[..|list| - 1]), list[|list| - 1])
  }

  ghost predicate Commute<S(!new), T>(step: (S, T) -> S, f: T, g: T) {
    forall s: S :: step(step(s, f), g) == step(step(s, g), f)
  }

  lemma FoldSnoc<S, T>(step: (S, T) -> S, start: S, list: seq<T>, f: T)
    ensures Fold(step, start, list + [f]) == step(Fold(step, start, list), f)
  {
    assert (list + [f])[..|list|] == list;
  }

  /** An entry may be moved behind the ones it commutes with. */
  lemma {:induction false} MoveToEnd<S(!new), T>(step: (S, T) -> S, start: S, a: seq<T>, f: T, b: seq<T>)
    requires forall g :: g in b ==> Commute(step, f, g)
    ensures Fold(step, start, a + [f] + b) == Fold(step, start, a + b + [f])
    decreases |b|
  {
    if b == [] {
      assert a + [f] + b == a + b + [f];
    } else {
      var front, g := b[..|b| - 1], b[|b| - 1];
      MoveToEnd(step, start, a, f, front);
      assert a + [f] + b == (a + [f] + front) + [g];
      FoldSnoc(step, start, a + [f] + front, g);
      FoldSnoc(step, start, a + front, f);
      FoldSnoc(step, start, a + front, g);
      assert a + b == a + front + [g];
      FoldSnoc(step, start, a + b, f);
      assert Commute(step, f, g);
    }
  }

  lemma WithoutOne<T>(list: seq<T>, j: nat)
    requires j < |list|
    ensures list == list[..j] + [list[j]] + list[j + 1..]
    ensures multiset(list) == multiset(list[..j] + list[j + 1..]) + multiset{list[j]}
  {
    var a, b, f := list[..j], list[j + 1..], list[j];
    assert list == a + [f] + b;
    assert multiset(a + b) == multiset(a) + multiset(b);
    assert multiset(a + [f] + b) == multiset(a) + multiset([f]) + multiset(b);
  }

  /** An entry that commutes with the ones after it may be taken last. */
  lemma TakenLast<S(!new), T>(step: (S, T) -> S, start: S, list: seq<T>, j: nat)
    requires j < |list| && forall g :: g in list[j + 1..] ==> Commute(step, list[j], g)
    ensures Fold(step, start, list) == step(Fold(step, start, list[..j] + list[j + 1..]), list[j])
  {
    WithoutOne(list, j);
    MoveToEnd(step, start, list[..j], list[j], list[j + 1..]);
    FoldSnoc(step, start, list[..j] + list[j + 1..], list[j]);
  }

  ghost predicate Independent<S(!new), T>(step: (S, T) -> S, list: seq<T>) {
    && (forall f :: f in list ==> multiset(list)[f] == 1)
    && (forall f, g :: f in list && g in list && f != g ==> Commute(step, f, g))
  }

  lemma Rest<S(!new), T>(step: (S, T) -> S, whole: seq<T>, rest: seq<T>, f: T)
    requires multiset(whole) == multiset(rest) + multiset{f} && Independent(step, whole)
    ensures Independent(step, rest) && forall g :: g in rest ==> Commute(step, f, g)
  {
    assert f in multiset(whole);
    forall g | g in rest ensures g in whole && g != f && multiset(rest)[g] == 1 {
      assert g in multiset(rest) && g in multiset(whole);
    }
  }

  /** What is left of a list of the whole's entries without one of them. */
  lemma LessOne<S(!new), T>(step: (S, T) -> S, list: seq<T>, j: nat, whole: seq<T>, f: T)
    requires j < |list| && list[j] == f && multiset(list) == multiset(whole) && Independent(step, whole)
    ensures var rest := list[..j] + list[j + 1..];
            multiset(rest) == multiset(whole) - multiset{f} && Independent(step, rest)
    ensures forall g :: g in list[j + 1..] ==> Commute(step, f, g)
  {
    var rest := list[..j] + list[j + 1..];
    WithoutOne(list, j);
    assert multiset(rest) == multiset(whole) - multiset{f};
    Rest(step, whole, rest, f);
    assert forall g :: g in list[j + 1..] ==> g in rest;
  }

  /** A fold over pairwise commuting, distinct entries depends only on which entries there are. */
  lemma {:induction false} FoldPermutes<S(!new), T>(step: (S, T) -> S, start: S, one: seq<T>, two: seq<T>)
    requires multiset(one) == multiset(two) && Independent(step, one)
    ensures Fold(step, start, one) == Fold(step, start, two)
    decreases |one|
  {
    if one == [] {
      assert |multiset(two)| == |two| == 0;
    } else {
      var f := one[0];
      assert f in multiset(two);
      var j :| 0 <= j < |two| && two[j] == f;
      var front, back := one[..0] + one[1..], two[..j] + two[j + 1..];
      LessOne(step, one, 0, one, f);
      LessOne(step, two, j, one, f);
      TakenLast(step, start, one, 0);
      TakenLast(step, start, two, j);
      FoldPermutes(step, start, front, back);
    }
  }
}
