/** Stable insertion sort, standing for the library's sorts. */
module Sorting {
  import opened Heap

  /** Insertion after the entries that are not greater. */
  function Insert<T>(less: (T, T) -> bool, list: seq<T>, x: T): seq<T> {
    if list == [] then [x]
    else if !less(x, list[0]) then [list[0]] + Insert(less, list[1..], x)
    else [x] + list
  }

  function Sort<T>(less: (T, T) -> bool, list: seq<T>): seq<T> {
    if list == [] then [] else Insert(less, Sort(less, list[..|list| - 1]), list[|list| - 1])
  }

  predicate Ascending<T>(less: (T, T) -> bool, list: seq<T>) {
    forall i, j :: 0 <= i < j < |list| ==> !less(list[j], list[i])
  }

  function ByKey<T>(key: T -> int): (T, T) -> bool {
    (a, b) => key(a) < key(b)
  }

  lemma {:induction false} InsertContent<T>(less: (T, T) -> bool, list: seq<T>, x: T)
    ensures multiset(Insert(less, list, x)) == multiset(list) + multiset{x}
  {
    if list != [] {
      InsertContent(less, list[1..], x);
      assert list == [list[0]] + list[1..];
    }
  }

  lemma {:induction false} SortContent<T>(less: (T, T) -> bool, list: seq<T>)
    ensures multiset(Sort(less, list)) == multiset(list) && |Sort(less, list)| == |list|
    decreases |list|
  {
    if list != [] {
      var front, x := list[..|list| - 1], list[|list| - 1];
      SortContent(less, front);
      InsertContent(less, Sort(less, front), x);
      assert list == front + [x];
      assert |multiset(Sort(less, list))| == |Sort(less, list)|;
      assert |multiset(list)| == |list|;
    }
  }

  lemma {:induction false} InsertAscends<T(!new)>(less: (T, T) -> bool, list: seq<T>, x: T)
    requires WeakOrder(less) && Ascending(less, list)
    ensures Ascending(less, Insert(less, list, x))
  {
    if list != [] {
      if !less(x, list[0]) {
        var rest := Insert(less, list[1..], x);
        InsertAscends(less, list[1..], x);
        InsertContent(less, list[1..], x);
        forall j | 0 <= j < |rest| ensures !less(rest[j], list[0]) {
          assert rest[j] in multiset(rest);
          assert rest[j] == x || rest[j] in list[1..];
        }
      } else {
        forall j | 0 <= j < |list| ensures !less(list[j], x) {
          if j > 0 { assert !less(list[j], list[0]); }
          assert !less(list[0], x);
        }
      }
    }
  }

  lemma {:induction false} SortAscends<T(!new)>(less: (T, T) -> bool, list: seq<T>)
    requires WeakOrder(less)
    ensures Ascending(less, Sort(less, list))
    decreases |list|
  {
    if list != [] {
      SortAscends(less, list[..|list| - 1]);
      InsertAscends(less, Sort(less, list[..|list| - 1]), list[|list| - 1]);
    }
  }

  // ----- names -----

  /** Byte order of names. */
  predicate NameLess(a: string, b: string) {
    if b == [] then false
    else if a == [] then true
    else if a[0] != b[0] then a[0] < b[0]
    else NameLess(a[1..], b[1..])
  }

  lemma {:induction false} NameLessTotal(a: string, b: string)
    ensures a != b ==> NameLess(a, b) || NameLess(b, a)
    ensures NameLess(a, b) ==> !NameLess(b, a)
    ensures !NameLess(a, a)
  {
    if a != [] {
      NameLessTotal(a[1..], a[1..]);
      if b != [] {
        NameLessTotal(a[1..], b[1..]);
        assert a == [a[0]] + a[1..] && b == [b[0]] + b[1..];
      }
    }
  }

  lemma {:induction false} NameLessTransitive(a: string, b: string, c: string)
    requires !NameLess(a, b) && !NameLess(b, c)
    ensures !NameLess(a, c)
  {
    if a != [] && b != [] && c != [] && a[0] == b[0] == c[0] {
      NameLessTransitive(a[1..], b[1..], c[1..]);
    }
  }
}
