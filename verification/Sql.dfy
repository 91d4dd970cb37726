/** The fragment of SQL the node filters use: nullable columns, three-valued conditions,
    and `?` placeholders bound by position.

    A condition and its arguments are built apart, as the query engine builds them, so the
    only tie between a placeholder and its value is their order. */
module Sql {
  import opened Text

  datatype Value = Null | Str(s: string) | Num(n: int)

  datatype Truth = True | False | Undefined

  datatype Column = Network | Layer | ForkHash | ForkNext | EnrDigest | EnrNextVersion | EnrNextEpoch

  /** One stored row; None is a NULL column. */
  datatype Row = Row(
    network: Option<string>, layer: Option<string>,
    forkHash: Option<string>, forkNext: Option<Uint64>,
    enrDigest: Option<string>, enrNextVersion: Option<string>, enrNextEpoch: Option<Uint64>)

  datatype Scalar =
    | Col(column: Column)
    | Lit(value: Value)
    | Param
    | LowerOf(arg: Scalar)
    | Coalesce(arg: Scalar, default: Value)

  datatype Comparison = Eq | Ne | Ge | Le

  datatype Cond =
    | Bool(b: bool)
    | Cmp(op: Comparison, lhs: Scalar, rhs: Scalar)
    | In(probe: Scalar, items: seq<Scalar>)
    | And(left: Cond, right: Cond)
    | Or(left: Cond, right: Cond)
    | Not(inner: Cond)
    | OrFalse(inner: Cond)  // coalesce(inner, FALSE)

  // ----- placeholders -----

  function ScalarParams(e: Scalar): nat {
    match e
    case Col(_) => 0
    case Lit(_) => 0
    case Param => 1
    case LowerOf(a) => ScalarParams(a)
    case Coalesce(a, _) => ScalarParams(a)
  }

  function ItemParams(items: seq<Scalar>): nat {
    if items == [] then 0 else ScalarParams(items[0]) + ItemParams(items[1..])
  }

  function Params(c: Cond): nat {
    match c
    case Bool(_) => 0
    case Cmp(_, l, r) => ScalarParams(l) + ScalarParams(r)
    case In(p, items) => ScalarParams(p) + ItemParams(items)
    case And(l, r) => Params(l) + Params(r)
    case Or(l, r) => Params(l) + Params(r)
    case Not(i) => Params(i)
    case OrFalse(i) => Params(i)
  }

  // ----- values -----

  function StrOrNull(v: Option<string>): Value {
    if v.Some? then Str(v.value) else Null
  }

  function NumOrNull(v: Option<Uint64>): Value {
    if v.Some? then Num(v.value) else Null
  }

  function ColumnValue(row: Row, c: Column): Value {
    match c
    case Network => StrOrNull(row.network)
    case Layer => StrOrNull(row.layer)
    case ForkHash => StrOrNull(row.forkHash)
    case ForkNext => NumOrNull(row.forkNext)
    case EnrDigest => StrOrNull(row.enrDigest)
    case EnrNextVersion => StrOrNull(row.enrNextVersion)
    case EnrNextEpoch => NumOrNull(row.enrNextEpoch)
  }

  /** Placeholder number k, counted from off, takes args[k]. */
  function ScalarValue(e: Scalar, row: Row, args: seq<Value>, off: nat): Value
    requires off + ScalarParams(e) <= |args|
  {
    match e
    case Col(c) => ColumnValue(row, c)
    case Lit(v) => v
    case Param => args[off]
    case LowerOf(a) => var v := ScalarValue(a, row, args, off); if v.Str? then Str(ToLower(v.s)) else Null
    case Coalesce(a, d) => var v := ScalarValue(a, row, args, off); if v.Null? then d else v
  }

  // ----- three-valued logic -----

  function Truthy(b: bool): Truth {
    if b then True else False
  }

  function And3(a: Truth, b: Truth): Truth {
    if a.False? || b.False? then False else if a.True? && b.True? then True else Undefined
  }

  function Or3(a: Truth, b: Truth): Truth {
    if a.True? || b.True? then True else if a.False? && b.False? then False else Undefined
  }

  /** Kleene's logic: AND and OR are dual under NOT, commute and associate, and TRUE and FALSE are their units. */
  lemma KleeneLaws(a: Truth, b: Truth, c: Truth)
    ensures Not3(And3(a, b)) == Or3(Not3(a), Not3(b)) && Not3(Not3(a)) == a && Not3(True) == False
    ensures And3(a, b) == And3(b, a) && And3(And3(a, b), c) == And3(a, And3(b, c))
    ensures Or3(a, b) == Or3(b, a) && Or3(Or3(a, b), c) == Or3(a, Or3(b, c))
    ensures And3(True, a) == a && And3(False, a) == False && Or3(False, a) == a && Or3(True, a) == True
    ensures And3(a, a) == a && Or3(a, a) == a
  {
  }

  function Not3(a: Truth): Truth {
    match a case True => False case False => True case Undefined => Undefined
  }

  function Compare(op: Comparison, a: Value, b: Value): Truth {
    if a.Null? || b.Null? then Undefined
    else match op
      case Eq => Truthy(a == b)
      case Ne => Truthy(a != b)
      case Ge => Truthy(a.Num? && b.Num? && a.n >= b.n)
      case Le => Truthy(a.Num? && b.Num? && a.n <= b.n)
  }

  function InValues(v: Value, items: seq<Scalar>, row: Row, args: seq<Value>, off: nat): Truth
    requires off + ItemParams(items) <= |args|
  {
    if items == [] then False
    else
      Or3(Compare(Eq, v, ScalarValue(items[0], row, args, off)),
          InValues(v, items[1..], row, args, off + ScalarParams(items[0])))
  }

  function EvalAt(c: Cond, row: Row, args: seq<Value>, off: nat): Truth
    requires off + Params(c) <= |args|
  {
    match c
    case Bool(b) => Truthy(b)
    case Cmp(op, l, r) =>
      Compare(op, ScalarValue(l, row, args, off), ScalarValue(r, row, args, off + ScalarParams(l)))
    case In(p, items) => InValues(ScalarValue(p, row, args, off), items, row, args, off + ScalarParams(p))
    case And(l, r) => And3(EvalAt(l, row, args, off), EvalAt(r, row, args, off + Params(l)))
    case Or(l, r) => Or3(EvalAt(l, row, args, off), EvalAt(r, row, args, off + Params(l)))
    case Not(i) => Not3(EvalAt(i, row, args, off))
    case OrFalse(i) => var t := EvalAt(i, row, args, off); if t.Undefined? then False else t
  }

  /** The value of a condition when its placeholders, read left to right, take the arguments in order. */
  function Eval(c: Cond, row: Row, args: seq<Value>): Truth
    requires |args| == Params(c)
  {
    EvalAt(c, row, args, 0)
  }

  // ----- a condition sees only the arguments at its own placeholders -----

  /** n arguments from position i of a are those from position j of b. */
  predicate Same(a: seq<Value>, i: nat, b: seq<Value>, j: nat, n: nat) {
    i + n <= |a| && j + n <= |b| && forall k :: i <= k < i + n ==> a[k] == b[k - i + j]
  }

  lemma {:induction false} ScalarShift(e: Scalar, row: Row, a: seq<Value>, i: nat, b: seq<Value>, j: nat)
    requires Same(a, i, b, j, ScalarParams(e))
    ensures ScalarValue(e, row, a, i) == ScalarValue(e, row, b, j)
  {
    match e
    case Col(_) =>
    case Lit(_) =>
    case Param => assert a[i] == b[i - i + j];
    case LowerOf(x) => ScalarShift(x, row, a, i, b, j);
    case Coalesce(x, _) => ScalarShift(x, row, a, i, b, j);
  }

  lemma {:induction false} ItemsShift(v: Value, items: seq<Scalar>, row: Row, a: seq<Value>, i: nat, b: seq<Value>,
                                      j: nat)
    requires Same(a, i, b, j, ItemParams(items))
    ensures InValues(v, items, row, a, i) == InValues(v, items, row, b, j)
  {
    if items != [] {
      var n := ScalarParams(items[0]);
      ScalarShift(items[0], row, a, i, b, j);
      ItemsShift(v, items[1..], row, a, i + n, b, j + n);
    }
  }

  lemma {:induction false} Shift(c: Cond, row: Row, a: seq<Value>, i: nat, b: seq<Value>, j: nat)
    requires Same(a, i, b, j, Params(c))
    ensures EvalAt(c, row, a, i) == EvalAt(c, row, b, j)
    decreases c, 1
  {
    match c
    case Bool(_) =>
    case Cmp(op, l, r) => ShiftCmp(op, l, r, row, a, i, b, j);
    case In(p, items) => ShiftIn(p, items, row, a, i, b, j);
    case And(l, r) => ShiftBoth(c, l, r, row, a, i, b, j);
    case Or(l, r) => ShiftBoth(c, l, r, row, a, i, b, j);
    case Not(x) => Shift(x, row, a, i, b, j);
    case OrFalse(x) => Shift(x, row, a, i, b, j);
  }

  lemma ShiftCmp(op: Comparison, l: Scalar, r: Scalar, row: Row, a: seq<Value>, i: nat, b: seq<Value>, j: nat)
    requires Same(a, i, b, j, ScalarParams(l) + ScalarParams(r))
    ensures EvalAt(Cmp(op, l, r), row, a, i) == EvalAt(Cmp(op, l, r), row, b, j)
  {
    var n := ScalarParams(l);
    SameParts(a, i, b, j, n, ScalarParams(r));
    ScalarShift(l, row, a, i, b, j);
    ScalarShift(r, row, a, i + n, b, j + n);
  }

  lemma ShiftIn(p: Scalar, items: seq<Scalar>, row: Row, a: seq<Value>, i: nat, b: seq<Value>, j: nat)
    requires Same(a, i, b, j, ScalarParams(p) + ItemParams(items))
    ensures EvalAt(In(p, items), row, a, i) == EvalAt(In(p, items), row, b, j)
  {
    var n := ScalarParams(p);
    SameParts(a, i, b, j, n, ItemParams(items));
    ScalarShift(p, row, a, i, b, j);
    ItemsShift(ScalarValue(p, row, a, i), items, row, a, i + n, b, j + n);
  }

  lemma {:induction false} ShiftBoth(c: Cond, l: Cond, r: Cond, row: Row, a: seq<Value>, i: nat, b: seq<Value>, j: nat)
    requires c == And(l, r) || c == Or(l, r)
    requires Same(a, i, b, j, Params(l) + Params(r))
    ensures EvalAt(l, row, a, i) == EvalAt(l, row, b, j)
    ensures EvalAt(r, row, a, i + Params(l)) == EvalAt(r, row, b, j + Params(l))
    decreases c, 0
  {
    SameParts(a, i, b, j, Params(l), Params(r));
    Shift(l, row, a, i, b, j);
    Shift(r, row, a, i + Params(l), b, j + Params(l));
  }

  lemma SameParts(a: seq<Value>, i: nat, b: seq<Value>, j: nat, m: nat, n: nat)
    requires Same(a, i, b, j, m + n)
    ensures Same(a, i, b, j, m) && Same(a, i + m, b, j + m, n)
  {
  }

  // ----- binding: arguments appended in the order the text was appended -----

  lemma BindCmp(op: Comparison, e: Scalar, v: Value, row: Row)
    requires ScalarParams(e) == 0
    ensures Params(Cmp(op, e, Param)) == 1
    ensures Eval(Cmp(op, e, Param), row, [v]) == Compare(op, ScalarValue(e, row, [], 0), v)
  {
    ScalarShift(e, row, [v], 0, [], 0);
  }

  lemma CompareUnbound(op: Comparison, e: Scalar, f: Scalar, row: Row)
    requires ScalarParams(e) == ScalarParams(f) == 0
    ensures Params(Cmp(op, e, f)) == 0
    ensures Eval(Cmp(op, e, f), row, []) == Compare(op, ScalarValue(e, row, [], 0), ScalarValue(f, row, [], 0))
  {
  }

  lemma BindBoth(l: Cond, r: Cond, row: Row, x: seq<Value>, y: seq<Value>)
    requires |x| == Params(l) && |y| == Params(r)
    ensures Eval(And(l, r), row, x + y) == And3(Eval(l, row, x), Eval(r, row, y))
    ensures Eval(Or(l, r), row, x + y) == Or3(Eval(l, row, x), Eval(r, row, y))
  {
    Shift(l, row, x + y, 0, x, 0);
    Shift(r, row, x + y, |x|, y, 0);
  }

  /** A value list binds one argument to each `?`. */
  lemma {:induction false} BindIn(v: Value, n: nat, row: Row, args: seq<Value>, off: nat)
    requires off + n == |args| && v != Null && Null !in args
    ensures ItemParams(seq(n, _ => Param)) == n
    ensures InValues(v, seq(n, _ => Param), row, args, off) == Truthy(v in args[off..])
  {
    var items := seq(n, _ => Param);
    if n > 0 {
      assert items[1..] == seq(n - 1, _ => Param);
      BindIn(v, n - 1, row, args, off + 1);
      assert args[off..] == [args[off]] + args[off + 1..];
    }
  }

  function AnyOf(parts: seq<Cond>): Cond
    requires parts != []
  {
    if |parts| == 1 then parts[0] else Or(AnyOf(parts[..|parts| - 1]), parts[|parts| - 1])
  }
}
